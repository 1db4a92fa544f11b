/** Round-robin turns over a fixed list, skipping the entries that are not viable. */
module Dispatching {
  import opened Arithmetic
  import opened Hosts
  import opened Sequences

  /** Whether the entry whose turn comes at position `x` is viable. */
  predicate Turn(viable: seq<bool>, x: nat) {
    viable != [] && viable[x % |viable|]
  }

  /** The first position from `cursor` on, out of `attempts`, at which a viable entry has its turn. */
  function NextTurn(viable: seq<bool>, cursor: nat, attempts: nat): (x: nat)
    ensures cursor <= x <= cursor + attempts
    ensures x < cursor + attempts ==> Turn(viable, x)
    ensures forall y :: cursor <= y < x ==> !Turn(viable, y)
    decreases attempts
  {
    if attempts == 0 || Turn(viable, cursor) then cursor else NextTurn(viable, cursor + 1, attempts - 1)
  }

  /** The entries that `calls` consecutive turns pick. */
  ghost function Picks(viable: seq<bool>, cursor: nat, calls: nat): seq<nat>
    decreases calls
  {
    if calls == 0 then []
    else
      var x := NextTurn(viable, cursor, |viable|);
      if x == cursor + |viable| then []
      else [x % |viable|] + Picks(viable, x + 1, calls - 1)
  }

  /** The viable entries among the `m` positions from `cursor` on. */
  ghost function Window(viable: seq<bool>, cursor: nat, m: nat): seq<nat>
    decreases m
  {
    if m == 0 then []
    else (if Turn(viable, cursor) then [cursor % |viable|] else []) + Window(viable, cursor + 1, m - 1)
  }

  /** Every residue is reached within `n` steps from anywhere. */
  lemma Reaches(n: nat, cursor: nat, k: nat) returns (x: nat)
    requires k < n
    ensures cursor <= x < cursor + n && x % n == k
  {
    var q, c := cursor / n, cursor % n;
    x := if k >= c then cursor - c + k else cursor - c + k + n;
    Quotient(x, n, if k >= c then q else q + 1, k);
  }

  /** Positions less than `n` apart differ modulo `n`. */
  lemma Apart(n: nat, a: nat, b: nat)
    requires a < b < a + n
    ensures a % n != b % n
  {
    var d := b / n - a / n;
    assert b - a == d * n + (b % n - a % n);
    Multiple(d, n);
  }

  ghost predicate AnyViable(viable: seq<bool>) {
    exists k :: 0 <= k < |viable| && viable[k]
  }

  /** A turn is found within one round exactly when some entry is viable. */
  lemma TurnFound(viable: seq<bool>, cursor: nat)
    ensures NextTurn(viable, cursor, |viable|) < cursor + |viable| <==> AnyViable(viable)
  {
    var x := NextTurn(viable, cursor, |viable|);
    if x < cursor + |viable| {
      assert viable[x % |viable|];
    }
    if AnyViable(viable) {
      var k :| 0 <= k < |viable| && viable[k];
      var y := Reaches(|viable|, cursor, k);
      assert Turn(viable, y);
    }
  }

  /** Starting a turn at a position that is not viable is starting it one later. */
  lemma SkipOne(viable: seq<bool>, cursor: nat)
    requires AnyViable(viable) && !Turn(viable, cursor)
    ensures NextTurn(viable, cursor, |viable|) == NextTurn(viable, cursor + 1, |viable|)
  {
    TurnFound(viable, cursor);
    TurnFound(viable, cursor + 1);
    var x, y := NextTurn(viable, cursor, |viable|), NextTurn(viable, cursor + 1, |viable|);
    assert Turn(viable, x) && Turn(viable, y);
  }

  lemma NowTurn(viable: seq<bool>, cursor: nat)
    requires Turn(viable, cursor)
    ensures NextTurn(viable, cursor, |viable|) == cursor < cursor + |viable|
  {
  }

  lemma ConsOnce(x: nat, s: seq<nat>)
    requires NoRepeats(s) && x !in s
    ensures NoRepeats([x] + s)
  {
  }

  lemma WindowStep(viable: seq<bool>, cursor: nat, m: nat)
    requires m > 0
    ensures var rest := Window(viable, cursor + 1, m - 1);
            Window(viable, cursor, m) == if Turn(viable, cursor) then [cursor % |viable|] + rest else rest
  {
  }

  lemma PicksStep(viable: seq<bool>, cursor: nat, calls: nat)
    requires AnyViable(viable)
    ensures Turn(viable, cursor) ==> Picks(viable, cursor, calls + 1) == [cursor % |viable|] + Picks(viable, cursor + 1, calls)
    ensures !Turn(viable, cursor) ==> Picks(viable, cursor, calls) == Picks(viable, cursor + 1, calls)
  {
    hide NextTurn;
    if Turn(viable, cursor) {
      NowTurn(viable, cursor);
    } else {
      SkipOne(viable, cursor);
      TurnFound(viable, cursor);
      TurnFound(viable, cursor + 1);
    }
  }

  /** Consecutive turns pick the viable entries of a window, in order. */
  lemma {:induction false} TurnsFollowWindow(viable: seq<bool>, cursor: nat, m: nat)
    requires AnyViable(viable)
    ensures Picks(viable, cursor, |Window(viable, cursor, m)|) == Window(viable, cursor, m)
    decreases m
  {
    hide Turn, AnyViable, NextTurn, Picks, Window;
    if m == 0 {
      NoTurns(viable, cursor);
    } else {
      WindowStep(viable, cursor, m);
      PicksStep(viable, cursor, |Window(viable, cursor + 1, m - 1)|);
      TurnsFollowWindow(viable, cursor + 1, m - 1);
    }
  }

  lemma NoTurns(viable: seq<bool>, cursor: nat)
    ensures Window(viable, cursor, 0) == Picks(viable, cursor, 0) == []
  {
  }

  /** A window of at most one round holds the viable entry of each of its positions, once. */
  lemma {:induction false} WindowOnce(viable: seq<bool>, cursor: nat, m: nat)
    requires m <= |viable|
    ensures NoRepeats(Window(viable, cursor, m))
    ensures forall k :: k in Window(viable, cursor, m) <==> exists x :: cursor <= x < cursor + m && Turn(viable, x) && k == x % |viable|
    decreases m
  {
    hide Turn;
    if m > 0 {
      WindowStep(viable, cursor, m);
      WindowOnce(viable, cursor + 1, m - 1);
      var rest := Window(viable, cursor + 1, m - 1);
      forall k | k in rest
        ensures k != cursor % |viable|
      {
        var x :| cursor + 1 <= x < cursor + m && Turn(viable, x) && k == x % |viable|;
        Apart(|viable|, cursor, x);
      }
      ConsOnce(cursor % |viable|, rest);
      forall k
        ensures k in Window(viable, cursor, m) <==> exists x :: cursor <= x < cursor + m && Turn(viable, x) && k == x % |viable|
      {
        WindowMember(viable, cursor, m, k);
      }
    }
  }

  lemma WindowMember(viable: seq<bool>, cursor: nat, m: nat, k: nat)
    requires 0 < m <= |viable|
    requires k in Window(viable, cursor + 1, m - 1) <==> exists x :: cursor + 1 <= x < cursor + m && Turn(viable, x) && k == x % |viable|
    ensures k in Window(viable, cursor, m) <==> exists x :: cursor <= x < cursor + m && Turn(viable, x) && k == x % |viable|
  {
    hide Turn;
    var here := Turn(viable, cursor) && k == cursor % |viable|;
    assert k in Window(viable, cursor, m) <==> here || k in Window(viable, cursor + 1, m - 1);
  }

  /** While viability does not change, as many turns as there are viable entries pick each of them exactly once. */
  lemma EachViableOnce(viable: seq<bool>, cursor: nat)
    ensures var all := set k: nat | k < |viable| && viable[k];
            var picks := Picks(viable, cursor, |all|);
            && |picks| == |all| && NoRepeats(picks) && forall k :: k in picks <==> k in all
  {
    var all := set k: nat | k < |viable| && viable[k];
    if AnyViable(viable) {
      var w := Window(viable, cursor, |viable|);
      WindowOnce(viable, cursor, |viable|);
      forall k
        ensures k in w <==> k in all
      {
        if k in all {
          var x := Reaches(|viable|, cursor, k);
          assert Turn(viable, x);
        }
      }
      Card(w, all);
      TurnsFollowWindow(viable, cursor, |viable|);
    } else {
      assert all == {};
    }
  }

  lemma {:induction false} Card(s: seq<nat>, all: set<nat>)
    requires NoRepeats(s) && forall k :: k in s <==> k in all
    ensures |s| == |all|
  {
    if s == [] {
      assert all == {};
    } else {
      var rest := all - {s[0]};
      assert forall k :: k in s[1..] ==> k in s;
      assert s == [s[0]] + s[1..];
      Card(s[1..], rest);
    }
  }
}
