/** The water-filling split of a pipeline's layers: bisection for the level, then largest remainders. */
module WaterFilling {
  import opened SortedLists
  import opened Sequences

  /** What a node of capacity `cap` and power `power` takes at a level. */
  function Share(cap: int, power: real, level: real): real {
    if level * power < cap as real then level * power else cap as real
  }

  function Total(caps: seq<int>, powers: seq<real>, level: real): real
    requires |caps| == |powers|
  {
    if caps == [] then 0.0 else Share(caps[0], powers[0], level) + Total(caps[1..], powers[1..], level)
  }

  function SumPowers(powers: seq<real>): real {
    if powers == [] then 0.0 else powers[0] + SumPowers(powers[1..])
  }

  function Pow2(k: nat): real {
    if k == 0 then 1.0 else 2.0 * Pow2(k - 1)
  }

  /** The level at which the slowest-filling node is full. */
  function Top(caps: seq<int>, powers: seq<real>): (top: real)
    requires |caps| == |powers| > 0 && forall i :: 0 <= i < |powers| ==> powers[i] > 0.0
  {
    var t := caps[0] as real / powers[0];
    if |caps| == 1 then t
    else
      var rest := Top(caps[1..], powers[1..]);
      if t < rest then rest else t
  }

  ghost predicate Fillable(caps: seq<int>, powers: seq<real>) {
    && |caps| == |powers| > 0
    && forall i :: 0 <= i < |caps| ==> caps[i] >= 1 && powers[i] > 0.0
  }

  lemma {:induction false} TopPositive(caps: seq<int>, powers: seq<real>)
    requires Fillable(caps, powers)
    ensures Top(caps, powers) > 0.0
  {
    if |caps| > 1 {
      TopPositive(caps[1..], powers[1..]);
    }
  }

  lemma Quotient(c: real, f: real, level: real)
    requires f > 0.0 && c / f <= level
    ensures c <= level * f
  {
    var q := c / f;
    assert c == q * f;
    NonNegative(level - q, f);
    assert (level - q) * f == level * f - q * f;
  }

  /** At the top level, and above, every node is full. */
  lemma {:induction false} FullAbove(caps: seq<int>, powers: seq<real>, level: real)
    requires Fillable(caps, powers) && Top(caps, powers) <= level
    ensures Total(caps, powers, level) == Sum(caps) as real
  {
    Quotient(caps[0] as real, powers[0], level);
    if |caps| > 1 {
      FullAbove(caps[1..], powers[1..], level);
    }
  }

  lemma {:induction false} EmptyAtZero(caps: seq<int>, powers: seq<real>)
    requires |caps| == |powers|
    requires forall i :: 0 <= i < |caps| ==> caps[i] >= 1
    ensures Total(caps, powers, 0.0) == 0.0
  {
    if caps != [] {
      assert 0.0 * powers[0] == 0.0;
      EmptyAtZero(caps[1..], powers[1..]);
    }
  }

  lemma NonNegative(x: real, y: real)
    requires x >= 0.0 && y >= 0.0
    ensures x * y >= 0.0
  {
  }

  lemma ShareSlope(cap: int, power: real, a: real, b: real)
    requires power > 0.0 && a <= b
    ensures Share(cap, power, a) <= Share(cap, power, b) <= Share(cap, power, a) + (b - a) * power
  {
    var d := b - a;
    assert b * power == a * power + d * power;
    NonNegative(d, power);
  }

  lemma Distribute(x: real, y: real, z: real)
    ensures x * (y + z) == x * y + x * z
  {
  }

  /** The total grows with the level, by at most the total power times the difference. */
  lemma {:induction false} TotalSlope(caps: seq<int>, powers: seq<real>, a: real, b: real)
    requires |caps| == |powers| && a <= b
    requires forall i :: 0 <= i < |powers| ==> powers[i] > 0.0
    ensures Total(caps, powers, a) <= Total(caps, powers, b) <= Total(caps, powers, a) + (b - a) * SumPowers(powers)
  {
    hide Share;
    if caps != [] {
      ShareSlope(caps[0], powers[0], a, b);
      TotalSlope(caps[1..], powers[1..], a, b);
      Distribute(b - a, powers[0], SumPowers(powers[1..]));
    }
  }

  /** `level` is the `m`-th of the `2^steps` equal parts of the top level, and the first to reach `layers`. */
  ghost predicate FirstReaching(caps: seq<int>, powers: seq<real>, layers: int, steps: nat, level: real, m: nat)
    requires |caps| == |powers| > 0 && forall i :: 0 <= i < |powers| ==> powers[i] > 0.0
  {
    && Pow2(steps) > 0.0
    && level == m as real * (Top(caps, powers) / Pow2(steps))
    && Total(caps, powers, level - Top(caps, powers) / Pow2(steps)) < layers as real <= Total(caps, powers, level)
  }

  /** Bisection finds the first grid level that reaches `layers`. */
  method Bisect(caps: seq<int>, powers: seq<real>, layers: int, steps: nat) returns (level: real)
    requires Fillable(caps, powers) && 1 <= layers <= Sum(caps)
    ensures 0.0 < level <= Top(caps, powers)
    ensures exists m: nat :: FirstReaching(caps, powers, layers, steps, level, m)
  {
    hide Total, Top;
    var lo, hi := 0.0, Top(caps, powers);
    TopPositive(caps, powers);
    FullAbove(caps, powers, hi);
    EmptyAtZero(caps, powers);
    ghost var m: nat := 1;
    var i := 0;
    while i < steps
      invariant 0 <= i <= steps
      invariant 0.0 <= lo < hi <= Top(caps, powers)
      invariant Total(caps, powers, lo) < layers as real <= Total(caps, powers, hi)
      invariant Pow2(i) > 0.0 && hi - lo == Top(caps, powers) / Pow2(i)
      invariant m >= 1 && hi == m as real * (Top(caps, powers) / Pow2(i))
    {
      Halve(Top(caps, powers), i);
      var mid := 0.5 * (lo + hi);
      if Total(caps, powers, mid) >= layers as real {
        hi := mid;
        m := 2 * m - 1;
      } else {
        lo := mid;
        m := 2 * m;
      }
      i := i + 1;
    }
    level := hi;
    assert FirstReaching(caps, powers, layers, steps, level, m);
  }

  lemma Halve(t: real, i: nat)
    requires Pow2(i) > 0.0
    ensures Pow2(i + 1) > 0.0
    ensures t / Pow2(i + 1) == 0.5 * (t / Pow2(i))
  {
    var q := t / Pow2(i);
    assert q * Pow2(i) == t;
    assert (0.5 * q) * Pow2(i + 1) == t;
  }

  /** Enough steps for the powers: one resolution step moves the total by at most one layer. */
  ghost predicate FineEnough(caps: seq<int>, powers: seq<real>, steps: nat)
    requires Fillable(caps, powers)
  {
    SumPowers(powers) * Top(caps, powers) <= Pow2(steps)
  }

  lemma LessThanOneOver(caps: seq<int>, powers: seq<real>, layers: int, steps: nat, level: real)
    requires Fillable(caps, powers) && FineEnough(caps, powers, steps) && Pow2(steps) > 0.0
    requires Total(caps, powers, level - Top(caps, powers) / Pow2(steps)) < layers as real
    ensures Total(caps, powers, level) < layers as real + 1.0
  {
    hide Total, Top, Pow2, SumPowers;
    var t, s, n := Top(caps, powers), SumPowers(powers), Pow2(steps);
    TopPositive(caps, powers);
    TotalSlope(caps, powers, level - t / n, level);
    OneStep(s, t, n);
  }

  lemma OneStep(s: real, t: real, n: real)
    requires n > 0.0 && t > 0.0 && s * t <= n
    ensures t / n > 0.0 && (t / n) * s <= 1.0
  {
    var q := t / n;
    assert q * n == t;
    var x, y := q * s, s * t;
    assert x * n == y;
    Compare(x, n, y);
    assert q <= 0.0 ==> q * n <= 0.0;
  }

  lemma Compare(x: real, n: real, y: real)
    requires n > 0.0 && x * n == y && y <= n
    ensures x <= 1.0
  {
    assert x > 1.0 ==> (x - 1.0) * n > 0.0;
  }

  /** The water-filled shares at a level. */
  function Targets(caps: seq<int>, powers: seq<real>, level: real): (r: seq<real>)
    requires |caps| == |powers|
    ensures |r| == |caps|
    ensures forall i :: 0 <= i < |caps| ==> r[i] == Share(caps[i], powers[i], level)
  {
    if caps == [] then [] else [Share(caps[0], powers[0], level)] + Targets(caps[1..], powers[1..], level)
  }

  function Floors(caps: seq<int>, targets: seq<real>): (r: seq<int>)
    requires |caps| == |targets|
    ensures |r| == |caps|
    ensures forall i :: 0 <= i < |caps| ==> r[i] == (if caps[i] < targets[i].Floor then caps[i] else targets[i].Floor)
  {
    if caps == [] then []
    else [if caps[0] < targets[0].Floor then caps[0] else targets[0].Floor] + Floors(caps[1..], targets[1..])
  }

  /** What rounding down leaves of every share. */
  function Remainders(targets: seq<real>, floors: seq<int>): (r: seq<real>)
    requires |targets| == |floors|
    ensures |r| == |targets|
    ensures forall i :: 0 <= i < |r| ==> r[i] == targets[i] - floors[i] as real
  {
    if targets == [] then [] else [targets[0] - floors[0] as real] + Remainders(targets[1..], floors[1..])
  }

  lemma {:induction false} TargetsTotal(caps: seq<int>, powers: seq<real>, level: real)
    requires |caps| == |powers|
    ensures SumReals(Targets(caps, powers, level)) == Total(caps, powers, level)
  {
    if caps != [] {
      TargetsTotal(caps[1..], powers[1..], level);
      assert Targets(caps, powers, level)[1..] == Targets(caps[1..], powers[1..], level);
    }
  }

  lemma {:induction false} RemaindersTotal(targets: seq<real>, floors: seq<int>)
    requires |targets| == |floors|
    ensures SumReals(Remainders(targets, floors)) == SumReals(targets) - Sum(floors) as real
  {
    if targets != [] {
      RemaindersTotal(targets[1..], floors[1..]);
      assert Remainders(targets, floors)[1..] == Remainders(targets[1..], floors[1..]);
    }
  }

  /** Shares never exceed the capacity, so rounding down never meets it from above. */
  lemma FloorFacts(caps: seq<int>, powers: seq<real>, level: real)
    requires Fillable(caps, powers) && level > 0.0
    ensures var targets := Targets(caps, powers, level);
            var floors := Floors(caps, targets);
            forall i :: 0 <= i < |caps| ==>
                          && floors[i] == targets[i].Floor
                          && 0 <= floors[i] <= caps[i]
                          && 0.0 <= targets[i] - floors[i] as real < 1.0
                          && (targets[i] - floors[i] as real > 0.0 ==> floors[i] < caps[i])
  {
    hide Floors, Targets;
    var targets := Targets(caps, powers, level);
    forall i | 0 <= i < |caps|
      ensures 0.0 <= targets[i] <= caps[i] as real
    {
      assert level * powers[i] > 0.0;
    }
  }

  /** Places `i` after every index whose remainder is at least as large. */
  function Place(frac: seq<real>, i: nat, order: seq<nat>): (r: seq<nat>)
    requires i < |frac| && forall k :: 0 <= k < |order| ==> order[k] < |frac|
    ensures |r| == |order| + 1
    ensures forall k :: 0 <= k < |r| ==> r[k] == i || r[k] in order
  {
    if order == [] || frac[order[0]] < frac[i] then [i] + order
    else [order[0]] + Place(frac, i, order[1..])
  }

  /** The first `n` indices by decreasing remainder, lower index first on ties. */
  function Ranked(frac: seq<real>, n: nat): (r: seq<nat>)
    requires n <= |frac|
    ensures |r| == n
    ensures forall k :: 0 <= k < n ==> r[k] < n
  {
    if n == 0 then []
    else
      var order := Ranked(frac, n - 1);
      Place(frac, n - 1, order)
  }

  /** Index `i` is served before `j`: its remainder is larger, or as large with the lower index. */
  predicate Ahead(frac: seq<real>, i: nat, j: nat) {
    i < |frac| && j < |frac| && (frac[i] > frac[j] || (frac[i] == frac[j] && i < j))
  }

  /** Every index is served before those after it. */
  ghost predicate ByRank(frac: seq<real>, order: seq<nat>) {
    && (forall k :: 0 <= k < |order| ==> order[k] < |frac|)
    && forall a, b :: 0 <= a < b < |order| ==> Ahead(frac, order[a], order[b])
  }

  /** Sum of the remainders at the listed indices. */
  function SumAt(frac: seq<real>, order: seq<nat>): real
    requires forall k :: 0 <= k < |order| ==> order[k] < |frac|
  {
    if order == [] then 0.0 else frac[order[0]] + SumAt(frac, order[1..])
  }

  lemma {:induction false} PlaceMembers(frac: seq<real>, i: nat, order: seq<nat>)
    requires i < |frac| && forall k :: 0 <= k < |order| ==> order[k] < |frac|
    ensures forall x :: x in Place(frac, i, order) <==> x == i || x in order
    ensures SumAt(frac, Place(frac, i, order)) == frac[i] + SumAt(frac, order)
  {
    if order == [] || frac[order[0]] < frac[i] {
      assert Place(frac, i, order)[1..] == order;
    } else {
      PlaceMembers(frac, i, order[1..]);
      var rest := Place(frac, i, order[1..]);
      assert Place(frac, i, order) == [order[0]] + rest && Place(frac, i, order)[1..] == rest;
      assert order == [order[0]] + order[1..];
    }
  }

  lemma RankCons(frac: seq<real>, i: nat, order: seq<nat>)
    requires i < |frac| && ByRank(frac, order) && forall x :: x in order ==> Ahead(frac, i, x)
    ensures ByRank(frac, [i] + order)
  {
    hide Ahead;
    var r := [i] + order;
    forall a, b | 0 <= a < b < |r|
      ensures Ahead(frac, r[a], r[b])
    {
      assert r[b] == order[b - 1] && order[b - 1] in order;
      assert a > 0 ==> r[a] == order[a - 1];
    }
  }

  lemma RankTail(frac: seq<real>, order: seq<nat>)
    requires ByRank(frac, order) && order != []
    ensures ByRank(frac, order[1..]) && forall k :: 0 <= k < |order[1..]| ==> order[1..][k] < |frac|
    ensures forall x :: x in order[1..] ==> x in order && Ahead(frac, order[0], x)
  {
    hide Ahead;
  }

  lemma {:induction false} PlaceOrder(frac: seq<real>, i: nat, order: seq<nat>)
    requires i < |frac| && ByRank(frac, order) && forall x :: x in order ==> x < i
    ensures ByRank(frac, Place(frac, i, order))
  {
    hide ByRank;
    if order == [] {
      RankCons(frac, i, order);
    } else {
      RankTail(frac, order);
      assert order[0] in order;
      if frac[order[0]] < frac[i] {
        assert forall x :: x in order ==> x == order[0] || x in order[1..];
        RankCons(frac, i, order);
      } else {
        PlaceOrder(frac, i, order[1..]);
        PlaceMembers(frac, i, order[1..]);
        RankCons(frac, order[0], Place(frac, i, order[1..]));
      }
    }
  }

  /** Every index below `n` occurs, in rank order, so the remainders sum up as before. */
  ghost predicate Ranking(frac: seq<real>, order: seq<nat>, n: nat, total: real) {
    && ByRank(frac, order)
    && (forall x: nat :: x in order <==> x < n)
    && SumAt(frac, order) == total
  }

  lemma {:induction false} RankedFacts(frac: seq<real>, n: nat)
    requires n <= |frac|
    ensures Ranking(frac, Ranked(frac, n), n, SumReals(frac[..n]))
  {
    if n > 0 {
      hide Ranking, Place, SumReals, Ranked;
      var order := Ranked(frac, n - 1);
      RankedFacts(frac, n - 1);
      RankingGrows(frac, order, SumReals(frac[..n - 1]), n - 1);
      SumPrefix(frac, n);
      RankedStep(frac, n);
    } else {
      RankingNone(frac);
    }
  }

  lemma RankingNone(frac: seq<real>)
    ensures Ranking(frac, Ranked(frac, 0), 0, SumReals(frac[..0]))
  {
  }

  lemma RankedStep(frac: seq<real>, n: nat)
    requires 0 < n <= |frac|
    ensures Ranked(frac, n) == Place(frac, n - 1, Ranked(frac, n - 1))
  {
  }

  lemma SumPrefix(s: seq<real>, n: nat)
    requires 0 < n <= |s|
    ensures SumReals(s[..n]) == SumReals(s[..n - 1]) + s[n - 1]
  {
    SumRealsLast(s[..n]);
    assert s[..n][..n - 1] == s[..n - 1];
  }

  lemma RankingGrows(frac: seq<real>, order: seq<nat>, total: real, i: nat)
    requires Ranking(frac, order, i, total) && i < |frac|
    ensures Ranking(frac, Place(frac, i, order), i + 1, total + frac[i])
  {
    hide Ahead, Place, SumAt;
    PlaceOrder(frac, i, order);
    PlaceMembers(frac, i, order);
  }

  lemma {:induction false} SumAtBound(frac: seq<real>, order: seq<nat>, bound: real)
    requires forall k :: 0 <= k < |order| ==> order[k] < |frac|
    requires forall x :: x in order ==> frac[x] <= bound
    ensures SumAt(frac, order) <= |order| as real * bound
  {
    if order != [] {
      assert order[0] in order;
      SumAtBound(frac, order[1..], bound);
      assert |order| as real * bound == bound + |order[1..]| as real * bound;
    }
  }

  /** While layers remain, the next index in the ranking has a positive remainder. */
  lemma NextHasRoom(frac: seq<real>, order: seq<nat>, remaining: int)
    requires ByRank(frac, order)
    requires remaining > 0 && SumAt(frac, order) >= remaining as real
    ensures order != [] && frac[order[0]] > 0.0
  {
    if order != [] && frac[order[0]] <= 0.0 {
      forall x | x in order
        ensures frac[x] <= 0.0
      {
        var k :| 0 <= k < |order| && order[k] == x;
        assert k > 0 ==> Ahead(frac, order[0], order[k]);
      }
      SumAtBound(frac, order, 0.0);
      assert false;
    }
  }

  /** The rounded split, or the error raised when the floors already exceed the layers. */
  datatype Split = Counts(counts: seq<int>) | NegativeRemaining

  /** Every count is its floor, or one more where the remainder is positive. */
  ghost predicate NearFloors(floors: seq<int>, frac: seq<real>, counts: seq<int>)
    requires |floors| == |frac|
  {
    && |counts| == |floors|
    && forall i :: 0 <= i < |floors| ==> counts[i] == floors[i] || (counts[i] == floors[i] + 1 && frac[i] > 0.0)
  }

  /** Whoever got an extra layer was served before everyone who did not. */
  ghost predicate LargestFirst(floors: seq<int>, frac: seq<real>, counts: seq<int>)
    requires |floors| == |frac|
  {
    && NearFloors(floors, frac, counts)
    && forall i, j :: 0 <= i < |floors| && 0 <= j < |floors| && counts[i] > floors[i] && counts[j] == floors[j] ==> Ahead(frac, i, j)
  }

  /** The first `k` of the ranking have an extra layer each, the others none. */
  ghost predicate ServedUpTo(floors: seq<int>, order: seq<nat>, counts: seq<int>, k: nat) {
    && |counts| == |floors| && k <= |order|
    && (forall j :: 0 <= j < |order| ==> order[j] < |floors|)
    && (forall j :: 0 <= j < k ==> counts[order[j]] == floors[order[j]] + 1)
    && (forall j :: k <= j < |order| ==> counts[order[j]] == floors[order[j]])
  }

  lemma ServedFirst(floors: seq<int>, frac: seq<real>, order: seq<nat>, counts: seq<int>, k: nat)
    requires |floors| == |frac| && ByRank(frac, order) && forall x: nat :: x in order <==> x < |frac|
    requires ServedUpTo(floors, order, counts, k) && NearFloors(floors, frac, counts)
    ensures LargestFirst(floors, frac, counts)
  {
    forall i: nat, j: nat | i < |floors| && j < |floors| && counts[i] > floors[i] && counts[j] == floors[j]
      ensures Ahead(frac, i, j)
    {
      assert i in order && j in order;
      var a :| 0 <= a < |order| && order[a] == i;
      var b :| 0 <= b < |order| && order[b] == j;
      assert a < k <= b;
    }
  }

  lemma ServeNext(floors: seq<int>, frac: seq<real>, order: seq<nat>, counts: seq<int>, k: nat)
    requires |floors| == |frac| && ByRank(frac, order) && ServedUpTo(floors, order, counts, k) && NearFloors(floors, frac, counts)
    requires k < |order| && frac[order[k]] > 0.0
    ensures order[k] in order && counts[order[k]] == floors[order[k]]
    ensures var next := counts[order[k] := counts[order[k]] + 1]; ServedUpTo(floors, order, next, k + 1) && NearFloors(floors, frac, next)
  {
    assert order[k] in order;
    forall j | 0 <= j < |order| && j != k
      ensures order[j] != order[k] && order[j] in order
    {
      assert if j < k then Ahead(frac, order[j], order[k]) else Ahead(frac, order[k], order[j]);
    }
  }

  lemma ServedNone(floors: seq<int>, frac: seq<real>, order: seq<nat>)
    requires |floors| == |frac| && ByRank(frac, order)
    ensures ServedUpTo(floors, order, floors, 0) && NearFloors(floors, frac, floors)
  {
  }

  /** Hands the remaining layers, one each, to the nodes with the largest remainders; ties go by node order. */
  method GiveRemainders(caps: seq<int>, floors: seq<int>, frac: seq<real>, layers: int) returns (counts: seq<int>)
    requires |caps| == |floors| == |frac|
    requires forall i :: 0 <= i < |caps| ==> floors[i] <= caps[i] && frac[i] < 1.0 && (frac[i] > 0.0 ==> floors[i] < caps[i])
    requires Sum(floors) <= layers && SumReals(frac) >= (layers - Sum(floors)) as real
    ensures LargestFirst(floors, frac, counts) && Sum(counts) == layers
  {
    hide Sum, SumReals, SumAt, Ranked, ByRank, NearFloors, LargestFirst, ServedUpTo;
    counts := floors;
    var remaining := layers - Sum(counts);
    var order := Ranked(frac, |frac|);
    RankedFacts(frac, |frac|);
    assert frac[..|frac|] == frac && order[0..] == order;
    ServedNone(floors, frac, order);
    var k := 0;
    while k < |order|
      invariant 0 <= k <= |order| && remaining >= 0 && |counts| == |floors|
      invariant ServedUpTo(floors, order, counts, k) && NearFloors(floors, frac, counts)
      invariant Sum(counts) + remaining == layers
      invariant ByRank(frac, order[k..])
      invariant SumAt(frac, order[k..]) >= remaining as real
    {
      if remaining == 0 {
        break;
      }
      var i := order[k];
      NextHasRoom(frac, order[k..], remaining);
      RankStep(frac, order, k);
      ServeNext(floors, frac, order, counts, k);
      var room := caps[i] - counts[i];
      if room > 0 {
        SumUpdate(counts, i, counts[i] + 1);
        counts := counts[i := counts[i] + 1];
        remaining := remaining - 1;
      }
      k := k + 1;
    }
    NothingLeft(frac, order[k..], k == |order|, remaining);
    ServedFirst(floors, frac, order, counts, k);
  }

  lemma NothingLeft(frac: seq<real>, rest: seq<nat>, exhausted: bool, remaining: int)
    requires forall k :: 0 <= k < |rest| ==> rest[k] < |frac|
    requires exhausted ==> rest == []
    requires SumAt(frac, rest) >= remaining as real && remaining >= 0
    ensures exhausted ==> remaining == 0
  {
  }

  ghost predicate WithinCaps(caps: seq<int>, counts: seq<int>) {
    |counts| == |caps| && forall i :: 0 <= i < |caps| ==> counts[i] <= caps[i]
  }

  /** What does not fit goes, in order, to nodes that have room: none gets more before the earlier ones are full. */
  ghost predicate Refilled(caps: seq<int>, given: seq<int>, counts: seq<int>) {
    && |given| == |caps| && WithinCaps(caps, counts)
    && (forall i :: 0 <= i < |caps| ==> if given[i] < caps[i] then given[i] <= counts[i] else counts[i] == caps[i])
    && (forall i, j :: 0 <= i < j < |caps| && counts[j] > given[j] ==> counts[i] == caps[i])
  }

  lemma {:induction false} SumAtMost(s: seq<int>, t: seq<int>)
    requires |s| == |t| && forall i :: 0 <= i < |s| ==> s[i] <= t[i]
    ensures Sum(s) <= Sum(t)
  {
    if s != [] {
      SumAtMost(s[1..], t[1..]);
    }
  }

  /** The final clamp makes counts fit and keeps their sum as far as the capacities allow; counts that fit stay as they are. */
  method Clamp(caps: seq<int>, given: seq<int>) returns (counts: seq<int>)
    requires |caps| == |given|
    ensures Refilled(caps, given, counts) && Sum(counts) == if Sum(given) <= Sum(caps) then Sum(given) else Sum(caps)
    ensures WithinCaps(caps, given) ==> counts == given
  {
    hide Sum;
    counts := given;
    var extra := 0;
    for i := 0 to |caps|
      invariant |counts| == |caps| && extra >= 0 && Sum(counts) + extra == Sum(given)
      invariant forall k :: 0 <= k < i ==> counts[k] == if given[k] < caps[k] then given[k] else caps[k]
      invariant forall k :: i <= k < |caps| ==> counts[k] == given[k]
      invariant WithinCaps(caps, given) ==> extra == 0 && counts == given
    {
      if counts[i] > caps[i] {
        extra := extra + counts[i] - caps[i];
        SumUpdate(counts, i, caps[i]);
        counts := counts[i := caps[i]];
      }
    }
    if extra > 0 {
      for i := 0 to |caps|
        invariant Refilled(caps, given, counts) && extra >= 0 && Sum(counts) + extra == Sum(given)
        invariant !WithinCaps(caps, given)
        invariant forall k :: 0 <= k < i && extra > 0 ==> counts[k] == caps[k]
        invariant forall k :: i <= k < |caps| ==> counts[k] <= given[k]
      {
        if extra == 0 {
          break;
        }
        var room := caps[i] - counts[i];
        var take := if room < extra then room else extra;
        SumUpdate(counts, i, counts[i] + take);
        counts := counts[i := counts[i] + take];
        extra := extra - take;
      }
    }
    SumAtMost(counts, caps);
    assert extra > 0 ==> counts == caps;
  }

  /** The shares rounded up are those with the largest fractional parts, the earlier node first on ties. */
  ghost predicate LargestPartsUp(caps: seq<int>, powers: seq<real>, level: real, counts: seq<int>)
    requires |caps| == |powers|
  {
    var targets := Targets(caps, powers, level);
    var floors := Floors(caps, targets);
    LargestFirst(floors, Remainders(targets, floors), counts)
  }

  /** Whole layers per node: the floor of every share, and one more where the remainder ranks high enough. */
  method Integerize(caps: seq<int>, powers: seq<real>, layers: int, level: real) returns (split: Split)
    requires Fillable(caps, powers) && level > 0.0
    requires Total(caps, powers, level) >= layers as real
    ensures split.Counts? <==> Sum(Floors(caps, Targets(caps, powers, level))) <= layers
    ensures split.Counts? ==>
              && |split.counts| == |caps|
              && Sum(split.counts) == layers
              && LargestPartsUp(caps, powers, level, split.counts)
              && forall i :: 0 <= i < |caps| ==> Rounded(caps[i], Share(caps[i], powers[i], level), split.counts[i])
  {
    hide Total, Sum, SumReals, Floors, Targets, Remainders, Share, Ahead;
    var targets := Targets(caps, powers, level);
    var floors := Floors(caps, targets);
    var frac := Remainders(targets, floors);
    FloorFacts(caps, powers, level);
    TargetsTotal(caps, powers, level);
    RemaindersTotal(targets, floors);
    if Sum(floors) > layers {
      return NegativeRemaining;
    }
    var counts := GiveRemainders(caps, floors, frac, layers);
    counts := Clamp(caps, counts);
    split := Counts(counts);
  }

  /** `count` is the floor or the ceiling of the share, and within the capacity. */
  ghost predicate Rounded(cap: int, share: real, count: int) {
    && 0 <= count <= cap
    && (count == share.Floor || (count == share.Floor + 1 && share > share.Floor as real))
  }

  lemma RankStep(frac: seq<real>, order: seq<nat>, k: nat)
    requires k < |order| && ByRank(frac, order[k..])
    requires forall j :: 0 <= j < |order| ==> order[j] < |frac|
    ensures ByRank(frac, order[k + 1..])
    ensures SumAt(frac, order[k..]) == frac[order[k]] + SumAt(frac, order[k + 1..])
  {
    assert order[k..][1..] == order[k + 1..];
  }
}
