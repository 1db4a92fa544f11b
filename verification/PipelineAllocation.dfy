/** Choosing the number of pipelines: the whole search of the dynamic-programming allocator. */
module PipelineAllocation {
  import opened SortedLists
  import opened PipelinePlans
  import opened PipelineDp
  import opened PipelineExactness
  import opened PipelineSearch
  import opened PipelineReplay

  datatype Choice = NoPipeline | Pipelines(target: nat, nodes: seq<seq<nat>>)

  /** Capacity of a pipeline by position: embedding at the head, LM head at the tail, plain in between. */
  function Reach(caps: seq<Capacity>, nodes: seq<nat>): int
    requires nodes != [] && forall k :: 0 <= k < |nodes| ==> nodes[k] < |caps|
  {
    if |nodes| == 1 then caps[nodes[0]].withBoth
    else PlainReach(caps, nodes[..|nodes| - 1]) + caps[nodes[|nodes| - 1]].withHead
  }

  function PlainReach(caps: seq<Capacity>, nodes: seq<nat>): int
    requires nodes != [] && forall k :: 0 <= k < |nodes| ==> nodes[k] < |caps|
  {
    if |nodes| == 1 then caps[nodes[0]].withEmbed
    else PlainReach(caps, nodes[..|nodes| - 1]) + caps[nodes[|nodes| - 1]].plain
  }

  lemma {:induction false} MissingAtLeast(p: Problem, nodes: seq<nat>)
    requires ValidProblem(p)
    requires nodes != [] && forall k :: 0 <= k < |nodes| ==> nodes[k] < |p.caps|
    ensures Missing(p, nodes) >= p.layers - PlainReach(p.caps, nodes)
  {
    if |nodes| > 1 {
      MissingAtLeast(p, nodes[..|nodes| - 1]);
    }
  }

  /**
   * A full pipeline can host all layers when it has two stages or more. A lone node is charged the
   * embedding only, so it can exactly when it also has room for the LM head.
   */
  lemma FullReaches(p: Problem, nodes: seq<nat>)
    requires ValidProblem(p) && Full(p, nodes)
    ensures Reach(p.caps, nodes) >= p.layers <==> |nodes| > 1 || p.caps[nodes[0]].withBoth >= p.layers
  {
    if |nodes| > 1 {
      MissingAtLeast(p, nodes[..|nodes| - 1]);
    }
  }

  /** What the stages are charged: the head its room beside the embedding, a stage whose plain capacity would close its room beside the LM head. */
  ghost predicate Rooms(p: Problem, nodes: seq<nat>, rooms: seq<int>)
    requires nodes != [] && forall k :: 0 <= k < |nodes| ==> nodes[k] < |p.caps|
  {
    && |rooms| == |nodes| && rooms[0] == p.caps[nodes[0]].withEmbed
    && forall k :: 0 < k < |nodes| ==>
         var c := p.caps[nodes[k]];
         rooms[k] == if c.plain < p.layers - Sum(rooms[..k]) then c.plain else c.withHead
  }

  lemma {:induction false} MissingByRooms(p: Problem, nodes: seq<nat>, rooms: seq<int>, k: nat)
    requires nodes != [] && forall k :: 0 <= k < |nodes| ==> nodes[k] < |p.caps|
    requires Rooms(p, nodes, rooms) && 0 < k <= |nodes|
    ensures Missing(p, nodes[..k]) == p.layers - Sum(rooms[..k])
    decreases k
  {
    hide Sum;
    SumStep(rooms, k - 1);
    SumNone(rooms);
    assert nodes[..k][..k - 1] == nodes[..k - 1];
    if k > 1 {
      MissingByRooms(p, nodes, rooms, k - 1);
    }
  }

  /** Stages in order whose rooms add up to all layers, and without the last one do not. */
  ghost predicate JustEnough(p: Problem, nodes: seq<nat>, rooms: seq<int>) {
    && (forall k :: 0 < k < |nodes| ==> nodes[k - 1] < nodes[k])
    && Sum(rooms) >= p.layers && forall k :: 0 < k < |nodes| && k <= |rooms| ==> Sum(rooms[..k]) < p.layers
  }

  lemma FullWithRooms(p: Problem, nodes: seq<nat>, rooms: seq<int>)
    requires nodes != [] && forall k :: 0 <= k < |nodes| ==> nodes[k] < |p.caps|
    requires Rooms(p, nodes, rooms)
    ensures Full(p, nodes) <==> JustEnough(p, nodes, rooms)
  {
    hide Sum, Missing, Rooms;
    RoomCount(p, nodes, rooms);
    assert nodes[..|nodes|] == nodes && rooms[..|nodes|] == rooms;
    forall k | 0 < k <= |nodes|
      ensures Missing(p, nodes[..k]) == p.layers - Sum(rooms[..k])
    {
      MissingByRooms(p, nodes, rooms, k);
    }
  }

  /** A pipeline is full when the rooms of its stages add up to all layers, and without the last one they do not. */
  lemma FullByRooms(p: Problem, nodes: seq<nat>)
    requires nodes != [] && forall k :: 0 <= k < |nodes| ==> nodes[k] < |p.caps|
    ensures Full(p, nodes) <==> exists rooms :: Rooms(p, nodes, rooms) && JustEnough(p, nodes, rooms)
  {
    hide Full, Rooms, JustEnough;
    var rooms := RoomsOf(p, nodes);
    FullWithRooms(p, nodes, rooms);
    forall other | Rooms(p, nodes, other)
      ensures Full(p, nodes) <==> JustEnough(p, nodes, other)
    {
      FullWithRooms(p, nodes, other);
    }
  }

  lemma RoomCount(p: Problem, nodes: seq<nat>, rooms: seq<int>)
    requires nodes != [] && forall k :: 0 <= k < |nodes| ==> nodes[k] < |p.caps|
    requires Rooms(p, nodes, rooms)
    ensures |rooms| == |nodes|
  {
  }

  /** The rooms of a pipeline, stage by stage. */
  lemma {:induction false} RoomsOf(p: Problem, nodes: seq<nat>) returns (rooms: seq<int>)
    requires nodes != [] && forall k :: 0 <= k < |nodes| ==> nodes[k] < |p.caps|
    ensures Rooms(p, nodes, rooms)
    decreases |nodes|
  {
    hide Sum;
    var init, c := nodes[..|nodes| - 1], p.caps[nodes[|nodes| - 1]];
    if init == [] {
      rooms := [c.withEmbed];
    } else {
      var before := RoomsOf(p, init);
      rooms := before + [if c.plain < p.layers - Sum(before) then c.plain else c.withHead];
      assert rooms[..|init|] == before;
      assert forall k :: 0 < k < |init| ==> rooms[..k] == before[..k];
    }
  }

  lemma {:induction false} StagesPerPipeline(p: Problem, i: nat, st: Plan, moves: seq<Move>)
    requires Closes(p, i, st, moves)
    ensures st.finished + Used(moves) >= p.target
    decreases |moves|
  {
    if moves != [] {
      StagesPerPipeline(p, i + 1, Apply(p.caps[i], p.layers, st, moves[0]), moves[1..]);
    }
  }

  /** `k` squared over the number of stages. */
  function Score(k: nat, stages: nat): real
    requires stages > 0
  {
    (k * k) as real / stages as real
  }

  /** Comparing scores is comparing `k` squared times the other's stages. */
  lemma ScoreOrder(k: nat, stages: nat, k': nat, stages': nat)
    requires stages > 0 && stages' > 0
    ensures Score(k', stages') <= Score(k, stages) <==> k' * k' * stages <= k * k * stages'
  {
    var a, b, m, n := (k * k) as real, (k' * k') as real, stages as real, stages' as real;
    assert a / m * m == a && b / n * n == b;
    RatioOrder(b / n, a / m, m * n);
    assert b / n * (m * n) == b * m && a / m * (m * n) == a * n;
    assert (k' * k' * stages) as real == b * m && (k * k * stages') as real == a * n;
  }

  lemma RatioOrder(x: real, y: real, z: real)
    requires z > 0.0
    ensures x <= y <==> x * z <= y * z
  {
  }

  /** `stages` is the least total for `k` pipelines, and positive. */
  ghost predicate Least(caps: seq<Capacity>, layers: int, k: nat, stages: nat) {
    stages > 0 && LeastStages(Problem(caps, layers, k), stages)
  }

  /** What the search for one target found. */
  lemma FoundLeast(p: Problem)
    requires ValidProblem(p) && p.target > 0
    ensures Solve(p, Initial).cost.Fin? ==> Least(p.caps, p.layers, p.target, Solve(p, Initial).cost.n)
    ensures forall n :: Least(p.caps, p.layers, p.target, n) ==> Solve(p, Initial).cost == Fin(n)
  {
    hide Solve;
    SolveIsExact(p);
    if Solve(p, Initial).cost.Fin? {
      var moves :| Closes(p, 0, NoPlan, moves) && Used(moves) == Solve(p, Initial).cost.n;
      StagesPerPipeline(p, 0, NoPlan, moves);
    }
    forall n | Least(p.caps, p.layers, p.target, n)
      ensures Solve(p, Initial).cost == Fin(n)
    {
      var moves :| Closes(p, 0, NoPlan, moves) && Used(moves) == n;
      var m := Solve(p, Initial).cost.n;
      var other :| Closes(p, 0, NoPlan, other) && Used(other) == m;
    }
  }

  /** A lone node with room for the embedding or the LM head, but not both, counts as a full pipeline. */
  lemma LoneNodeShort()
    ensures var p := Problem([Capacity(11, 10, 10, 9)], 10, 1);
            ValidProblem(p) && Full(p, [0]) && Reach(p.caps, [0]) < p.layers
            && Solve(p, Initial).cost == Fin(1)
  {
    hide Solve;
    var p := Problem([Capacity(11, 10, 10, 9)], 10, 1);
    assert Missing(p, [0]) == 0;
    var moves := [Begin];
    assert moves[1..] == [];
    assert Closes(p, 1, Plan([Closed], 1), []);
    assert Closes(p, 0, NoPlan, moves) && Used(moves) == 1;
    assert LeastStages(p, 1) by {
      forall other | Closes(p, 0, NoPlan, other)
        ensures Used(other) >= 1
      {
        StagesPerPipeline(p, 0, NoPlan, other);
      }
    }
    FoundLeast(p);
    assert Least(p.caps, p.layers, 1, 1);
  }

  /** Beyond the bound tried by the search no target is feasible. */
  lemma NoneBeyond(caps: seq<Capacity>, layers: int, k: nat, n: nat)
    requires ValidProblem(Problem(caps, layers, k)) && Least(caps, layers, k, n)
    ensures k <= |caps| && k <= SuffixCap(caps, 0) / layers && SuffixCap(caps, 0) >= k * layers
  {
    FeasibleIsBounded(Problem(caps, layers, k));
  }

  /** The tables of a finished search can be replayed. */
  lemma SearchReplayable(search: Search)
    requires search.Valid() && Initial in search.memo
    ensures Replayable(search.p, search.path)
  {
    hide Solve, SuffixCap;
  }

  /** `k` with its least total is at least as good as every target up to `bound`, and better than every smaller one. */
  ghost predicate BestUpTo(caps: seq<Capacity>, layers: int, k: nat, stages: nat, bound: nat) {
    && 0 < k <= bound
    && Least(caps, layers, k, stages)
    && forall k', n :: 0 < k' <= bound && Least(caps, layers, k', n) ==>
         Score(k', n) <= Score(k, stages) && (k' < k ==> Score(k', n) < Score(k, stages))
  }

  ghost predicate NoneUpTo(caps: seq<Capacity>, layers: int, bound: nat) {
    forall k', n :: 0 < k' <= bound ==> !Least(caps, layers, k', n)
  }

  /** Tries every target and rebuilds the pipelines of the best one. */
  method Allocate(caps: seq<Capacity>, layers: int) returns (outcome: Choice)
    requires forall i :: 0 <= i < |caps| ==> 0 <= caps[i].plain && caps[i].withEmbed <= caps[i].plain && caps[i].withHead <= caps[i].plain
    ensures layers <= 0 ==> outcome.NoPipeline?
    ensures layers > 0 && outcome.NoPipeline? ==> forall k: nat, n: nat | k > 0 :: !Least(caps, layers, k, n)
    ensures outcome.Pipelines? ==>
              && layers > 0 && outcome.target > 0
              && DisjointFull(Problem(caps, layers, outcome.target), outcome.nodes)
              && Least(caps, layers, outcome.target, StageCount(outcome.nodes))
              && forall k: nat, n: nat | k > 0 && Least(caps, layers, k, n) ::
                   && k * k * StageCount(outcome.nodes) <= outcome.target * outcome.target * n
                   && (k < outcome.target ==> k * k * StageCount(outcome.nodes) < outcome.target * outcome.target * n)
  {
    hide Solve, SuffixCap, DisjointFull, Least, Score, Replayable, StageCount;
    var sums := SuffixSums(caps);
    if layers <= 0 || |caps| == 0 || sums[0] < layers {
      if layers > 0 {
        TooSmall(caps, layers);
      }
      return NoPipeline;
    }
    var bound := Minimum(|caps|, sums[0] / layers);
    var bestTarget, bestStages := 0, 0;
    var bestPath: map<State, Action> := map[];
    var target := 1;
    while target <= bound
      invariant 1 <= target <= bound + 1
      invariant bestTarget == 0 ==> NoneUpTo(caps, layers, target - 1)
      invariant bestTarget > 0 ==> BestUpTo(caps, layers, bestTarget, bestStages, target - 1) && bestStages > 0
      invariant bestTarget > 0 ==> Replayable(Problem(caps, layers, bestTarget), bestPath)
      invariant bestTarget > 0 ==> Solve(Problem(caps, layers, bestTarget), Initial).cost == Fin(bestStages)
    {
      var p := Problem(caps, layers, target);
      var search := new Search(p, sums);
      var cost := search.Dp(Initial);
      FoundLeast(p);
      LeastPositive(caps, layers, target);
      if cost.Fin? && (bestTarget == 0 || Score(target, cost.n) > Score(bestTarget, bestStages)) {
        bestTarget, bestStages, bestPath := target, cost.n, search.path;
        SearchReplayable(search);
      }
      target := target + 1;
    }
    BoundIsEnough(caps, layers, bound);
    if bestTarget == 0 {
      return NoPipeline;
    }
    var nodes := Backtrack(Problem(caps, layers, bestTarget), bestPath);
    outcome := Pipelines(bestTarget, nodes);
    forall k: nat, n: nat | k > 0 && Least(caps, layers, k, n)
      ensures k * k * StageCount(nodes) <= bestTarget * bestTarget * n
      ensures k < bestTarget ==> k * k * StageCount(nodes) < bestTarget * bestTarget * n
    {
      LeastPositive(caps, layers, k);
      ScoreOrder(bestTarget, bestStages, k, n);
      ScoreOrder(k, n, bestTarget, bestStages);
    }
  }

  function Minimum(a: int, b: int): int {
    if a < b then a else b
  }

  lemma LeastPositive(caps: seq<Capacity>, layers: int, k: nat)
    ensures forall n :: Least(caps, layers, k, n) ==> n > 0
  {
  }

  lemma TooSmall(caps: seq<Capacity>, layers: int)
    requires ValidProblem(Problem(caps, layers, 1))
    requires |caps| == 0 || SuffixCap(caps, 0) < layers
    ensures forall k: nat, n: nat | k > 0 :: !Least(caps, layers, k, n)
  {
    forall k: nat, n: nat | k > 0
      ensures !Least(caps, layers, k, n)
    {
      if Least(caps, layers, k, n) {
        NoneBeyond(caps, layers, k, n);
        MulOrder(1, k, layers);
        assert false;
      }
    }
  }

  lemma BoundIsEnough(caps: seq<Capacity>, layers: int, bound: int)
    requires ValidProblem(Problem(caps, layers, 1))
    requires bound == Minimum(|caps|, SuffixCap(caps, 0) / layers)
    ensures forall k: nat, n: nat | Least(caps, layers, k, n) :: k <= bound
  {
    forall k: nat, n: nat | Least(caps, layers, k, n)
      ensures k <= bound
    {
      NoneBeyond(caps, layers, k, n);
    }
  }
}
