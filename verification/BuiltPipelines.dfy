/** Filling the pipelines the dynamic program builds: the filler sorts the stages again, and may then refuse them. */
module BuiltPipelines {
  import opened SortedLists
  import opened PipelinePlans
  import opened PipelineReplay
  import opened PipelineAllocation
  import opened PipelineFilling
  import opened Workers

  /** The workers of a built pipeline, in the order it was built. */
  ghost predicate StagesOf(p: Problem, nodes: seq<nat>, workers: seq<Worker>) {
    && |workers| == |nodes|
    && forall k :: 0 <= k < |nodes| ==> nodes[k] < |p.caps| && workers[k].capacity == p.caps[nodes[k]]
  }

  lemma {:induction false} CapsReach(p: Problem, nodes: seq<nat>, workers: seq<Worker>, n: nat)
    requires StagesOf(p, nodes, workers) && 1 <= n < |nodes|
    ensures Sum(CapsOf(workers, n)) == PlainReach(p.caps, nodes[..n])
    decreases n
  {
    hide Sum;
    SumAppend(CapsOf(workers, n - 1), CapAt(workers, n - 1));
    if n > 1 {
      CapsReach(p, nodes, workers, n - 1);
      assert nodes[..n][..n - 1] == nodes[..n - 1];
    } else {
      SumEmpty();
    }
  }

  lemma SumAppend(s: seq<int>, x: int)
    ensures Sum(s + [x]) == Sum(s) + x
  {
    SumConcat(s, [x]);
    assert [x][1..] == [];
  }

  lemma SumEmpty()
    ensures Sum([]) == 0
  {
  }

  /**
   * Built in descending order of plain capacity, a full pipeline keeps that order and its capacities
   * reach all layers. The filler then refuses it in one case only: a head that is followed by other
   * stages and has no room beside the embedding.
   */
  lemma DescendingPasses(p: Problem, nodes: seq<nat>, workers: seq<Worker>)
    requires ValidProblem(p) && Full(p, nodes) && StagesOf(p, nodes, workers) && Descending(workers)
    ensures ByCapacity(workers) == workers && Sum(CapsOf(workers, |workers|)) >= p.layers
    ensures AllRoom(workers) <==> |nodes| == 1 || p.caps[nodes[0]].withEmbed > 0
  {
    hide Sum, ByCapacity, AllRoom, CapAt;
    DescendingStays(workers);
    var n := |workers|;
    SumAppend(CapsOf(workers, n - 1), CapAt(workers, n - 1));
    LastHasRoom(p, nodes);
    RoomButHead(p, nodes, workers);
    if n == 1 {
      SumEmpty();
      LoneCap(workers);
    } else {
      CapsReach(p, nodes, workers, n - 1);
      FullReaches(p, nodes);
      TailCap(workers);
    }
  }

  lemma LoneCap(workers: seq<Worker>)
    requires |workers| == 1
    ensures CapAt(workers, 0) == workers[0].capacity.withEmbed
  {
  }

  lemma TailCap(workers: seq<Worker>)
    requires |workers| > 1
    ensures CapAt(workers, |workers| - 1) == workers[|workers| - 1].capacity.withHead
  {
  }

  /** The stage that closes a pipeline has room: for the embedding when alone, else for the LM head. */
  lemma LastHasRoom(p: Problem, nodes: seq<nat>)
    requires ValidProblem(p) && Full(p, nodes)
    ensures |nodes| == 1 ==> p.caps[nodes[0]].withEmbed > 0
    ensures |nodes| > 1 ==> p.caps[nodes[|nodes| - 1]].withHead > 0
  {
    if |nodes| > 1 {
      assert Missing(p, nodes[..|nodes| - 1]) > 0;
    }
  }

  lemma RoomButHead(p: Problem, nodes: seq<nat>, workers: seq<Worker>)
    requires ValidProblem(p) && StagesOf(p, nodes, workers) && Descending(workers) && nodes != []
    requires |nodes| == 1 ==> p.caps[nodes[0]].withEmbed > 0
    requires |nodes| > 1 ==> p.caps[nodes[|nodes| - 1]].withHead > 0
    ensures AllRoom(workers) <==> |nodes| == 1 || p.caps[nodes[0]].withEmbed > 0
  {
    var last := |nodes| - 1;
    assert CapAt(workers, 0) == p.caps[nodes[0]].withEmbed;
    forall i: nat | 0 < i < |workers|
      ensures CapAt(workers, i) > 0
    {
      assert i < last ==> workers[i].capacity.plain >= workers[last].capacity.plain;
      assert workers[last].capacity == p.caps[nodes[last]];
    }
  }

  /**
   * A pipeline built largest first that the filler refuses all the same, though it is the only one the
   * dynamic program can build: the head has no room beside the embedding, and the others suffice.
   */
  lemma HeadWithoutRoom(workers: seq<Worker>)
    requires |workers| == 3 && workers[0].capacity == Capacity(5, 0, 0, 0)
    requires workers[1].capacity == workers[2].capacity == Capacity(4, 2, 2, 1)
    ensures var p := Problem([Capacity(5, 0, 0, 0), Capacity(4, 2, 2, 1), Capacity(4, 2, 2, 1)], 6, 1);
            && ValidProblem(p) && StagesOf(p, [0, 1, 2], workers)
            && forall nodes :: Full(p, nodes) <==> nodes == [0, 1, 2]
    ensures var nodes := ByCapacity(workers);
            nodes == workers && Sum(CapsOf(nodes, |nodes|)) >= 6 && !AllRoom(nodes)
  {
    var p := Problem([Capacity(5, 0, 0, 0), Capacity(4, 2, 2, 1), Capacity(4, 2, 2, 1)], 6, 1);
    var nodes: seq<nat> := [0, 1, 2];
    assert nodes[..1] == [0] && nodes[..2] == [0, 1] && [0, 1][..1] == [0];
    assert Missing(p, [0]) == 6;
    assert Missing(p, [0, 1]) == 2;
    assert Missing(p, nodes) == 0;
    forall other | Full(p, other)
      ensures other == [0, 1, 2]
    {
      Reaching(p, other);
      IncreasingWithin(other, 3);
    }
    DescendingPasses(p, nodes, workers);
  }

  /** Whatever closes a pipeline on these nodes takes all three in order. */
  lemma OnlyAllThree(p: Problem, nodes: seq<nat>)
    requires p.caps == [Capacity(4, 4, 4, 3), Capacity(5, 4, 4, 4), Capacity(4, 4, 4, 3)] && p.layers == 13
    requires Full(p, nodes)
    ensures nodes == [0, 1, 2]
  {
    Reaching(p, nodes);
    IncreasingWithin(nodes, 3);
  }

  lemma Reaching(p: Problem, nodes: seq<nat>)
    requires ValidProblem(p) && Full(p, nodes)
    ensures |nodes| == 1 ==> p.caps[nodes[0]].withEmbed >= p.layers
    ensures |nodes| > 1 ==> PlainReach(p.caps, nodes[..|nodes| - 1]) + p.caps[nodes[|nodes| - 1]].withHead >= p.layers
  {
    if |nodes| > 1 {
      FullReaches(p, nodes);
    }
  }

  lemma {:induction false} IncreasingWithin(nodes: seq<nat>, bound: nat)
    requires forall k :: 0 <= k < |nodes| ==> nodes[k] < bound
    requires forall k :: 0 < k < |nodes| ==> nodes[k - 1] < nodes[k]
    ensures |nodes| <= bound
    ensures |nodes| == bound ==> forall k :: 0 <= k < bound ==> nodes[k] == k
  {
    if nodes != [] {
      var init, last := nodes[..|nodes| - 1], nodes[|nodes| - 1];
      assert forall k :: 0 <= k < |init| ==> init[k] == nodes[k];
      forall k | 0 <= k < |init|
        ensures init[k] < last
      {
        BelowLast(nodes, k);
      }
      IncreasingWithin(init, last);
    }
  }

  lemma {:induction false} BelowLast(nodes: seq<nat>, k: nat)
    requires k < |nodes| - 1 && forall j :: 0 < j < |nodes| ==> nodes[j - 1] < nodes[j]
    ensures nodes[k] < nodes[|nodes| - 1]
    decreases |nodes| - k
  {
    assert nodes[k] < nodes[k + 1];
    if k + 1 < |nodes| - 1 {
      BelowLast(nodes, k + 1);
    }
  }

  /**
   * A pipeline the filler refuses, though it is the only one the dynamic program can build: sorting
   * moves the embedding's charge to the node that minds it more.
   */
  lemma BuiltButRefused(workers: seq<Worker>)
    requires |workers| == 3 && workers[1].capacity == Capacity(5, 4, 4, 4)
    requires workers[0].capacity == workers[2].capacity == Capacity(4, 4, 4, 3)
    ensures var caps := [Capacity(4, 4, 4, 3), Capacity(5, 4, 4, 4), Capacity(4, 4, 4, 3)];
            var p := Problem(caps, 13, 1);
            && ValidProblem(p) && StagesOf(p, [0, 1, 2], workers)
            && forall nodes :: Full(p, nodes) <==> nodes == [0, 1, 2]
    ensures var nodes := ByCapacity(workers); AllRoom(nodes) && Sum(CapsOf(nodes, |nodes|)) < 13
  {
    var p := Problem([Capacity(4, 4, 4, 3), Capacity(5, 4, 4, 4), Capacity(4, 4, 4, 3)], 13, 1);
    AllThreeFull(p);
    forall nodes | Full(p, nodes)
      ensures nodes == [0, 1, 2]
    {
      OnlyAllThree(p, nodes);
    }
    LargestMoved(workers);
    var nodes := ByCapacity(workers);
    assert CapsOf(nodes, 3) == [4, 4, 4];
    SumOfThree([4, 4, 4]);
  }

  lemma AllThreeFull(p: Problem)
    requires p.caps == [Capacity(4, 4, 4, 3), Capacity(5, 4, 4, 4), Capacity(4, 4, 4, 3)] && p.layers == 13
    ensures Full(p, [0, 1, 2])
  {
    var nodes: seq<nat> := [0, 1, 2];
    assert nodes[..1] == [0] && nodes[..2] == [0, 1] && [0, 1][..1] == [0];
    assert Missing(p, [0]) == 9;
    assert Missing(p, [0, 1]) == 4;
    assert Missing(p, nodes) == 0;
  }

  lemma LargestMoved(workers: seq<Worker>)
    requires |workers| == 3 && workers[0].capacity.plain == workers[2].capacity.plain < workers[1].capacity.plain
    ensures ByCapacity(workers) == [workers[1], workers[0], workers[2]]
  {
    DescendingStays(workers[1..]);
    assert workers == [workers[0]] + workers[1..];
    assert workers[1..] == [workers[1]] + [workers[2]];
    assert [workers[1], workers[2]][1..] == [workers[2]];
    assert InsertByCapacity(workers[0], [workers[2]]) == [workers[0]] + [workers[2]];
    assert InsertByCapacity(workers[0], [workers[1], workers[2]]) == [workers[1]] + InsertByCapacity(workers[0], [workers[2]]);
  }
}
