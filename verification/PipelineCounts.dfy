/** Counting pipelines in one pass over the sorted ranges, and why the search finds as many. */
module PipelineCounts {
  import opened Hosts
  import opened PipelineDiscovery
  import opened Sequences

  datatype Count = Counted(n: nat) | InvalidRange(node: nat)

  /** An active node with layers, and ready when only ready nodes count. */
  predicate Considered(nodes: seq<Host>, readyOnly: bool, i: nat) {
    Ranged(nodes, i) && (readyOnly ==> nodes[i].ready)
  }

  predicate RangeFits(nodes: seq<Host>, layers: int, i: nat) {
    Ranged(nodes, i) && 0 <= nodes[i].range.start < nodes[i].range.end <= layers
  }

  ghost predicate Within(p: seq<nat>, used: seq<nat>) {
    forall k :: 0 <= k < |p| ==> p[k] in used
  }

  /** The list holds exactly the chains of used nodes from layer 0 to `pos`, each once. */
  ghost predicate WaysTo(nodes: seq<Host>, used: seq<nat>, pos: int, list: seq<seq<nat>>) {
    NoRepeats(list) && forall p :: p in list <==> Joins(nodes, p, 0, pos) && Within(p, used)
  }

  ghost function At(lists: map<int, seq<seq<nat>>>, pos: int): seq<seq<nat>> {
    if pos in lists then lists[pos] else []
  }

  /** How many ways lead to each boundary, with the ways themselves. */
  ghost predicate Tallied(nodes: seq<Host>, used: seq<nat>, ways: map<int, nat>, lists: map<int, seq<seq<nat>>>) {
    && ways.Keys == lists.Keys
    && (forall pos :: pos in ways ==> ways[pos] == |lists[pos]|)
    && (forall pos :: WaysTo(nodes, used, pos, At(lists, pos)))
  }

  /** A node that starts last of all can only end a chain. */
  lemma OnlyLast(nodes: seq<Host>, used: seq<nat>, i: nat, p: seq<nat>, pos: int)
    requires Ranged(nodes, i) && nodes[i].range.start < nodes[i].range.end
    requires forall x: nat :: x in used ==> Ranged(nodes, x) && nodes[x].range.start <= nodes[i].range.start
    requires p != [] && Joins(nodes, p, 0, pos) && Within(p, used + [i])
    ensures Within(p[..|p| - 1], used)
  {
    forall k | 0 <= k < |p| - 1
      ensures p[k] in used
    {
      assert nodes[p[k + 1 - 1]].range.end == nodes[p[k + 1]].range.start;
      assert p[k + 1] in used + [i];
    }
  }

  ghost function Extended(starts: seq<seq<nat>>, i: nat): (r: seq<seq<nat>>)
    ensures |r| == |starts| && forall k :: 0 <= k < |r| ==> r[k] == starts[k] + [i]
  {
    seq(|starts|, k requires 0 <= k < |starts| => starts[k] + [i])
  }

  /** The ways that pass through a node that starts last of all. */
  lemma ExtendedWays(nodes: seq<Host>, used: seq<nat>, i: nat, starts: seq<seq<nat>>, p: seq<nat>)
    requires Ranged(nodes, i) && nodes[i].range.start < nodes[i].range.end
    requires forall x: nat :: x in used ==> Ranged(nodes, x) && nodes[x].range.start <= nodes[i].range.start
    requires WaysTo(nodes, used, nodes[i].range.start, starts)
    ensures p in Extended(starts, i) <==>
            p != [] && p[|p| - 1] == i && Joins(nodes, p, 0, nodes[i].range.end) && Within(p, used + [i])
  {
    var more := Extended(starts, i);
    if p in more {
      var k :| 0 <= k < |more| && more[k] == p;
      assert starts[k] in starts;
      JoinsSnoc(nodes, starts[k], i, 0, nodes[i].range.end);
    }
    if p != [] && p[|p| - 1] == i && Joins(nodes, p, 0, nodes[i].range.end) && Within(p, used + [i]) {
      var q := p[..|p| - 1];
      assert p == q + [i];
      JoinsSnoc(nodes, q, i, 0, nodes[i].range.end);
      OnlyLast(nodes, used, i, p, nodes[i].range.end);
      assert q in starts;
      var k :| 0 <= k < |starts| && starts[k] == q;
      assert more[k] == p;
    }
  }

  lemma ExtendedOnce(starts: seq<seq<nat>>, i: nat)
    requires NoRepeats(starts)
    ensures NoRepeats(Extended(starts, i))
  {
    var more := Extended(starts, i);
    forall a, b | 0 <= a < b < |more|
      ensures more[a] != more[b]
    {
      assert more[a][..|more[a]| - 1] == starts[a] && more[b][..|more[b]| - 1] == starts[b];
    }
  }

  /** What one more range adds to the boundary where it ends. */
  lemma WaysThrough(nodes: seq<Host>, used: seq<nat>, i: nat, starts: seq<seq<nat>>, ends: seq<seq<nat>>)
    requires Ranged(nodes, i) && nodes[i].range.start < nodes[i].range.end && i !in used
    requires forall x: nat :: x in used ==> Ranged(nodes, x) && nodes[x].range.start <= nodes[i].range.start
    requires WaysTo(nodes, used, nodes[i].range.start, starts) && WaysTo(nodes, used, nodes[i].range.end, ends)
    ensures WaysTo(nodes, used + [i], nodes[i].range.end, ends + Extended(starts, i))
  {
    var more, to := Extended(starts, i), nodes[i].range.end;
    forall p
      ensures p in more <==> p != [] && p[|p| - 1] == i && Joins(nodes, p, 0, to) && Within(p, used + [i])
      ensures p in ends + more <==> Joins(nodes, p, 0, to) && Within(p, used + [i])
    {
      ExtendedWays(nodes, used, i, starts, p);
      if p != [] && Joins(nodes, p, 0, to) && Within(p, used + [i]) {
        OnlyLast(nodes, used, i, p, to);
        assert p[|p| - 1] in used + [i];
        assert p[|p| - 1] != i ==> Within(p, used);
      }
    }
    ExtendedOnce(starts, i);
    forall p | p in ends
      ensures p !in more
    {
      assert Within(p, used);
    }
    hide Joins, Within, Extended;
    DisjointOnce(ends, more);
  }

  lemma DisjointOnce<T>(s: seq<T>, t: seq<T>)
    requires NoRepeats(s) && NoRepeats(t) && forall x :: x in s ==> x !in t
    ensures NoRepeats(s + t)
  {
    var all := s + t;
    forall a, b | 0 <= a < b < |all|
      ensures all[a] != all[b]
    {
      if a < |s| <= b {
        assert all[a] in s && all[b] in t;
      }
    }
  }

  /** Elsewhere one more range changes nothing. */
  lemma WaysElsewhere(nodes: seq<Host>, used: seq<nat>, i: nat, pos: int, list: seq<seq<nat>>)
    requires Ranged(nodes, i) && nodes[i].range.start < nodes[i].range.end != pos
    requires forall x: nat :: x in used ==> Ranged(nodes, x) && nodes[x].range.start <= nodes[i].range.start
    requires WaysTo(nodes, used, pos, list)
    ensures WaysTo(nodes, used + [i], pos, list)
  {
    forall p
      ensures p in list <==> Joins(nodes, p, 0, pos) && Within(p, used + [i])
    {
      if p != [] && Joins(nodes, p, 0, pos) && Within(p, used + [i]) {
        OnlyLast(nodes, used, i, p, pos);
        assert p[|p| - 1] in used + [i];
      }
    }
  }

  /** The tally after the range of one more node. */
  method Tally(nodes: seq<Host>, ghost used: seq<nat>, i: nat, ways0: map<int, nat>, ghost lists0: map<int, seq<seq<nat>>>)
    returns (ways: map<int, nat>, ghost lists: map<int, seq<seq<nat>>>)
    requires Ranged(nodes, i) && nodes[i].range.start < nodes[i].range.end && i !in used
    requires forall x: nat :: x in used ==> Ranged(nodes, x) && nodes[x].range.start <= nodes[i].range.start
    requires Tallied(nodes, used, ways0, lists0)
    ensures Tallied(nodes, used + [i], ways, lists)
  {
    var s, e := nodes[i].range.start, nodes[i].range.end;
    var w := if s in ways0 then ways0[s] else 0;
    ghost var through := Extended(At(lists0, s), i);
    WaysThrough(nodes, used, i, At(lists0, s), At(lists0, e));
    forall pos | pos != e
      ensures WaysTo(nodes, used + [i], pos, At(lists0, pos))
    {
      WaysElsewhere(nodes, used, i, pos, At(lists0, pos));
    }
    hide WaysTo;
    ways, lists := ways0, lists0;
    if w != 0 {
      ways := ways0[e := (if e in ways0 then ways0[e] else 0) + w];
      lists := lists0[e := At(lists0, e) + through];
    }
    assert w == |At(lists0, s)| == |through|;
    assert At(lists, e) == At(lists0, e) + through;
    forall pos
      ensures WaysTo(nodes, used + [i], pos, At(lists, pos))
    {
      assert pos != e ==> At(lists, pos) == At(lists0, pos);
    }
  }

  /** A full chain, of ready nodes only if those are asked for. */
  ghost predicate Chosen(nodes: seq<Host>, layers: int, readyOnly: bool, p: seq<nat>) {
    FullChain(nodes, layers, p) && forall k :: 0 <= k < |p| ==> p[k] < |nodes| && (readyOnly ==> nodes[p[k]].ready)
  }

  /** A node that counts has an empty range, or one outside the model. */
  ghost predicate Misplaced(nodes: seq<Host>, layers: int, readyOnly: bool, i: nat) {
    && i < |nodes| && nodes[i].range.Layers? && (readyOnly ==> nodes[i].ready)
    && !(0 <= nodes[i].range.start < nodes[i].range.end <= layers)
  }

  /** The list holds exactly the full chains of considered nodes, each once. */
  ghost predicate Exact(nodes: seq<Host>, layers: int, readyOnly: bool, list: seq<seq<nat>>) {
    NoRepeats(list) && forall p :: p in list <==> Chosen(nodes, layers, readyOnly, p)
  }

  /** The considered nodes, in registry order, or the first of them whose range is out of bounds. */
  method ListAllocations(nodes: seq<Host>, layers: int, readyOnly: bool) returns (segments: seq<nat>, invalid: Count)
    requires layers > 0
    ensures invalid.InvalidRange? ==>
              var i := invalid.node;
              && Considered(nodes, readyOnly, i) && !RangeFits(nodes, layers, i)
              && forall x: nat :: x < i && Considered(nodes, readyOnly, x) ==> RangeFits(nodes, layers, x)
    ensures invalid.Counted? ==>
              && (forall i: nat :: i in segments <==> Considered(nodes, readyOnly, i))
              && (forall i: nat :: i in segments ==> RangeFits(nodes, layers, i))
              && (forall a, b :: 0 <= a < b < |segments| ==> segments[a] < segments[b])
  {
    segments, invalid := [], Counted(0);
    for i := 0 to |nodes|
      invariant forall x: nat :: x in segments <==> x < i && Considered(nodes, readyOnly, x)
      invariant forall x: nat :: x in segments ==> x < i && RangeFits(nodes, layers, x)
      invariant forall a, b :: 0 <= a < b < |segments| ==> segments[a] < segments[b]
    {
      if Considered(nodes, readyOnly, i) {
        if !RangeFits(nodes, layers, i) {
          forall x: nat | x < i && Considered(nodes, readyOnly, x)
            ensures RangeFits(nodes, layers, x)
          {
            assert x in segments;
          }
          return segments, InvalidRange(i);
        }
        forall k | 0 <= k < |segments|
          ensures segments[k] < i
        {
          assert segments[k] in segments;
        }
        segments := segments + [i];
      }
    }
  }

  /** The number of full chains of considered nodes; an out-of-bounds range is an error. */
  method NumFullPipelines(nodes: seq<Host>, layers: int, readyOnly: bool) returns (count: Count, ghost list: seq<seq<nat>>)
    ensures layers <= 0 ==> count == Counted(0)
    ensures layers > 0 ==> (count.InvalidRange? <==>
                            exists i: nat :: Misplaced(nodes, layers, readyOnly, i))
    ensures layers > 0 && count.Counted? ==> Exact(nodes, layers, readyOnly, list) && count.n == |list|
  {
    list := [];
    if layers <= 0 {
      return Counted(0), list;
    }
    var segments, invalid := ListAllocations(nodes, layers, readyOnly);
    if invalid.InvalidRange? {
      assert Misplaced(nodes, layers, readyOnly, invalid.node);
      return invalid, list;
    }
    forall i: nat
      ensures Misplaced(nodes, layers, readyOnly, i) <==> Considered(nodes, readyOnly, i) && !RangeFits(nodes, layers, i)
    {
    }
    forall k | 0 <= k < |segments|
      ensures RangeFits(nodes, layers, segments[k])
    {
      assert segments[k] in segments;
    }
    var order := SortByRange(nodes, segments);
    var ways: map<int, nat> := map[0 := 1];
    ghost var lists: map<int, seq<seq<nat>>> := map[0 := [[]]];
    NoNodesUsed(nodes);
    for k := 0 to |order|
      invariant Tallied(nodes, order[..k], ways, lists)
    {
      assert order[k] in order && order[..k] + [order[k]] == order[..k + 1];
      ways, lists := Tally(nodes, order[..k], order[k], ways, lists);
    }
    assert order[..|order|] == order;
    list := At(lists, layers);
    ChainsAreWays(nodes, layers, readyOnly, order, list);
    count := Counted(if layers in ways then ways[layers] else 0);
  }

  /** With no nodes used only layer 0 is reached, in one way. */
  lemma NoNodesUsed(nodes: seq<Host>)
    ensures Tallied(nodes, [], map[0 := 1], map[0 := [[]]])
  {
    var lists: map<int, seq<seq<nat>>> := map[0 := [[]]];
    forall pos
      ensures WaysTo(nodes, [], pos, At(lists, pos))
    {
      forall p
        ensures p in At(lists, pos) <==> Joins(nodes, p, 0, pos) && Within(p, [])
      {
        assert p != [] ==> !Within(p, []) by {
          if p != [] {
            assert p[0] !in [];
          }
        }
      }
    }
  }

  /** The ways to the last layer are the full chains. */
  lemma ChainsAreWays(nodes: seq<Host>, layers: int, readyOnly: bool, order: seq<nat>, list: seq<seq<nat>>)
    requires layers > 0 && WaysTo(nodes, order, layers, list)
    requires forall i: nat :: i in order <==> Considered(nodes, readyOnly, i)
    requires forall i: nat :: i in order ==> RangeFits(nodes, layers, i)
    ensures Exact(nodes, layers, readyOnly, list)
  {
    forall p
      ensures p in list <==> Chosen(nodes, layers, readyOnly, p)
    {
      if p != [] {
        assert p == [p[0]] + p[1..];
        JoinsCons(nodes, p[0], p[1..], 0, layers);
        ChosenConsidered(nodes, layers, readyOnly, p);
        if Chosen(nodes, layers, readyOnly, p) {
          assert Considered(nodes, readyOnly, p[0]);
        }
      }
    }
  }

  lemma ChosenConsidered(nodes: seq<Host>, layers: int, readyOnly: bool, p: seq<nat>)
    ensures Chosen(nodes, layers, readyOnly, p) <==> FullChain(nodes, layers, p) && forall k :: 0 <= k < |p| ==> Considered(nodes, readyOnly, p[k])
  {
    if FullChain(nodes, layers, p) {
      forall k | 0 <= k < |p|
        ensures Ranged(nodes, p[k])
      {
        assert k > 0 ==> p[k] == p[1..][k - 1];
      }
    }
  }

  lemma {:induction false} AsLongAsItsSet<T>(s: seq<T>)
    requires NoRepeats(s)
    ensures |set x | x in s| == |s|
  {
    if s != [] {
      AsLongAsItsSet(s[1..]);
      assert (set x | x in s) == (set x | x in s[1..]) + {s[0]};
    }
  }

  /** The one-pass count is the number of pipelines the search finds. */
  lemma CountIsDiscovered(nodes: seq<Host>, layers: int, list: seq<seq<nat>>, pipelines: seq<seq<nat>>)
    requires Exact(nodes, layers, false, list)
    requires NoRepeats(pipelines) && forall p :: p in pipelines <==> FullChain(nodes, layers, p)
    ensures |list| == |pipelines|
  {
    forall p
      ensures p in list <==> p in pipelines
    {
      if FullChain(nodes, layers, p) {
        forall k | 0 <= k < |p|
          ensures Considered(nodes, false, p[k])
        {
          assert k > 0 ==> p[k] == p[1..][k - 1];
        }
      }
    }
    AsLongAsItsSet(list);
    AsLongAsItsSet(pipelines);
    assert (set x | x in list) == (set x | x in pipelines);
  }

  /** Some pipeline exists exactly when the count is positive. */
  method HasFullPipeline(nodes: seq<Host>, layers: int, readyOnly: bool) returns (has: bool, invalid: bool)
    ensures layers > 0 ==> (invalid <==> exists i: nat :: Misplaced(nodes, layers, readyOnly, i))
    ensures layers > 0 && !invalid ==> (has <==> exists p :: Chosen(nodes, layers, readyOnly, p))
    ensures layers <= 0 ==> !has && !invalid
  {
    var count, list := NumFullPipelines(nodes, layers, readyOnly);
    invalid := count.InvalidRange?;
    has := count.Counted? && count.n > 0;
    if has && layers > 0 {
      assert list[0] in list;
    }
  }
}
