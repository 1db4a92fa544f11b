/** Choosing node-disjoint pipelines for round-robin serving. */
module FixedPipelines {
  import opened Hosts
  import opened PipelineDiscovery
  import opened ShardRouting
  import opened Sequences

  datatype Candidate = Candidate(path: seq<nat>, cost: Cost)

  /** The candidates that share a head, in the order they were found. */
  datatype Group = Group(head: nat, members: seq<Candidate>)

  datatype Selection = Selected(pipelines: seq<seq<nat>>) | Overlap

  predicate InRange(nodes: seq<Host>, p: seq<nat>) {
    forall k :: 0 <= k < |p| ==> p[k] < |nodes|
  }

  /** A pipeline worth serving: no node twice, and a finite latency. */
  ghost predicate Routable(nodes: seq<Host>, p: seq<nat>) {
    p != [] && InRange(nodes, p) && NoRepeats(p) && CostOf(nodes, p).Fin?
  }

  ghost predicate Disjoint(p: seq<nat>, q: seq<nat>) {
    forall i :: i in p ==> i !in q
  }

  ghost predicate AllDisjoint(s: seq<seq<nat>>) {
    forall a, b :: 0 <= a < b < |s| ==> Disjoint(s[a], s[b])
  }

  /** The total of the latencies and hops along a pipeline, stopping at the first infinity. */
  method EstimateLatency(nodes: seq<Host>, p: seq<nat>) returns (total: Cost)
    requires InRange(nodes, p)
    ensures p != [] ==> total == CostOf(nodes, p)
    ensures p == [] ==> total == Fin(0.0)
  {
    total := Fin(0.0);
    for k := 0 to |p|
      invariant total.Fin?
      invariant k == 0 ==> total == Fin(0.0)
      invariant k > 0 ==> total == CostOf(nodes, p[..k])
    {
      ghost var was := total;
      var node := nodes[p[k]];
      assert p[..k + 1][..k] == p[..k];
      if node.latency.Inf? {
        InfiniteFrom(nodes, p, k + 1);
        return Inf;
      }
      total := total.Plus(node.latency);
      if k > 0 {
        var hop := Hop(nodes[p[k - 1]], node);
        if hop.Inf? {
          InfiniteFrom(nodes, p, k + 1);
          return Inf;
        }
        total := total.Plus(hop);
        assert total == was.Plus(hop).Plus(node.latency);
      }
    }
    assert p[..|p|] == p;
  }

  /** Once the latency is infinite it stays so. */
  lemma {:induction false} InfiniteFrom(nodes: seq<Host>, p: seq<nat>, k: nat)
    requires InRange(nodes, p) && 0 < k <= |p| && CostOf(nodes, p[..k]).Inf?
    ensures CostOf(nodes, p).Inf?
    decreases |p| - k
  {
    if k == |p| {
      assert p[..k] == p;
    } else {
      assert p[..k + 1][..k] == p[..k];
      InfiniteFrom(nodes, p, k + 1);
    }
  }

  /** Whether a pipeline visits a node twice. */
  method HasRepeat(p: seq<nat>) returns (repeat: bool)
    ensures repeat <==> !NoRepeats(p)
  {
    var seen: set<nat> := {};
    for k := 0 to |p|
      invariant seen == set x | x in p[..k]
      invariant NoRepeats(p[..k])
    {
      if p[k] in seen {
        assert p[k] in p[..k];
        var a :| 0 <= a < k && p[..k][a] == p[k];
        assert p[a] == p[k];
        return true;
      }
      assert p[..k + 1] == p[..k] + [p[k]];
      seen := seen + {p[k]};
    }
    assert p[..|p|] == p;
    return false;
  }

  /** A group's members are routable, have its head, and carry their own latency. */
  ghost predicate GroupOk(nodes: seq<Host>, g: Group) {
    && g.members != []
    && forall k :: 0 <= k < |g.members| ==>
         && Routable(nodes, g.members[k].path) && g.members[k].path[0] == g.head
         && g.members[k].cost == CostOf(nodes, g.members[k].path)
  }

  ghost predicate Holds(g: Group, p: seq<nat>) {
    exists k :: 0 <= k < |g.members| && g.members[k].path == p
  }

  ghost predicate InGroups(groups: seq<Group>, p: seq<nat>) {
    exists g :: 0 <= g < |groups| && Holds(groups[g], p)
  }

  ghost predicate Groups(nodes: seq<Host>, groups: seq<Group>) {
    && (forall g :: 0 <= g < |groups| ==> GroupOk(nodes, groups[g]))
    && (forall a, b :: 0 <= a < b < |groups| ==> groups[a].head != groups[b].head)
  }

  /** Adds a candidate to the group of its head, opening the group if need be. */
  method AddToGroup(nodes: seq<Host>, groups0: seq<Group>, p: seq<nat>, cost: Cost) returns (groups: seq<Group>)
    requires Groups(nodes, groups0) && Routable(nodes, p) && cost == CostOf(nodes, p)
    ensures Groups(nodes, groups)
    ensures forall q :: InGroups(groups, q) <==> q == p || InGroups(groups0, q)
  {
    var g := 0;
    while g < |groups0| && groups0[g].head != p[0]
      invariant g <= |groups0|
      invariant forall a :: 0 <= a < g ==> groups0[a].head != p[0]
    {
      g := g + 1;
    }
    if g < |groups0| {
      var old0 := groups0[g];
      var grown := old0.(members := old0.members + [Candidate(p, cost)]);
      groups := groups0[g := grown];
      Grown(old0, p, cost);
      forall q
        ensures InGroups(groups, q) <==> q == p || InGroups(groups0, q)
      {
        if InGroups(groups0, q) {
          var a :| 0 <= a < |groups0| && Holds(groups0[a], q);
          assert Holds(groups[a], q);
        }
        if InGroups(groups, q) {
          var a :| 0 <= a < |groups| && Holds(groups[a], q);
          assert a != g ==> Holds(groups0[a], q);
        }
        assert Holds(groups[g], p);
      }
    } else {
      var fresh0 := Group(p[0], [Candidate(p, cost)]);
      groups := groups0 + [fresh0];
      assert fresh0.members[0].path == p;
      forall q
        ensures InGroups(groups, q) <==> q == p || InGroups(groups0, q)
      {
        if InGroups(groups0, q) {
          var a :| 0 <= a < |groups0| && Holds(groups0[a], q);
          assert Holds(groups[a], q);
        }
        assert Holds(groups[|groups0|], p);
      }
    }
  }

  lemma Grown(g: Group, p: seq<nat>, cost: Cost)
    ensures forall q :: Holds(g.(members := g.members + [Candidate(p, cost)]), q) <==> q == p || Holds(g, q)
  {
    var grown := g.(members := g.members + [Candidate(p, cost)]);
    assert grown.members[|g.members|].path == p;
    forall q
      ensures Holds(grown, q) <==> q == p || Holds(g, q)
    {
      if Holds(g, q) {
        var k :| 0 <= k < |g.members| && g.members[k].path == q;
        assert grown.members[k].path == q;
      }
    }
  }

  /** Groups the routable pipelines by head. */
  method GroupByHead(nodes: seq<Host>, pipelines: seq<seq<nat>>) returns (groups: seq<Group>)
    requires forall p :: p in pipelines ==> InRange(nodes, p)
    ensures Groups(nodes, groups)
    ensures forall p :: InGroups(groups, p) <==> p in pipelines && Routable(nodes, p)
  {
    groups := [];
    for k := 0 to |pipelines|
      invariant Groups(nodes, groups)
      invariant forall p :: InGroups(groups, p) <==> p in pipelines[..k] && Routable(nodes, p)
    {
      var p := pipelines[k];
      assert pipelines[..k + 1] == pipelines[..k] + [p];
      var repeat := HasRepeat(p);
      if p != [] && !repeat {
        var cost := EstimateLatency(nodes, p);
        if cost.Fin? {
          groups := AddToGroup(nodes, groups, p, cost);
        }
      }
    }
    assert pipelines[..|pipelines|] == pipelines;
  }

  /** The least cost in a group. */
  function Best(members: seq<Candidate>): (c: Cost)
    requires members != []
    ensures exists k :: 0 <= k < |members| && members[k].cost == c
    ensures forall k :: 0 <= k < |members| ==> c.AtMost(members[k].cost)
  {
    if |members| == 1 then members[0].cost
    else
      var rest := Best(members[..|members| - 1]);
      var last := members[|members| - 1].cost;
      if last.Less(rest) then last else rest
  }

  ghost predicate Fastest(groups: seq<Group>) {
    && (forall g :: 0 <= g < |groups| ==> groups[g].members != [])
    && (forall a, b :: 0 <= a < b < |groups| ==> Best(groups[a].members).AtMost(Best(groups[b].members)))
  }

  /** The groups by their best cost; equal costs keep their order. */
  method SortGroups(nodes: seq<Host>, groups0: seq<Group>) returns (groups: seq<Group>)
    requires Groups(nodes, groups0)
    ensures Groups(nodes, groups) && Fastest(groups)
    ensures forall g :: g in groups <==> g in groups0
  {
    hide CostOf, GroupOk, Best;
    groups := [];
    for n := 0 to |groups0|
      invariant Groups(nodes, groups) && Fastest(groups)
      invariant forall g :: g in groups <==> g in groups0[..n]
    {
      var g, at := groups0[n], 0;
      Nonempty(nodes, g);
      while at < |groups| && Best(groups[at].members).AtMost(Best(g.members))
        invariant at <= |groups|
        invariant forall k :: 0 <= k < at ==> Best(groups[k].members).AtMost(Best(g.members))
      {
        at := at + 1;
      }
      FreshHead(nodes, groups0, n, groups);
      InsertGroup(nodes, groups, at, g);
      groups := groups[..at] + [g] + groups[at..];
      assert groups0[..n + 1] == groups0[..n] + [g];
    }
    assert groups0[..|groups0|] == groups0;
  }

  lemma FreshHead(nodes: seq<Host>, groups0: seq<Group>, n: nat, groups: seq<Group>)
    requires Groups(nodes, groups0) && n < |groups0|
    requires forall g :: g in groups <==> g in groups0[..n]
    ensures forall k :: 0 <= k < |groups| ==> groups[k].head != groups0[n].head
  {
    hide GroupOk;
    forall k | 0 <= k < |groups|
      ensures groups[k].head != groups0[n].head
    {
      assert groups[k] in groups0[..n];
    }
  }

  lemma InsertGroup(nodes: seq<Host>, s: seq<Group>, at: nat, g: Group)
    requires Groups(nodes, s) && Fastest(s) && GroupOk(nodes, g) && at <= |s|
    requires forall k :: 0 <= k < |s| ==> s[k].head != g.head
    requires forall k :: 0 <= k < at ==> Best(s[k].members).AtMost(Best(g.members))
    requires at < |s| ==> !Best(s[at].members).AtMost(Best(g.members))
    ensures Groups(nodes, s[..at] + [g] + s[at..]) && Fastest(s[..at] + [g] + s[at..])
    ensures forall x :: x in s[..at] + [g] + s[at..] <==> x == g || x in s
  {
    hide GroupOk, Best;
    var r := s[..at] + [g] + s[at..];
    assert s == s[..at] + s[at..];
    forall k | 0 <= k < |r|
      ensures GroupOk(nodes, r[k]) && r[k].members != []
    {
      assert k != at ==> r[k] == s[if k < at then k else k - 1];
      Nonempty(nodes, r[k]);
    }
    forall k | at <= k < |s|
      ensures Best(g.members).AtMost(Best(s[k].members))
    {
    }
    forall a, b | 0 <= a < b < |r|
      ensures r[a].head != r[b].head && Best(r[a].members).AtMost(Best(r[b].members))
    {
      assert a != at ==> r[a] == s[if a < at then a else a - 1];
      assert b != at ==> r[b] == s[if b < at then b else b - 1];
    }
  }

  lemma Nonempty(nodes: seq<Host>, g: Group)
    requires GroupOk(nodes, g)
    ensures g.members != []
  {
  }

  ghost predicate Free(p: seq<nat>, used: set<nat>) {
    forall i :: i in p ==> i !in used
  }

  /** The first cheapest member of a group that avoids the used nodes, if any. */
  method BestFree(nodes: seq<Host>, g: Group, used: set<nat>) returns (best: seq<nat>)
    requires GroupOk(nodes, g)
    ensures best != [] ==> Holds(g, best) && Free(best, used)
    ensures forall p :: Holds(g, p) && Free(p, used) ==> best != [] && CostOf(nodes, best).AtMost(CostOf(nodes, p))
  {
    best := [];
    var cost := Inf;
    for k := 0 to |g.members|
      invariant best == [] ==> cost == Inf
      invariant best != [] ==> Holds(g, best) && Free(best, used) && InRange(nodes, best) && cost == CostOf(nodes, best)
      invariant forall m :: 0 <= m < k && Free(g.members[m].path, used) ==> best != [] && cost.AtMost(g.members[m].cost)
    {
      var taken := exists i :: i in g.members[k].path && i in used;
      if !taken && g.members[k].cost.Less(cost) {
        best, cost := g.members[k].path, g.members[k].cost;
      }
    }
  }

  /** Each pick is the cheapest of its head that avoids the earlier picks. */
  ghost predicate Greedy(nodes: seq<Host>, pipelines: seq<seq<nat>>, picks: seq<seq<nat>>) {
    && (forall k :: 0 <= k < |picks| ==> picks[k] in pipelines && Routable(nodes, picks[k]))
    && (forall k, p :: 0 <= k < |picks| && p in pipelines && Routable(nodes, p) && p[0] == picks[k][0] &&
                       (forall m :: 0 <= m < k ==> Disjoint(picks[m], p)) ==>
          CostOf(nodes, picks[k]).AtMost(CostOf(nodes, p)))
  }

  ghost function Nodes(picks: seq<seq<nat>>): set<nat> {
    set k, i | 0 <= k < |picks| && i in picks[k] :: i
  }

  ghost predicate Touches(picks: seq<seq<nat>>, p: seq<nat>) {
    exists m :: 0 <= m < |picks| && !Disjoint(picks[m], p)
  }

  /** Heads are tried by the best latency any of their pipelines offers. */
  ghost predicate FastestHeadsFirst(nodes: seq<Host>, pipelines: seq<seq<nat>>, picks: seq<seq<nat>>)
    requires forall k :: 0 <= k < |picks| ==> picks[k] != []
  {
    forall a, b, p :: 0 <= a < b < |picks| && p in pipelines && Routable(nodes, p) && p[0] == picks[b][0] ==>
      exists q :: q in pipelines && Routable(nodes, q) && q[0] == picks[a][0] && CostOf(nodes, q).AtMost(CostOf(nodes, p))
  }

  /** Groups that hold exactly the routable pipelines. */
  ghost predicate Grouped(nodes: seq<Host>, pipelines: seq<seq<nat>>, groups: seq<Group>) {
    Groups(nodes, groups) && forall p :: InGroups(groups, p) <==> p in pipelines && Routable(nodes, p)
  }

  lemma GroupOf(nodes: seq<Host>, pipelines: seq<seq<nat>>, groups: seq<Group>, p: seq<nat>) returns (g: nat)
    requires Grouped(nodes, pipelines, groups) && p in pipelines && Routable(nodes, p)
    ensures g < |groups| && Holds(groups[g], p) && groups[g].head == p[0]
  {
    assert InGroups(groups, p);
    g :| 0 <= g < |groups| && Holds(groups[g], p);
  }

  lemma Member(nodes: seq<Host>, pipelines: seq<seq<nat>>, groups: seq<Group>, g: nat, p: seq<nat>)
    requires Grouped(nodes, pipelines, groups) && g < |groups| && Holds(groups[g], p)
    ensures p in pipelines && Routable(nodes, p) && p[0] == groups[g].head
  {
    assert InGroups(groups, p);
    assert GroupOk(nodes, groups[g]);
  }

  /** The picks after the first `k` groups; `from` says which group each pick comes from. */
  ghost predicate Picked(nodes: seq<Host>, pipelines: seq<seq<nat>>, groups: seq<Group>, k: nat, picks: seq<seq<nat>>, from: seq<nat>) {
    && k <= |groups| && |from| == |picks|
    && (forall m :: 0 <= m < |picks| ==> from[m] < k && Holds(groups[from[m]], picks[m]))
    && (forall a, b :: 0 <= a < b < |picks| ==> from[a] < from[b])
    && (forall g, p :: 0 <= g < k && Holds(groups[g], p) ==> Touches(picks, p))
    && AllDisjoint(picks)
    && Greedy(nodes, pipelines, picks)
    && (k > 0 ==> picks != [] && from[0] == 0)
  }

  /** The cheapest free member of a group is the cheapest of its head that avoids the picks. */
  lemma CheapestOfHead(nodes: seq<Host>, pipelines: seq<seq<nat>>, groups: seq<Group>, k: nat, picks: seq<seq<nat>>, best: seq<nat>, p: seq<nat>)
    requires Grouped(nodes, pipelines, groups) && k < |groups| && Holds(groups[k], best) && Routable(nodes, best)
    requires forall q :: Holds(groups[k], q) && Free(q, Nodes(picks)) ==> CostOf(nodes, best).AtMost(CostOf(nodes, q))
    requires p in pipelines && Routable(nodes, p) && p[0] == groups[k].head
    requires forall m :: 0 <= m < |picks| ==> Disjoint(picks[m], p)
    ensures CostOf(nodes, best).AtMost(CostOf(nodes, p))
  {
    var g := GroupOf(nodes, pipelines, groups, p);
    assert g == k;
    assert Free(p, Nodes(picks));
  }

  /** One more pick keeps the picks greedy. */
  lemma PickOne(nodes: seq<Host>, pipelines: seq<seq<nat>>, groups: seq<Group>, k: nat, picks: seq<seq<nat>>, from: seq<nat>, best: seq<nat>)
    requires Grouped(nodes, pipelines, groups) && k < |groups|
    requires Picked(nodes, pipelines, groups, k, picks, from)
    requires best != [] && Holds(groups[k], best) && Free(best, Nodes(picks))
    requires forall p :: Holds(groups[k], p) && Free(p, Nodes(picks)) ==> CostOf(nodes, best).AtMost(CostOf(nodes, p))
    ensures Greedy(nodes, pipelines, picks + [best]) && AllDisjoint(picks + [best])
  {
    hide GroupOk, Holds, CostOf, Touches;
    var more := picks + [best];
    Member(nodes, pipelines, groups, k, best);
    forall m, p | 0 <= m < |more| && p in pipelines && Routable(nodes, p) && p[0] == more[m][0] &&
                  (forall n :: 0 <= n < m ==> Disjoint(more[n], p))
      ensures CostOf(nodes, more[m]).AtMost(CostOf(nodes, p))
    {
      assert forall n :: 0 <= n < m ==> picks[n] == more[n];
      if m == |picks| {
        CheapestOfHead(nodes, pipelines, groups, k, picks, best, p);
      }
    }
  }

  /** A group whose every member meets the used nodes, or gives a pick, is touched. */
  lemma GroupTouched(nodes: seq<Host>, g: Group, picks: seq<seq<nat>>, best: seq<nat>)
    requires GroupOk(nodes, g)
    requires best != [] ==> Holds(g, best)
    requires forall p :: Holds(g, p) && Free(p, Nodes(picks)) ==> best != []
    ensures forall p :: Holds(g, p) ==> Touches(if best == [] then picks else picks + [best], p)
  {
    var more := if best == [] then picks else picks + [best];
    forall p | Holds(g, p)
      ensures Touches(more, p)
    {
      if Free(p, Nodes(picks)) {
        assert p[0] in p && best[0] in best && p[0] == best[0];
        assert !Disjoint(more[|picks|], p);
      } else {
        var i :| i in p && i in Nodes(picks);
        var m :| 0 <= m < |picks| && i in picks[m];
        assert !Disjoint(more[m], p);
      }
    }
  }

  method Pick(nodes: seq<Host>, ghost pipelines: seq<seq<nat>>, groups: seq<Group>) returns (picks: seq<seq<nat>>, ghost from: seq<nat>)
    requires Grouped(nodes, pipelines, groups)
    ensures Picked(nodes, pipelines, groups, |groups|, picks, from)
  {
    picks, from := [], [];
    var used: set<nat> := {};
    for k := 0 to |groups|
      invariant Picked(nodes, pipelines, groups, k, picks, from)
      invariant used == Nodes(picks)
    {
      picks, from, used := PickNext(nodes, pipelines, groups, k, picks, from, used);
    }
  }

  method PickNext(nodes: seq<Host>, ghost pipelines: seq<seq<nat>>, groups: seq<Group>, k: nat, picks0: seq<seq<nat>>, ghost from0: seq<nat>, used0: set<nat>)
    returns (picks: seq<seq<nat>>, ghost from: seq<nat>, used: set<nat>)
    requires Grouped(nodes, pipelines, groups) && k < |groups|
    requires Picked(nodes, pipelines, groups, k, picks0, from0) && used0 == Nodes(picks0)
    ensures Picked(nodes, pipelines, groups, k + 1, picks, from) && used == Nodes(picks)
  {
    picks, from, used := picks0, from0, used0;
    assert GroupOk(nodes, groups[k]);
    hide GroupOk, Holds, CostOf, Free, Touches, Greedy, Routable;
    var best := BestFree(nodes, groups[k], used);
    GroupTouched(nodes, groups[k], picks, best);
    if k == 0 {
      assert Nodes(picks) == {};
      FirstFree(nodes, groups[0], best);
    }
    if best != [] {
      PickOne(nodes, pipelines, groups, k, picks, from, best);
      PicksGrow(nodes, pipelines, groups, k, picks, from, best);
      used := used + set i | i in best;
      picks, from := picks + [best], from + [k];
    }
  }

  /** The first group always gives a pick. */
  lemma FirstFree(nodes: seq<Host>, g: Group, best: seq<nat>)
    requires GroupOk(nodes, g)
    requires forall p :: Holds(g, p) && Free(p, {}) ==> best != []
    ensures best != []
  {
    assert Holds(g, g.members[0].path);
  }

  lemma PicksGrow(nodes: seq<Host>, pipelines: seq<seq<nat>>, groups: seq<Group>, k: nat, picks: seq<seq<nat>>, from: seq<nat>, best: seq<nat>)
    requires k < |groups| && Picked(nodes, pipelines, groups, k, picks, from)
    requires Holds(groups[k], best) && Greedy(nodes, pipelines, picks + [best]) && AllDisjoint(picks + [best])
    requires forall p :: Holds(groups[k], p) ==> Touches(picks + [best], p)
    ensures Picked(nodes, pipelines, groups, k + 1, picks + [best], from + [k])
    ensures Nodes(picks + [best]) == Nodes(picks) + set i | i in best
  {
    hide Holds, Greedy, AllDisjoint;
    var more := picks + [best];
    forall g, p | 0 <= g < k + 1 && Holds(groups[g], p)
      ensures Touches(more, p)
    {
      if g < k {
        assert Touches(picks, p);
        var m :| 0 <= m < |picks| && !Disjoint(picks[m], p);
        assert !Disjoint(more[m], p);
      }
    }
    forall i
      ensures i in Nodes(more) <==> i in Nodes(picks) + set j | j in best
    {
      if i in Nodes(picks) {
        var m :| 0 <= m < |picks| && i in picks[m];
        assert i in more[m];
      }
      if i in best {
        assert i in more[|picks|];
      }
    }
  }

  function Flat(picks: seq<seq<nat>>): (r: seq<nat>)
    ensures forall i :: i in r <==> exists m :: 0 <= m < |picks| && i in picks[m]
  {
    if picks == [] then []
    else
      var rest := Flat(picks[..|picks| - 1]);
      rest + picks[|picks| - 1]
  }

  lemma {:induction false} FlatOnce(picks: seq<seq<nat>>)
    requires AllDisjoint(picks) && forall m :: 0 <= m < |picks| ==> NoRepeats(picks[m])
    ensures NoRepeats(Flat(picks))
  {
    if picks != [] {
      var init, last := picks[..|picks| - 1], picks[|picks| - 1];
      FlatOnce(init);
      var f := Flat(init);
      forall a, b | 0 <= a < |f| && 0 <= b < |last|
        ensures f[a] != last[b]
      {
        assert f[a] in f;
        var m :| 0 <= m < |init| && f[a] in init[m];
        assert Disjoint(picks[m], last);
      }
    }
  }

  /**
   * Node-disjoint pipelines, one per head, fastest heads first. The safety check never fires:
   * the picks are disjoint, the first is the fastest of all, and every routable pipeline left
   * out shares a node with a pick.
   */
  method SelectBest(nodes: seq<Host>, pipelines: seq<seq<nat>>) returns (selection: Selection)
    requires forall p :: p in pipelines ==> InRange(nodes, p)
    ensures selection.Selected?
    ensures AllDisjoint(selection.pipelines) && Greedy(nodes, pipelines, selection.pipelines)
    ensures forall p :: p in pipelines && Routable(nodes, p) ==>
              && Touches(selection.pipelines, p)
              && CostOf(nodes, selection.pipelines[0]).AtMost(CostOf(nodes, p))
    ensures FastestHeadsFirst(nodes, pipelines, selection.pipelines)
  {
    var found := GroupByHead(nodes, pipelines);
    var groups := SortGroups(nodes, found);
    SameGroups(found, groups);
    var picks, from := Pick(nodes, pipelines, groups);
    hide Holds, Touches, Grouped, Groups, Fastest, FastestHeadsFirst, Disjoint, CostOf;
    FlatOnce(picks);
    var overlap := HasRepeat(Flat(picks));
    if overlap {
      return Overlap;
    }
    AllTouched(nodes, pipelines, groups, picks, from);
    HeadsInOrder(nodes, pipelines, groups, picks, from);
    selection := Selected(picks);
  }

  lemma SameGroups(s: seq<Group>, t: seq<Group>)
    requires forall g :: g in s <==> g in t
    ensures forall p :: InGroups(s, p) <==> InGroups(t, p)
  {
    forall p
      ensures InGroups(s, p) <==> InGroups(t, p)
    {
      if InGroups(s, p) {
        var a :| 0 <= a < |s| && Holds(s[a], p);
        assert s[a] in t;
      }
      if InGroups(t, p) {
        var a :| 0 <= a < |t| && Holds(t[a], p);
        assert t[a] in s;
      }
    }
  }

  /** A group's best cost is the cost of one of its members, and bounds them all. */
  lemma BestHeld(nodes: seq<Host>, g: Group) returns (q: seq<nat>)
    requires GroupOk(nodes, g)
    ensures Holds(g, q) && InRange(nodes, q) && q != [] && CostOf(nodes, q) == Best(g.members)
    ensures forall p :: Holds(g, p) ==> p != [] && InRange(nodes, p) && Best(g.members).AtMost(CostOf(nodes, p))
  {
    var k :| 0 <= k < |g.members| && g.members[k].cost == Best(g.members);
    q := g.members[k].path;
  }

  lemma FirstIsFastest(nodes: seq<Host>, pipelines: seq<seq<nat>>, groups: seq<Group>, picks: seq<seq<nat>>, from: seq<nat>, g: nat, p: seq<nat>)
    requires Grouped(nodes, pipelines, groups) && Fastest(groups)
    requires Picked(nodes, pipelines, groups, |groups|, picks, from)
    requires g < |groups| && Holds(groups[g], p) && Routable(nodes, p)
    ensures InRange(nodes, picks[0]) && picks[0] != [] && CostOf(nodes, picks[0]).AtMost(CostOf(nodes, p))
  {
    hide GroupOk, CostOf, Touches;
    var q := BestHeld(nodes, groups[0]);
    var _ := BestHeld(nodes, groups[g]);
    Member(nodes, pipelines, groups, 0, q);
    Member(nodes, pipelines, groups, 0, picks[0]);
    assert CostOf(nodes, picks[0]).AtMost(CostOf(nodes, q));
    assert Best(groups[0].members).AtMost(Best(groups[g].members));
  }

  lemma AllTouched(nodes: seq<Host>, pipelines: seq<seq<nat>>, groups: seq<Group>, picks: seq<seq<nat>>, from: seq<nat>)
    requires Grouped(nodes, pipelines, groups) && Fastest(groups)
    requires Picked(nodes, pipelines, groups, |groups|, picks, from)
    ensures forall p :: p in pipelines && Routable(nodes, p) ==>
              Touches(picks, p) && picks != [] && CostOf(nodes, picks[0]).AtMost(CostOf(nodes, p))
  {
    forall p | p in pipelines && Routable(nodes, p)
      ensures Touches(picks, p) && picks != [] && InRange(nodes, picks[0]) && picks[0] != []
      ensures CostOf(nodes, picks[0]).AtMost(CostOf(nodes, p))
    {
      var g := GroupOf(nodes, pipelines, groups, p);
      FirstIsFastest(nodes, pipelines, groups, picks, from, g, p);
    }
  }

  lemma HeadsInOrder(nodes: seq<Host>, pipelines: seq<seq<nat>>, groups: seq<Group>, picks: seq<seq<nat>>, from: seq<nat>)
    requires Grouped(nodes, pipelines, groups) && Fastest(groups)
    requires Picked(nodes, pipelines, groups, |groups|, picks, from)
    ensures FastestHeadsFirst(nodes, pipelines, picks)
  {
    forall a, b, p | 0 <= a < b < |picks| && p in pipelines && Routable(nodes, p) && p[0] == picks[b][0]
      ensures exists q :: q in pipelines && Routable(nodes, q) && q[0] == picks[a][0] && CostOf(nodes, q).AtMost(CostOf(nodes, p))
    {
      var g := GroupOf(nodes, pipelines, groups, p);
      Member(nodes, pipelines, groups, from[a], picks[a]);
      Member(nodes, pipelines, groups, from[b], picks[b]);
      assert g == from[b];
      var q := BestHeld(nodes, groups[from[a]]);
      var _ := BestHeld(nodes, groups[g]);
      Member(nodes, pipelines, groups, from[a], q);
    }
  }
}
