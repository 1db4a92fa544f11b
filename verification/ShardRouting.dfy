/** Minimum-latency routing over contiguous shards. */
module ShardRouting {
  import opened Hosts
  import opened Sequences

  datatype Parent = NoParent | From(i: nat)

  /** A node that is assigned layers and ready to serve. */
  predicate Usable(nodes: seq<Host>, i: nat) {
    Ranged(nodes, i) && nodes[i].ready
  }

  /** Consecutive shards from layer 0, all usable except possibly the last. */
  ghost predicate Chain(nodes: seq<Host>, p: seq<nat>) {
    && p != []
    && (forall k :: 0 <= k < |p| ==> Ranged(nodes, p[k]))
    && (forall k :: 0 <= k < |p| - 1 ==> Usable(nodes, p[k]))
    && nodes[p[0]].range.start == 0 && Usable(nodes, p[0])
    && (forall k :: 0 <= k < |p| - 1 ==> nodes[p[k]].range.end == nodes[p[k + 1]].range.start)
  }

  /** A contiguous cover of all layers by nodes that are assigned layers and ready to serve. */
  ghost predicate Cover(nodes: seq<Host>, layers: int, p: seq<nat>) {
    && p != []
    && (forall k :: 0 <= k < |p| ==> p[k] < |nodes| && nodes[p[k]].range.Layers? && nodes[p[k]].ready)
    && nodes[p[0]].range.start == 0 && nodes[p[|p| - 1]].range.end == layers
    && (forall k :: 0 <= k < |p| - 1 ==> nodes[p[k]].range.end == nodes[p[k + 1]].range.start)
  }

  /** Latency of all stages plus the hops between them. */
  function CostOf(nodes: seq<Host>, p: seq<nat>): Cost
    requires p != [] && forall k :: 0 <= k < |p| ==> p[k] < |nodes|
  {
    var i := p[|p| - 1];
    if |p| == 1 then nodes[i].latency
    else
      var q := p[..|p| - 1];
      CostOf(nodes, q).Plus(Hop(nodes[q[|q| - 1]], nodes[i])).Plus(nodes[i].latency)
  }

  /** Milliseconds per stage and per hop, from the hosts' own latencies and measurements. */
  ghost predicate Timed(nodes: seq<Host>, p: seq<nat>, stages: seq<real>, hops: seq<real>) {
    && |stages| == |p| && |hops| == |p| - 1
    && (forall k :: 0 <= k < |p| ==> p[k] < |nodes| && nodes[p[k]].latency == Fin(stages[k]))
    && (forall k :: 0 <= k < |hops| ==> HopTimed(nodes, p, k, hops[k]))
  }

  /** A hop within one node takes no time. */
  ghost predicate HopTimed(nodes: seq<Host>, p: seq<nat>, k: nat, t: real)
    requires k < |p| - 1 && p[k] < |nodes| && p[k + 1] < |nodes|
  {
    var a, b := nodes[p[k]], nodes[p[k + 1]];
    if a.id == b.id then t == 0.0 else Measured(a, b, t)
  }

  /** A chain costs the milliseconds of its stages and hops, and infinity when one of them has none. */
  lemma {:induction false} CostIsTime(nodes: seq<Host>, p: seq<nat>)
    requires p != [] && forall k :: 0 <= k < |p| ==> p[k] < |nodes|
    ensures CostOf(nodes, p).Fin? ==> exists stages, hops :: Timed(nodes, p, stages, hops)
    ensures forall stages, hops :: Timed(nodes, p, stages, hops) ==> CostOf(nodes, p) == Fin(SumReals(stages) + SumReals(hops))
    decreases |p|
  {
    var i := p[|p| - 1];
    if |p| == 1 {
      if nodes[i].latency.Fin? {
        assert Timed(nodes, p, [nodes[i].latency.ms], []);
      }
      forall stages, hops | Timed(nodes, p, stages, hops)
        ensures CostOf(nodes, p) == Fin(SumReals(stages) + SumReals(hops))
      {
        SumRealsLast(stages);
      }
    } else {
      var q := p[..|p| - 1];
      CostIsTime(nodes, q);
      if CostOf(nodes, p).Fin? {
        var stages, hops :| Timed(nodes, q, stages, hops);
        TimedNext(nodes, p, stages, hops);
      }
      forall stages, hops | Timed(nodes, p, stages, hops)
        ensures CostOf(nodes, p) == Fin(SumReals(stages) + SumReals(hops))
      {
        TimedInit(nodes, p, stages, hops);
        SumRealsLast(stages);
        SumRealsLast(hops);
      }
    }
  }

  lemma TimedNext(nodes: seq<Host>, p: seq<nat>, stages: seq<real>, hops: seq<real>)
    requires |p| > 1 && (forall k :: 0 <= k < |p| ==> p[k] < |nodes|) && Timed(nodes, p[..|p| - 1], stages, hops)
    requires nodes[p[|p| - 1]].latency.Fin? && Hop(nodes[p[|p| - 2]], nodes[p[|p| - 1]]).Fin?
    ensures Timed(nodes, p, stages + [nodes[p[|p| - 1]].latency.ms], hops + [Hop(nodes[p[|p| - 2]], nodes[p[|p| - 1]]).ms])
  {
    var q, hops' := p[..|p| - 1], hops + [Hop(nodes[p[|p| - 2]], nodes[p[|p| - 1]]).ms];
    forall k | 0 <= k < |hops'|
      ensures HopTimed(nodes, p, k, hops'[k])
    {
      if k < |hops| {
        assert HopTimed(nodes, q, k, hops[k]);
      }
    }
  }

  lemma TimedInit(nodes: seq<Host>, p: seq<nat>, stages: seq<real>, hops: seq<real>)
    requires |p| > 1 && Timed(nodes, p, stages, hops)
    ensures Timed(nodes, p[..|p| - 1], stages[..|p| - 1], hops[..|p| - 2])
    ensures nodes[p[|p| - 1]].latency == Fin(stages[|p| - 1]) && Hop(nodes[p[|p| - 2]], nodes[p[|p| - 1]]) == Fin(hops[|p| - 2])
  {
    var q := p[..|p| - 1];
    forall k | 0 <= k < |p| - 2
      ensures HopTimed(nodes, q, k, hops[k])
    {
      assert HopTimed(nodes, p, k, hops[k]);
    }
    assert HopTimed(nodes, p, |p| - 2, hops[|p| - 2]);
  }

  ghost predicate Complete(nodes: seq<Host>, s: seq<nat>) {
    forall i: nat :: Ranged(nodes, i) <==> i in s
  }

  /** The assigned nodes, ready or not, in list order. */
  method Assigned(nodes: seq<Host>) returns (picks: seq<nat>)
    ensures Complete(nodes, picks)
    ensures forall a, b :: 0 <= a < b < |picks| ==> picks[a] < picks[b]
  {
    picks := [];
    for i := 0 to |nodes|
      invariant forall x: nat :: x in picks <==> x < i && Ranged(nodes, x)
      invariant forall k :: 0 <= k < |picks| ==> picks[k] < i
      invariant forall a, b :: 0 <= a < b < |picks| ==> picks[a] < picks[b]
    {
      if nodes[i].range.Layers? {
        picks := picks + [i];
      }
    }
  }

  /** No chain that ends in `i` costs less. */
  ghost predicate Bounds(nodes: seq<Host>, i: nat, cost: Cost) {
    forall p :: Chain(nodes, p) && p[|p| - 1] == i ==> cost.AtMost(CostOf(nodes, p))
  }

  /** A finite entry is the cost of the chain its parents spell. */
  ghost predicate Linked(nodes: seq<Host>, dp: seq<Cost>, parent: seq<Parent>, i: nat)
    requires |dp| == |parent| == |nodes| && i < |nodes|
  {
    dp[i].Fin? ==>
      && Ranged(nodes, i) && nodes[i].range.start >= 0
      && match parent[i]
         case NoParent => Usable(nodes, i) && nodes[i].range.start == 0 && dp[i] == nodes[i].latency
         case From(j) =>
           && j < |nodes| && Usable(nodes, j) && dp[j].Fin?
           && nodes[j].range.end == nodes[i].range.start && nodes[j].range.start >= 0
           && dp[i] == dp[j].Plus(Hop(nodes[j], nodes[i])).Plus(nodes[i].latency)
  }

  function Initial(nodes: seq<Host>, i: nat): Cost
    requires i < |nodes|
  {
    if Usable(nodes, i) && nodes[i].range.start == 0 then nodes[i].latency else Inf
  }

  /** What the entry of a chain's last node owes to the node before it. */
  lemma ChainStep(nodes: seq<Host>, p: seq<nat>)
    requires ValidRanges(nodes) && Chain(nodes, p) && |p| > 1
    ensures var q, i := p[..|p| - 1], p[|p| - 1];
            && Chain(nodes, q) && Usable(nodes, q[|q| - 1])
            && nodes[q[|q| - 1]].range.end == nodes[i].range.start
            && nodes[q[|q| - 1]].range.start < nodes[i].range.start
  {
    var q := p[..|p| - 1];
    assert p[|q| - 1] == q[|q| - 1];
    assert nodes[p[|p| - 2]].range.end == nodes[p[|p| - 2 + 1]].range.start;
  }

  /** Relaxing `i` from every usable node that ends where it starts makes its entry a bound. */
  lemma RelaxedBounds(nodes: seq<Host>, dp: seq<Cost>, i: nat)
    requires ValidRanges(nodes) && |dp| == |nodes| && Ranged(nodes, i)
    requires dp[i].AtMost(Initial(nodes, i))
    requires forall j :: 0 <= j < |nodes| && Usable(nodes, j) && nodes[j].range.end == nodes[i].range.start ==>
                           && Bounds(nodes, j, dp[j])
                           && dp[i].AtMost(dp[j].Plus(Hop(nodes[j], nodes[i])).Plus(nodes[i].latency))
    ensures Bounds(nodes, i, dp[i])
  {
    forall p | Chain(nodes, p) && p[|p| - 1] == i
      ensures dp[i].AtMost(CostOf(nodes, p))
    {
      if |p| > 1 {
        ChainStep(nodes, p);
        var q := p[..|p| - 1];
        assert dp[q[|q| - 1]].AtMost(CostOf(nodes, q));
      }
    }
  }

  /** The dynamic-programming table after the nodes `order[..k]`. */
  ghost predicate Table(nodes: seq<Host>, order: seq<nat>, dp: seq<Cost>, parent: seq<Parent>, k: nat)
    requires k <= |order|
  {
    && |dp| == |parent| == |nodes|
    && (forall i :: 0 <= i < |nodes| ==> Linked(nodes, dp, parent, i))
    && (forall m :: 0 <= m < k && order[m] < |nodes| ==> Bounds(nodes, order[m], dp[order[m]]))
    && (forall m :: k <= m < |order| && order[m] < |nodes| ==> dp[order[m]] == Initial(nodes, order[m]) && parent[order[m]] == NoParent)
  }

  /** Nodes that could precede `order[k]` come earlier in the order. */
  lemma Preceding(nodes: seq<Host>, order: seq<nat>, k: nat, j: nat) returns (m: nat)
    requires ValidRanges(nodes) && ByRange(nodes, order) && k < |order| && j in order
    requires Ranged(nodes, j) && nodes[j].range.end == nodes[order[k]].range.start
    ensures m < k && order[m] == j
  {
    m :| 0 <= m < |order| && order[m] == j;
    assert nodes[j].range.start < nodes[order[k]].range.start;
  }

  /** Relaxes the `k`-th node of the order from every usable node that ends where it starts. */
  method Relax(nodes: seq<Host>, order: seq<nat>, k: nat, dp0: seq<Cost>, parent0: seq<Parent>) returns (dp: seq<Cost>, parent: seq<Parent>)
    requires ValidRanges(nodes) && ByRange(nodes, order) && Complete(nodes, order) && k < |order|
    requires Table(nodes, order, dp0, parent0, k)
    ensures Table(nodes, order, dp, parent, k + 1)
  {
    hide Bounds, Hop;
    dp, parent := dp0, parent0;
    var i := order[k];
    for j := 0 to |nodes|
      invariant |dp| == |parent| == |nodes|
      invariant forall m :: 0 <= m < |nodes| && m != i ==> dp[m] == dp0[m] && parent[m] == parent0[m]
      invariant Linked(nodes, dp, parent, i)
      invariant dp[i].AtMost(Initial(nodes, i))
      invariant forall m :: 0 <= m < j && Usable(nodes, m) && nodes[m].range.end == nodes[i].range.start ==>
                              dp[i].AtMost(dp0[m].Plus(Hop(nodes[m], nodes[i])).Plus(nodes[i].latency))
    {
      if Usable(nodes, j) && nodes[j].range.end == nodes[i].range.start && dp[j].Fin? {
        assert Linked(nodes, dp0, parent0, j);
        var candidate := dp[j].Plus(Hop(nodes[j], nodes[i])).Plus(nodes[i].latency);
        if candidate.Less(dp[i]) {
          dp, parent := dp[i := candidate], parent[i := From(j)];
        }
      }
    }
    RelaxKeeps(nodes, order, k, dp0, parent0, dp, parent);
  }

  lemma RelaxKeeps(nodes: seq<Host>, order: seq<nat>, k: nat, dp0: seq<Cost>, parent0: seq<Parent>, dp: seq<Cost>, parent: seq<Parent>)
    requires ValidRanges(nodes) && ByRange(nodes, order) && Complete(nodes, order) && k < |order|
    requires Table(nodes, order, dp0, parent0, k)
    requires |dp| == |parent| == |nodes|
    requires forall m :: 0 <= m < |nodes| && m != order[k] ==> dp[m] == dp0[m] && parent[m] == parent0[m]
    requires Linked(nodes, dp, parent, order[k]) && dp[order[k]].AtMost(Initial(nodes, order[k]))
    requires forall m :: 0 <= m < |nodes| && Usable(nodes, m) && nodes[m].range.end == nodes[order[k]].range.start ==>
                           dp[order[k]].AtMost(dp0[m].Plus(Hop(nodes[m], nodes[order[k]])).Plus(nodes[order[k]].latency))
    ensures Table(nodes, order, dp, parent, k + 1)
  {
    var i := order[k];
    forall j | 0 <= j < |nodes| && Usable(nodes, j) && nodes[j].range.end == nodes[i].range.start
      ensures Bounds(nodes, j, dp[j]) && dp[j] == dp0[j]
    {
      var m := Preceding(nodes, order, k, j);
      assert Bounds(nodes, order[m], dp0[order[m]]);
    }
    RelaxedBounds(nodes, dp, i);
    StillLinked(nodes, order, k, dp0, parent0, dp, parent);
    hide Linked, Bounds, Hop;
  }

  /** The other entries stay linked. */
  lemma StillLinked(nodes: seq<Host>, order: seq<nat>, k: nat, dp0: seq<Cost>, parent0: seq<Parent>, dp: seq<Cost>, parent: seq<Parent>)
    requires ValidRanges(nodes) && ByRange(nodes, order) && Complete(nodes, order) && k < |order|
    requires Table(nodes, order, dp0, parent0, k)
    requires |dp| == |parent| == |nodes| && Linked(nodes, dp, parent, order[k])
    requires forall m :: 0 <= m < |nodes| && m != order[k] ==> dp[m] == dp0[m] && parent[m] == parent0[m]
    ensures forall m :: 0 <= m < |nodes| ==> Linked(nodes, dp, parent, m)
  {
    forall m | 0 <= m < |nodes|
      ensures Linked(nodes, dp, parent, m)
    {
      if m != order[k] {
        assert Linked(nodes, dp0, parent0, m);
        LinkedElsewhere(nodes, order, k, dp0, parent0, m);
      }
    }
  }

  /** No entry depends on a node that is not relaxed yet. */
  lemma LinkedElsewhere(nodes: seq<Host>, order: seq<nat>, k: nat, dp: seq<Cost>, parent: seq<Parent>, m: nat)
    requires ValidRanges(nodes) && ByRange(nodes, order) && Complete(nodes, order) && k < |order|
    requires Table(nodes, order, dp, parent, k) && m < |nodes| && Linked(nodes, dp, parent, m)
    ensures dp[m].Fin? && parent[m].From? ==> parent[m].i != order[k]
  {
    if m in order {
      var x :| 0 <= x < |order| && order[x] == m;
      assert x < k ==> !Before(nodes[order[k]].range, nodes[m].range) || nodes[m].range.start == nodes[order[k]].range.start;
    }
  }

  /** The chain that the parents spell, read back from `i`. */
  ghost function ChainTo(nodes: seq<Host>, dp: seq<Cost>, parent: seq<Parent>, i: nat): (p: seq<nat>)
    requires ValidRanges(nodes) && |dp| == |parent| == |nodes| && i < |nodes| && dp[i].Fin?
    requires forall m :: 0 <= m < |nodes| ==> Linked(nodes, dp, parent, m)
    ensures Chain(nodes, p) && p[|p| - 1] == i && CostOf(nodes, p) == dp[i]
    decreases if nodes[i].range.Layers? then nodes[i].range.start else 0
  {
    assert Linked(nodes, dp, parent, i);
    match parent[i]
    case NoParent => [i]
    case From(j) =>
      assert Linked(nodes, dp, parent, j);
      var q := ChainTo(nodes, dp, parent, j);
      assert (q + [i])[..|q|] == q;
      q + [i]
  }

  /** Follows the parents from `last` back to the start. */
  method Reconstruct(nodes: seq<Host>, dp: seq<Cost>, parent: seq<Parent>, last: nat) returns (path: seq<nat>)
    requires ValidRanges(nodes) && |dp| == |parent| == |nodes| && last < |nodes| && dp[last].Fin?
    requires forall m :: 0 <= m < |nodes| ==> Linked(nodes, dp, parent, m)
    ensures Chain(nodes, path) && path[|path| - 1] == last && CostOf(nodes, path) == dp[last]
  {
    ghost var whole := ChainTo(nodes, dp, parent, last);
    var cur := From(last);
    path := [];
    while cur.From?
      invariant cur.From? ==> cur.i < |nodes| && dp[cur.i].Fin? && ChainTo(nodes, dp, parent, cur.i) + path == whole
      invariant cur.NoParent? ==> path == whole
      decreases cur.From?, if cur.From? && nodes[cur.i].range.Layers? then nodes[cur.i].range.start else 0
    {
      assert Linked(nodes, dp, parent, cur.i);
      if parent[cur.i].From? {
        assert Linked(nodes, dp, parent, parent[cur.i].i);
      }
      path := [cur.i] + path;
      cur := parent[cur.i];
    }
  }

  /** Whether a node can end a cover. */
  predicate Terminal(nodes: seq<Host>, layers: int, i: nat) {
    Usable(nodes, i) && nodes[i].range.end == layers
  }

  /** A terminal with the least entry, if there is one. */
  method BestTerminal(nodes: seq<Host>, layers: int, dp: seq<Cost>) returns (best: Parent)
    requires |dp| == |nodes|
    ensures best.From? ==> Terminal(nodes, layers, best.i)
    ensures forall i: nat :: Terminal(nodes, layers, i) ==> best.From? && dp[best.i].AtMost(dp[i])
  {
    best := NoParent;
    for k := 0 to |nodes|
      invariant best.From? ==> Terminal(nodes, layers, best.i)
      invariant forall i: nat :: i < k && Terminal(nodes, layers, i) ==> best.From? && dp[best.i].AtMost(dp[i])
    {
      if Terminal(nodes, layers, k) && (best.NoParent? || dp[k].Less(dp[best.i])) {
        best := From(k);
      }
    }
  }

  /**
   * The cheapest contiguous cover of all layers by usable nodes, or infinity when every cover
   * costs that much. With nothing to route over, or no layers, the reported latency is zero.
   */
  method FindOptimalPath(nodes: seq<Host>, layers: int) returns (path: seq<nat>, latency: Cost)
    requires ValidRanges(nodes)
    ensures nodes == [] || layers <= 0 ==> path == [] && latency == Fin(0.0)
    ensures nodes != [] && layers > 0 ==> (path == [] <==> latency == Inf)
    ensures path != [] ==> Cover(nodes, layers, path) && CostOf(nodes, path) == latency
    ensures nodes != [] && layers > 0 ==> forall p :: Cover(nodes, layers, p) ==> latency.AtMost(CostOf(nodes, p))
    ensures path != [] ==> exists stages, hops :: Timed(nodes, path, stages, hops) && latency == Fin(SumReals(stages) + SumReals(hops))
    ensures nodes != [] && layers > 0 ==> forall p, stages, hops :: Cover(nodes, layers, p) && Timed(nodes, p, stages, hops) ==>
              latency.Fin? && latency.ms <= SumReals(stages) + SumReals(hops)
  {
    hide Timed, CostOf, Cover, Chain, SumReals;
    if nodes == [] || layers <= 0 {
      return [], Fin(0.0);
    }
    var picks := Assigned(nodes);
    var order := SortByRange(nodes, picks);
    var dp, parent := seq(|nodes|, i requires 0 <= i < |nodes| => Initial(nodes, i)), seq(|nodes|, _ => NoParent);
    for k := 0 to |order|
      invariant Table(nodes, order, dp, parent, k)
    {
      dp, parent := Relax(nodes, order, k, dp, parent);
    }
    var last := BestTerminal(nodes, layers, dp);
    CoversBounded(nodes, order, dp, parent, layers, last);
    BoundInTime(nodes, layers, if last.NoParent? then Inf else dp[last.i]);
    if last.NoParent? || dp[last.i].Inf? {
      return [], Inf;
    }
    path := Reconstruct(nodes, dp, parent, last.i);
    latency := dp[last.i];
    CoverOf(nodes, layers, path);
    ChainInRange(nodes, path);
    CostIsTime(nodes, path);
  }

  lemma ChainInRange(nodes: seq<Host>, p: seq<nat>)
    requires Chain(nodes, p)
    ensures p != [] && forall k :: 0 <= k < |p| ==> p[k] < |nodes|
  {
    assert forall k :: 0 <= k < |p| ==> Ranged(nodes, p[k]);
  }

  /** A bound on the cost of all covers is one on their time. */
  lemma BoundInTime(nodes: seq<Host>, layers: int, cost: Cost)
    requires forall p :: Cover(nodes, layers, p) ==> cost.AtMost(CostOf(nodes, p))
    ensures forall p, stages, hops :: Cover(nodes, layers, p) && Timed(nodes, p, stages, hops) ==>
              cost.Fin? && cost.ms <= SumReals(stages) + SumReals(hops)
  {
    hide Timed, CostOf, SumReals;
    forall p, stages, hops | Cover(nodes, layers, p) && Timed(nodes, p, stages, hops)
      ensures cost.Fin? && cost.ms <= SumReals(stages) + SumReals(hops)
    {
      CostIsTime(nodes, p);
    }
  }

  /** A chain to a terminal is a cover, and the other way round. */
  lemma CoverOf(nodes: seq<Host>, layers: int, p: seq<nat>)
    ensures Cover(nodes, layers, p) <==> Chain(nodes, p) && Terminal(nodes, layers, p[|p| - 1])
  {
    if Chain(nodes, p) {
      assert forall k :: 0 <= k < |p| ==> Ranged(nodes, p[k]);
      assert Terminal(nodes, layers, p[|p| - 1]) ==> Usable(nodes, p[|p| - 1]);
      assert forall k :: 0 <= k < |p| - 1 ==> Usable(nodes, p[k]);
    }
  }

  /** Every cover ends in a terminal, and so costs at least the best terminal's entry. */
  lemma CoversBounded(nodes: seq<Host>, order: seq<nat>, dp: seq<Cost>, parent: seq<Parent>, layers: int, last: Parent)
    requires Complete(nodes, order) && Table(nodes, order, dp, parent, |order|)
    requires last.From? ==> Terminal(nodes, layers, last.i)
    requires forall i: nat :: Terminal(nodes, layers, i) ==> last.From? && dp[last.i].AtMost(dp[i])
    ensures forall p :: Cover(nodes, layers, p) ==> last.From? && dp[last.i].AtMost(CostOf(nodes, p))
  {
    forall p | Cover(nodes, layers, p)
      ensures last.From? && dp[last.i].AtMost(CostOf(nodes, p))
    {
      CoverOf(nodes, layers, p);
      var i := p[|p| - 1];
      assert Terminal(nodes, layers, i) && i in order;
      var m :| 0 <= m < |order| && order[m] == i;
      assert Bounds(nodes, order[m], dp[order[m]]);
    }
  }

  /** No layer of a cover is served by a node that is not ready, and no node serves twice. */
  lemma {:induction false} CoverServes(nodes: seq<Host>, layers: int, p: seq<nat>, layer: int)
    requires ValidRanges(nodes) && Cover(nodes, layers, p) && 0 <= layer < layers
    ensures exists k :: 0 <= k < |p| && nodes[p[k]].ready && nodes[p[k]].Hosts(layer)
    ensures forall a, b :: 0 <= a < b < |p| && nodes[p[a]].Hosts(layer) ==> !nodes[p[b]].Hosts(layer)
  {
    var k := 0;
    while nodes[p[k]].range.end <= layer
      invariant 0 <= k < |p| && nodes[p[k]].range.start <= layer
    {
      k := k + 1;
    }
    assert nodes[p[k]].ready && nodes[p[k]].Hosts(layer);
    CoverOf(nodes, layers, p);
    Ascending(nodes, p);
  }

  lemma Ascending(nodes: seq<Host>, p: seq<nat>)
    requires ValidRanges(nodes) && Chain(nodes, p)
    ensures forall a, b :: 0 <= a < b < |p| ==> nodes[p[a]].range.end <= nodes[p[b]].range.start
  {
    for n := 1 to |p|
      invariant forall a, b :: 0 <= a < b < n ==> nodes[p[a]].range.end <= nodes[p[b]].range.start
    {
      assert nodes[p[n - 1]].range.end == nodes[p[n - 1 + 1]].range.start;
    }
  }
}
