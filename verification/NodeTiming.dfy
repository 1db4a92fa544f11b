/** Nodes of the registry as the routers see them, and what their routes take in milliseconds. */
module NodeTiming {
  import opened Hosts
  import opened Options
  import opened NodeManagement
  import opened ShardRouting
  import opened Sequences

  ghost predicate WithinNodes(ns: seq<Node>, p: seq<nat>) {
    forall k :: 0 <= k < |p| ==> p[k] < |ns|
  }

  function Snapshot(ns: seq<Node>): (r: seq<Host>)
    reads ns
    ensures |r| == |ns| && forall k :: 0 <= k < |r| ==> r[k] == ns[k].AsHost()
  {
    seq(|ns|, k reads ns requires 0 <= k < |ns| => ns[k].AsHost())
  }

  /** A stage takes the roofline time until it was measured, and from then on more with every request; overloaded, it takes no requests. */
  ghost predicate StageTimed(n: Node, t: real)
    reads n
  {
    n.requests < n.maxRequests &&
    match n.measured
    case None => t == n.roofline
    case Some(ms) => n.maxRequests > 0 && (t - ms) * n.maxRequests as real == n.compensator * n.requests as real
  }

  /** A hop takes the round-trip time the first node measured, or else the one the second measured. */
  ghost predicate HopMeasured(a: Node, b: Node, t: real)
    reads a, b
  {
    if a.id == b.id then t == 0.0
    else if b.id in a.rtts then a.rtts[b.id] == Fin(t)
    else a.id in b.rtts && b.rtts[a.id] == Fin(t)
  }

  /** Milliseconds per stage and per hop of a pipeline. */
  ghost predicate NodesTimed(p: seq<Node>, stages: seq<real>, hops: seq<real>)
    reads p
  {
    && |stages| == |p| && |hops| == |p| - 1
    && (forall k :: 0 <= k < |p| ==> StageTimed(p[k], stages[k]))
    && (forall k :: 0 <= k < |hops| ==> HopMeasured(p[k], p[k + 1], hops[k]))
  }

  /** A request takes `ms` milliseconds through a pipeline whose stages all take requests and whose hops are all measured. */
  ghost predicate InTime(p: seq<Node>, ms: real)
    reads p
  {
    exists stages, hops :: NodesTimed(p, stages, hops) && ms == SumReals(stages) + SumReals(hops)
  }

  /** The nodes a path of indices visits. */
  function NodesAt(ns: seq<Node>, p: seq<nat>): (r: seq<Node>)
    requires WithinNodes(ns, p)
    ensures |r| == |p| && forall k :: 0 <= k < |r| ==> r[k] == ns[p[k]]
  {
    seq(|p|, k requires 0 <= k < |p| => ns[p[k]])
  }

  lemma StageOfHost(n: Node, t: real)
    ensures n.AsHost().latency == Fin(t) <==> StageTimed(n, t)
  {
    if n.requests < n.maxRequests && n.measured.Some? && n.maxRequests > 0 {
      var max, load := n.maxRequests as real, n.requests as real;
      Scaled(t - n.measured.value, n.compensator * (load / max), max);
      assert n.compensator * (load / max) * max == n.compensator * load by {
        assert load / max * max == load;
        Associate(n.compensator, load / max, max);
      }
    }
  }

  lemma Scaled(x: real, y: real, z: real)
    requires z > 0.0
    ensures x == y <==> x * z == y * z
  {
  }

  lemma Associate(x: real, y: real, z: real)
    ensures x * y * z == x * (y * z)
  {
  }

  lemma HopOfHosts(a: Node, b: Node, t: real)
    ensures HopMeasured(a, b, t) <==> if a.id == b.id then t == 0.0 else Measured(a.AsHost(), b.AsHost(), t)
  {
  }

  /** What a path takes as hosts is what its nodes take. */
  lemma PathTimed(ns: seq<Node>, p: seq<nat>, stages: seq<real>, hops: seq<real>)
    requires WithinNodes(ns, p)
    ensures Timed(Snapshot(ns), p, stages, hops) <==> NodesTimed(NodesAt(ns, p), stages, hops)
  {
    hide StageTimed, HopMeasured, Measured;
    var hosts, nodes := Snapshot(ns), NodesAt(ns, p);
    if |stages| == |p| && |hops| == |p| - 1 {
      forall k | 0 <= k < |p|
        ensures hosts[p[k]].latency == Fin(stages[k]) <==> StageTimed(nodes[k], stages[k])
      {
        StageOfHost(ns[p[k]], stages[k]);
      }
      forall k | 0 <= k < |hops|
        ensures HopTimed(hosts, p, k, hops[k]) <==> HopMeasured(nodes[k], nodes[k + 1], hops[k])
      {
        HopOfHosts(nodes[k], nodes[k + 1], hops[k]);
      }
    }
  }

  /** The cost of a path is finite when its nodes are timed, and is then their time. */
  lemma PathCost(ns: seq<Node>, p: seq<nat>)
    requires p != [] && WithinNodes(ns, p)
    ensures CostOf(Snapshot(ns), p).Fin? ==> InTime(NodesAt(ns, p), CostOf(Snapshot(ns), p).ms)
    ensures forall ms :: InTime(NodesAt(ns, p), ms) ==> CostOf(Snapshot(ns), p) == Fin(ms)
  {
    hide CostOf, Timed, NodesTimed, SumReals, Snapshot, NodesAt;
    CostIsTime(Snapshot(ns), p);
    if CostOf(Snapshot(ns), p).Fin? {
      var stages, hops :| Timed(Snapshot(ns), p, stages, hops);
      PathTimed(ns, p, stages, hops);
    }
    forall ms | InTime(NodesAt(ns, p), ms)
      ensures CostOf(Snapshot(ns), p) == Fin(ms)
    {
      var stages, hops :| NodesTimed(NodesAt(ns, p), stages, hops) && ms == SumReals(stages) + SumReals(hops);
      PathTimed(ns, p, stages, hops);
    }
  }

  /** Over the active nodes, a cover is made of nodes that report ready and whose own ranges follow one another over all layers. */
  lemma CoverOfNodes(ns: seq<Node>, layers: int, p: seq<nat>)
    ensures Cover(Snapshot(ns), layers, p) <==>
              && p != [] && WithinNodes(ns, p) && (forall k :: 0 <= k < |p| ==> ns[p[k]].range.Layers? && ns[p[k]].ready)
              && ns[p[0]].range.start == 0 && ns[p[|p| - 1]].range.end == layers
              && forall k :: 0 < k < |p| ==> ns[p[k - 1]].range.end == ns[p[k]].range.start
  {
    if p != [] && WithinNodes(ns, p) && (forall k :: 0 <= k < |p| ==> ns[p[k]].range.Layers? && ns[p[k]].ready) &&
       forall k :: 0 < k < |p| ==> ns[p[k - 1]].range.end == ns[p[k]].range.start {
      forall k | 0 <= k < |p| - 1
        ensures ns[p[k]].range.end == ns[p[k + 1]].range.start
      {
        assert ns[p[k + 1 - 1]].range.end == ns[p[k + 1]].range.start;
      }
    }
    if Cover(Snapshot(ns), layers, p) {
      forall k | 0 < k < |p|
        ensures ns[p[k - 1]].range.end == ns[p[k]].range.start
      {
        assert Snapshot(ns)[p[k - 1]].range.end == Snapshot(ns)[p[k - 1 + 1]].range.start;
      }
    }
  }
}
