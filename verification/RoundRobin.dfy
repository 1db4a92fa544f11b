/** Round-robin routing over fixed pipelines: choosing them, registering them, and dispatching over them. */
module RoundRobin {
  import opened Hosts
  import opened Lifecycle
  import opened Options
  import opened NodeManagement
  import opened NodeTiming
  import opened PipelineDiscovery
  import opened ShardRouting
  import opened FixedPipelines
  import opened Dispatching
  import opened Sequences

  /** The ids of the nodes a path of indices visits. */
  function IdsAt(ns: seq<Node>, p: seq<nat>): (r: seq<string>)
    requires WithinNodes(ns, p)
    ensures |r| == |p| && forall k :: 0 <= k < |r| ==> r[k] == ns[p[k]].id
  {
    seq(|p|, k requires 0 <= k < |p| => ns[p[k]].id)
  }

  ghost predicate Named(ns: seq<Node>, id: string) {
    exists k :: 0 <= k < |ns| && ns[k].id == id
  }

  /** The hosts are active nodes of the registry, each at most once. */
  ghost predicate Shows(v: View, ns: seq<Node>, hosts: seq<Host>) {
    && |hosts| == |ns|
    && (forall k :: 0 <= k < |ns| ==> IsActive(v, ns[k].id) && hosts[k].range == v.nodes[ns[k].id].range)
    && (forall a, b :: 0 <= a < b < |ns| ==> ns[a].id != ns[b].id)
  }

  /** The hosts are the active nodes of the registry, each once. */
  ghost predicate Mirrors(v: View, ns: seq<Node>, hosts: seq<Host>) {
    Shows(v, ns, hosts) && forall id :: IsActive(v, id) ==> Named(ns, id)
  }

  lemma FullJoins(hosts: seq<Host>, layers: int, p: seq<nat>)
    requires p != [] && Ranged(hosts, p[0]) && hosts[p[0]].range.start < hosts[p[0]].range.end
    ensures FullChain(hosts, layers, p) <==> Joins(hosts, p, 0, layers)
  {
    assert p == [p[0]] + p[1..];
    JoinsCons(hosts, p[0], p[1..], 0, layers);
  }

  /** What the search finds covers all layers. */
  lemma ChainTiles(v: View, layers: int, ns: seq<Node>, hosts: seq<Host>, p: seq<nat>)
    requires Placed(v, layers) && Shows(v, ns, hosts) && FullChain(hosts, layers, p)
    ensures WithinNodes(ns, p) && Tiling(v.nodes, layers, IdsAt(ns, p))
    ensures FixedPipelines.InRange(hosts, p) && NoRepeats(p)
  {
    hide FullChain, Placed, Shows;
    HeadFits(v, layers, ns, hosts, p);
    FullJoins(hosts, layers, p);
    assert forall k :: 0 <= k < |p| ==> Ranged(hosts, p[k]);
    JoinsTile(v, layers, ns, hosts, p);
    TilingOnce(v.nodes, layers, IdsAt(ns, p));
    assert forall a, b :: 0 <= a < b < |p| ==> IdsAt(ns, p)[a] != IdsAt(ns, p)[b];
  }

  lemma HeadFits(v: View, layers: int, ns: seq<Node>, hosts: seq<Host>, p: seq<nat>)
    requires Placed(v, layers) && Shows(v, ns, hosts) && FullChain(hosts, layers, p)
    ensures p != [] && Ranged(hosts, p[0]) && hosts[p[0]].range.start < hosts[p[0]].range.end && |hosts| == |ns|
  {
    hide Joins;
    assert IsActive(v, ns[p[0]].id);
  }

  lemma JoinsTile(v: View, layers: int, ns: seq<Node>, hosts: seq<Host>, p: seq<nat>)
    requires Placed(v, layers) && Shows(v, ns, hosts) && p != [] && Joins(hosts, p, 0, layers)
    ensures WithinNodes(ns, p) && Tiling(v.nodes, layers, IdsAt(ns, p))
  {
    forall k | 0 <= k < |p|
      ensures p[k] < |ns| && ns[p[k]].id in v.nodes
      ensures v.nodes[ns[p[k]].id].range == hosts[p[k]].range && Fits(hosts[p[k]].range, layers)
    {
      assert Ranged(hosts, p[k]);
      assert IsActive(v, ns[p[k]].id);
    }
  }

  /** Active nodes that cover all layers are found by the search. */
  lemma TilesChain(v: View, layers: int, ns: seq<Node>, hosts: seq<Host>, ids: seq<string>) returns (p: seq<nat>)
    requires Mirrors(v, ns, hosts) && Tiling(v.nodes, layers, ids)
    requires forall k :: 0 <= k < |ids| ==> IsActive(v, ids[k])
    ensures FullChain(hosts, layers, p) && WithinNodes(ns, p) && IdsAt(ns, p) == ids
  {
    hide FullChain, Tiling, Shows;
    p := ChainOf(v, layers, ns, hosts, ids);
  }

  /** Nodes the search looks at that cover all layers are found by it. */
  lemma ChainOf(v: View, layers: int, ns: seq<Node>, hosts: seq<Host>, ids: seq<string>) returns (p: seq<nat>)
    requires Shows(v, ns, hosts) && Tiling(v.nodes, layers, ids)
    requires forall k :: 0 <= k < |ids| ==> Named(ns, ids[k])
    ensures FullChain(hosts, layers, p) && WithinNodes(ns, p) && IdsAt(ns, p) == ids
  {
    hide FullChain;
    p := IndicesOf(ns, ids);
    forall k | 0 < k < |p|
      ensures hosts[p[k - 1]].range.end == hosts[p[k]].range.start
    {
      assert v.nodes[ids[k - 1]].range.end == v.nodes[ids[k]].range.start;
    }
    FullJoins(hosts, layers, p);
  }

  lemma {:induction false} IndicesOf(ns: seq<Node>, ids: seq<string>) returns (p: seq<nat>)
    requires forall k :: 0 <= k < |ids| ==> Named(ns, ids[k])
    ensures |p| == |ids| && forall k :: 0 <= k < |p| ==> p[k] < |ns| && ns[p[k]].id == ids[k]
  {
    if ids == [] {
      p := [];
    } else {
      var init := IndicesOf(ns, ids[..|ids| - 1]);
      assert Named(ns, ids[|ids| - 1]);
      var i :| 0 <= i < |ns| && ns[i].id == ids[|ids| - 1];
      p := init + [i];
    }
  }

  lemma ActiveMirrored(m: NodeManager, ns: seq<Node>, hosts: seq<Host>)
    requires m.Consistent()
    requires forall n :: n in ns ==> Filed(m.nodes, n) && m.state[n.id] == Active
    requires forall id :: id in m.nodes && m.state[id] == Active ==> m.nodes[id] in ns
    requires forall a, b :: 0 <= a < b < |ns| ==> ns[a].id != ns[b].id
    requires hosts == Snapshot(ns)
    ensures Mirrors(m.GetView(), ns, hosts)
  {
    var v := m.GetView();
    forall k | 0 <= k < |ns|
      ensures IsActive(v, ns[k].id) && hosts[k].range == v.nodes[ns[k].id].range
    {
      assert ns[k] in ns && Filed(m.nodes, ns[k]);
    }
    forall id | IsActive(v, id)
      ensures Named(ns, id)
    {
      var k :| 0 <= k < |ns| && ns[k] == m.nodes[id];
      FiledAt(m.order, m.nodes, id);
    }
  }

  ghost predicate PathsIn(ns: seq<Node>, picks: seq<seq<nat>>) {
    forall m :: 0 <= m < |picks| ==> WithinNodes(ns, picks[m])
  }

  function AllIdsAt(ns: seq<Node>, picks: seq<seq<nat>>): (r: seq<seq<string>>)
    requires PathsIn(ns, picks)
    ensures |r| == |picks| && forall m :: 0 <= m < |r| ==> r[m] == IdsAt(ns, picks[m])
  {
    seq(|picks|, m requires 0 <= m < |picks| => IdsAt(ns, picks[m]))
  }

  /** Disjoint picks that cover all layers can be registered as they are. */
  lemma PicksRegistrable(v: View, layers: int, ns: seq<Node>, hosts: seq<Host>, picks: seq<seq<nat>>)
    requires Placed(v, layers) && Shows(v, ns, hosts) && PathsIn(ns, picks) && AllDisjoint(picks)
    requires forall m :: 0 <= m < |picks| ==> FullChain(hosts, layers, picks[m])
    ensures Registrable(v.nodes, layers, AllIdsAt(ns, picks))
    ensures forall m :: 0 <= m < |picks| ==> Tiling(v.nodes, layers, AllIdsAt(ns, picks)[m])
  {
    var lists := AllIdsAt(ns, picks);
    forall m | 0 <= m < |picks|
      ensures Tiling(v.nodes, layers, lists[m]) && Arrangeable(v.nodes, layers, lists[m])
    {
      ChainTiles(v, layers, ns, hosts, picks[m]);
    }
    forall a, b, id | 0 <= a < b < |lists| && id in lists[a]
      ensures id !in lists[b]
    {
      var i :| 0 <= i < |lists[a]| && lists[a][i] == id;
      forall j | 0 <= j < |lists[b]|
        ensures lists[b][j] != id
      {
        assert Disjoint(picks[a], picks[b]);
        assert picks[a][i] in picks[a] && picks[b][j] in picks[b];
      }
    }
  }

  /** The registered pipelines are exactly the picks, in order, stage by stage. */
  ghost predicate Registers(m: NodeManager, ns: seq<Node>, picks: seq<seq<nat>>)
    reads m
  {
    && PathsIn(ns, picks)
    && (forall pid: nat :: pid in m.pipelines <==> pid < |picks|)
    && forall pid :: pid in m.pipelines ==> Ids(m.pipelines[pid]) == IdsAt(ns, picks[pid])
  }

  /** Disjoint routable full chains; every other one shares a node with them and is no faster than the first. */
  ghost predicate BestDisjoint(hosts: seq<Host>, layers: int, picks: seq<seq<nat>>) {
    && AllDisjoint(picks)
    && (forall m :: 0 <= m < |picks| ==> FullChain(hosts, layers, picks[m]) && Routable(hosts, picks[m]))
    && (layers > 0 ==>
          forall p :: FullChain(hosts, layers, p) && Routable(hosts, p) ==>
            Touches(picks, p) && CostOf(hosts, picks[0]).AtMost(CostOf(hosts, p)))
  }

  lemma NothingChosen(hosts: seq<Host>, layers: int)
    requires hosts == [] || layers <= 0
    ensures BestDisjoint(hosts, layers, [])
  {
  }

  lemma NothingToRegister(v: View, layers: int, ns: seq<Node>)
    ensures PathsIn(ns, []) && AllIdsAt(ns, []) == [] && Registrable(v.nodes, layers, [])
  {
  }

  /** Registering lists that already cover all layers keeps their order. */
  lemma Registered(m: NodeManager, ns: seq<Node>, picks: seq<seq<nat>>)
    requires PathsIn(ns, picks)
    requires ExtendedBy(Statuses(m.nodes), m.layers, map[], {}, 0, m.pipelines, m.memberOf.Keys, AllIdsAt(ns, picks))
    requires forall k :: 0 <= k < |picks| ==> Tiling(Statuses(m.nodes), m.layers, AllIdsAt(ns, picks)[k])
    ensures Registers(m, ns, picks)
  {
    hide Tiling, Statuses;
    var lists := AllIdsAt(ns, picks);
    forall k: nat | k < |picks|
      ensures k in m.pipelines && Ids(m.pipelines[k]) == lists[k]
    {
      assert Stands(Statuses(m.nodes), m.layers, m.pipelines, 0 + k, lists[k]);
    }
  }

  /** Active nodes that cover all layers and take `ms` milliseconds, from the nodes' own fields. */
  ghost predicate Serviceable(m: NodeManager, layers: int, ids: seq<string>, ms: real)
    reads m, m.nodes.Values
  {
    && Tiling(m.GetView().nodes, layers, ids)
    && (forall k :: 0 <= k < |ids| ==> IsActive(m.GetView(), ids[k]))
    && InTime(NodesOf(m, ids), ms)
  }

  ghost function NodesOf(m: NodeManager, ids: seq<string>): (r: seq<Node>)
    requires forall k :: 0 <= k < |ids| ==> ids[k] in m.nodes
    reads m
    ensures |r| == |ids| && forall k :: 0 <= k < |r| ==> r[k] == m.nodes[ids[k]]
  {
    seq(|ids|, k requires 0 <= k < |ids| && ids[k] in m.nodes reads m => m.nodes[ids[k]])
  }

  /** A pipeline is registered whenever active nodes can serve all layers in finite time; the first takes the least time. */
  ghost predicate FilledBest(m: NodeManager, layers: int)
    reads m, m.nodes.Values
  {
    && (m.pipelines != map[] <==> exists ids, ms :: Serviceable(m, layers, ids, ms))
    && (m.pipelines != map[] ==>
          0 in m.pipelines && exists least ::
            && Serviceable(m, layers, Ids(m.pipelines[0]), least)
            && forall ids, ms :: Serviceable(m, layers, ids, ms) ==> least <= ms)
  }

  /** The nodes of a path are those filed under its ids. */
  lemma FiledPath(m: NodeManager, ns: seq<Node>, p: seq<nat>)
    requires WithinNodes(ns, p) && forall n :: n in ns ==> Filed(m.nodes, n)
    ensures forall k :: 0 <= k < |p| ==> IdsAt(ns, p)[k] in m.nodes
    ensures NodesOf(m, IdsAt(ns, p)) == NodesAt(ns, p)
  {
    forall k | 0 <= k < |p|
      ensures IdsAt(ns, p)[k] in m.nodes && m.nodes[IdsAt(ns, p)[k]] == ns[p[k]]
    {
      assert ns[p[k]] in ns;
    }
  }

  /** Active nodes that can serve in finite time are a routable chain that costs as much. */
  lemma ServiceableRouted(m: NodeManager, layers: int, ns: seq<Node>, hosts: seq<Host>, ids: seq<string>, ms: real) returns (p: seq<nat>)
    requires Placed(m.GetView(), layers) && Mirrors(m.GetView(), ns, hosts) && hosts == Snapshot(ns)
    requires (forall n :: n in ns ==> Filed(m.nodes, n)) && Serviceable(m, layers, ids, ms)
    ensures FullChain(hosts, layers, p) && Routable(hosts, p) && CostOf(hosts, p) == Fin(ms)
  {
    hide FullChain, Shows, Tiling, Placed, CostOf, InTime, Snapshot, Statuses, AllIds;
    p := TilesChain(m.GetView(), layers, ns, hosts, ids);
    ChainTiles(m.GetView(), layers, ns, hosts, p);
    FiledPath(m, ns, p);
    NotEmpty(m.GetView().nodes, layers, ids);
    PathCost(ns, p);
  }

  lemma NotEmpty(nodes: map<string, Status>, layers: int, ids: seq<string>)
    requires Tiling(nodes, layers, ids)
    ensures ids != []
  {
  }

  /** A routable chain of active nodes can serve in the time it costs. */
  lemma RoutedServiceable(m: NodeManager, layers: int, ns: seq<Node>, hosts: seq<Host>, p: seq<nat>)
    requires Placed(m.GetView(), layers) && Mirrors(m.GetView(), ns, hosts) && hosts == Snapshot(ns)
    requires (forall n :: n in ns ==> Filed(m.nodes, n)) && FullChain(hosts, layers, p) && Routable(hosts, p)
    ensures WithinNodes(ns, p) && Serviceable(m, layers, IdsAt(ns, p), CostOf(hosts, p).ms)
  {
    hide FullChain, Tiling, Placed, CostOf, InTime, Snapshot, Statuses, AllIds;
    ChainTiles(m.GetView(), layers, ns, hosts, p);
    FiledPath(m, ns, p);
    PathCost(ns, p);
  }

  /** What the selection comes to in milliseconds. */
  lemma SelectionInTime(m: NodeManager, layers: int, ns: seq<Node>, hosts: seq<Host>, picks: seq<seq<nat>>)
    requires layers > 0 && Placed(m.GetView(), layers) && Mirrors(m.GetView(), ns, hosts) && hosts == Snapshot(ns)
    requires (forall n :: n in ns ==> Filed(m.nodes, n)) && Registers(m, ns, picks) && BestDisjoint(hosts, layers, picks)
    ensures FilledBest(m, layers)
  {
    hide Mirrors, FullChain, Routable, Placed, CostOf, Snapshot, Serviceable, Touches;
    if picks != [] {
      RoutableCost(hosts, picks[0]);
    }
    forall ids, ms | Serviceable(m, layers, ids, ms)
      ensures picks != [] && picks[0] != [] && FixedPipelines.InRange(hosts, picks[0]) && CostOf(hosts, picks[0]).AtMost(Fin(ms))
    {
      var p := ServiceableRouted(m, layers, ns, hosts, ids, ms);
      Touched(picks, p);
    }
    if picks != [] {
      RoutedServiceable(m, layers, ns, hosts, picks[0]);
      assert Ids(m.pipelines[0]) == IdsAt(ns, picks[0]);
    }
    assert m.pipelines != map[] <==> picks != [] by {
      assert picks != [] ==> 0 in m.pipelines;
    }
  }

  lemma Touched(picks: seq<seq<nat>>, p: seq<nat>)
    requires Touches(picks, p)
    ensures picks != []
  {
  }

  lemma RoutableCost(hosts: seq<Host>, p: seq<nat>)
    requires Routable(hosts, p)
    ensures p != [] && FixedPipelines.InRange(hosts, p) && CostOf(hosts, p).Fin?
  {
  }

  /** Every stage takes requests and is ready, none serves an older refit than asked for, and every hop is measured. */
  ghost predicate Viable(p: seq<Node>, last: Option<real>)
    reads p
  {
    && p != [] && (exists ms :: InTime(p, ms))
    && forall n :: n in p ==> n.ready && (last.Some? ==> n.lastRefit >= last.value)
  }

  lemma WholePath(p: seq<Node>, order: seq<nat>)
    requires p != [] && order == seq(|p|, k => k)
    ensures WithinNodes(p, order) && NodesAt(p, order) == p
    ensures CostOf(Snapshot(p), order).Fin? ==> InTime(p, CostOf(Snapshot(p), order).ms)
    ensures forall ms :: InTime(p, ms) ==> CostOf(Snapshot(p), order) == Fin(ms)
  {
    hide InTime, CostOf, Snapshot;
    assert NodesAt(p, order) == p;
    PathCost(p, order);
  }

  /** The milliseconds a pipeline takes, or infinity when it is not viable. */
  method CheckPipeline(p: seq<Node>, last: Option<real>) returns (cost: Cost)
    requires p != []
    ensures cost.Fin? <==> Viable(p, last)
    ensures cost.Fin? ==> InTime(p, cost.ms)
  {
    hide InTime, CostOf, Snapshot;
    for k := 0 to |p|
      invariant forall m :: 0 <= m < k ==> p[m].ready
    {
      if !p[k].ready {
        return Inf;
      }
    }
    var order: seq<nat> := seq(|p|, k => k);
    cost := EstimateLatency(Snapshot(p), order);
    WholePath(p, order);
    for k := 0 to |p|
      invariant cost.Fin? <==> (exists ms :: InTime(p, ms)) && forall m :: 0 <= m < k ==> (last.Some? ==> p[m].lastRefit >= last.value)
      invariant cost.Fin? ==> InTime(p, cost.ms)
    {
      if last.Some? && p[k].lastRefit < last.value {
        cost := Inf;
      }
    }
  }

  ghost predicate Sorted(s: seq<nat>) {
    forall a, b :: 0 <= a < b < |s| ==> s[a] < s[b]
  }

  /** The registered pids, ascending. */
  method SortedPids(m: NodeManager) returns (pids: seq<nat>)
    ensures Sorted(pids) && forall pid :: pid in pids <==> pid in m.pipelines
  {
    pids := [];
    var next := m.NextPid();
    for pid := 0 to next
      invariant Sorted(pids) && forall x :: x in pids <==> x < pid && x in m.pipelines
    {
      if pid in m.pipelines {
        assert forall k :: 0 <= k < |pids| ==> pids[k] in pids;
        pids := pids + [pid];
      }
    }
  }

  lemma TurnIs(viable: seq<bool>, start: nat, x: nat)
    requires start <= x < start + |viable| && Turn(viable, x) && forall y :: start <= y < x ==> !Turn(viable, y)
    ensures NextTurn(viable, start, |viable|) == x && AnyViable(viable)
  {
    assert viable[x % |viable|];
  }

  class Router {
    const manager: NodeManager
    const layers: int
    var cursor: nat

    constructor (manager: NodeManager, layers: int)
      ensures this.manager == manager && this.layers == layers && cursor == 0
    {
      this.manager, this.layers, cursor := manager, layers, 0;
    }

    /** Disjoint full pipelines over the active nodes, the fastest of all among them. */
    method Choose(ghost v: View, ns: seq<Node>, hosts: seq<Host>) returns (picks: seq<seq<nat>>)
      requires Placed(v, layers) && Mirrors(v, ns, hosts)
      ensures BestDisjoint(hosts, layers, picks)
      ensures PathsIn(ns, picks) && Registrable(v.nodes, layers, AllIdsAt(ns, picks))
      ensures forall m :: 0 <= m < |picks| ==> Tiling(v.nodes, layers, AllIdsAt(ns, picks)[m])
    {
      hide Shows, FullChain, Routable, Tiling, Registrable, Disjoint, CostOf, Touches, FastestHeadsFirst, Placed, FixedPipelines.InRange;
      if hosts == [] || layers <= 0 {
        NothingChosen(hosts, layers);
        NothingToRegister(v, layers, ns);
        return [];
      }
      var found := Discover(hosts, layers);
      forall p | p in found
        ensures FixedPipelines.InRange(hosts, p) && WithinNodes(ns, p)
      {
        ChainTiles(v, layers, ns, hosts, p);
      }
      var selection := SelectBest(hosts, found);
      picks := selection.pipelines;
      assert forall m :: 0 <= m < |picks| ==> picks[m] in found && WithinNodes(ns, picks[m]);
      PicksRegistrable(v, layers, ns, hosts, picks);
    }

    /** Takes the active nodes as hosts. */
    method Observe() returns (active: seq<Node>, hosts: seq<Host>)
      requires manager.Valid()
      ensures Mirrors(manager.GetView(), active, hosts) && hosts == Snapshot(active) && Placed(manager.GetView(), manager.layers)
      ensures forall n :: n in active ==> Filed(manager.nodes, n)
    {
      hide Mirrors, Placed, Mirrored, WellFiled, WellStaffed, Statuses, AllIds, Snapshot;
      active := manager.ActiveNodes();
      hosts := Snapshot(active);
      ActiveMirrored(manager, active, hosts);
    }

    /** Searches, selects and registers pipelines over the active nodes. */
    method Reselect() returns (r: Outcome, ghost ns: seq<Node>, ghost hosts: seq<Host>, ghost picks: seq<seq<nat>>)
      requires manager.Valid() && manager.layers == layers
      modifies manager`state, manager`pipelines, manager`memberOf
      ensures manager.Valid() && r.Done? && manager.state == old(manager.state) && manager.GetView().nodes == old(manager.GetView()).nodes
      ensures Mirrors(manager.GetView(), ns, hosts) && hosts == Snapshot(ns)
      ensures Registers(manager, ns, picks) && BestDisjoint(hosts, layers, picks) && (layers > 0 ==> FilledBest(manager, layers))
    {
      hide FilledBest, Mirrors, Tiling, Registrable, BestDisjoint, Lifecycle.Ok, Placed, WellFiled, WellStaffed, Statuses, AllIds, Registers, PathsIn, AllIdsAt, Snapshot, ExtendedBy;
      var active, observed := Observe();
      ns, hosts := active, observed;
      ghost var before := manager.GetView();
      var chosen := Choose(before, active, observed);
      picks := chosen;
      r := manager.RegisterPipelines(AllIdsAt(active, chosen));
      MirrorsSame(before, manager.GetView(), ns, hosts);
      Registered(manager, ns, picks);
      PlacedNow(manager);
      if layers > 0 {
        SelectionInTime(manager, layers, ns, hosts, picks);
      }
    }

    /**
     * Starts over with pipelines chosen among the active nodes; those of earlier pipelines go to
     * standby first. Nothing fails: the picks pass the overlap check, build as pipelines in the
     * order found, and register.
     */
    method Bootstrap() returns (r: Outcome, ghost ns: seq<Node>, ghost hosts: seq<Host>, ghost picks: seq<seq<nat>>)
      requires manager.Valid() && manager.layers == layers
      modifies this, manager`state, manager`pipelines, manager`memberOf, manager.nodes.Values
      ensures manager.Valid() && r.Done?
      ensures cursor == if old(manager.pipelines) == map[] then old(cursor) else 0
      ensures manager.GetView().nodes == ClearedAt(old(manager.GetView()).nodes, old(manager.memberOf).Keys)
      ensures manager.state == StandbyAt(old(manager.state), old(manager.memberOf).Keys)
      ensures Mirrors(manager.GetView(), ns, hosts) && hosts == Snapshot(ns)
      ensures Registers(manager, ns, picks) && BestDisjoint(hosts, layers, picks) && (layers > 0 ==> FilledBest(manager, layers))
    {
      hide FilledBest, Mirrors, BestDisjoint, Lifecycle.Ok, WellFiled, WellStaffed, Statuses, AllIds, Registers, Snapshot, ClearedAt, StandbyAt;
      Restart();
      r, ns, hosts, picks := Reselect();
    }

    /** Clears registered pipelines, if there are any, and starts the turns over. */
    method Restart()
      requires manager.Valid()
      modifies this, manager`state, manager`pipelines, manager`memberOf, manager.nodes.Values
      ensures manager.Valid() && cursor == if old(manager.pipelines) == map[] then old(cursor) else 0
      ensures manager.GetView().nodes == ClearedAt(old(manager.GetView()).nodes, old(manager.memberOf).Keys)
      ensures manager.state == StandbyAt(old(manager.state), old(manager.memberOf).Keys)
    {
      hide Lifecycle.Ok, WellFiled, WellStaffed, Statuses, AllIds, ClearedAt, StandbyAt;
      if manager.pipelines != map[] {
        var r := manager.ClearRegisteredPipelines();
        cursor := 0;
      } else {
        NobodyRegistered(manager);
      }
    }

    /** Takes turns over the registered pipelines, from the cursor on, until one is viable. */
    method Dispatch(last: Option<real>) returns (path: seq<string>, latency: Cost, ghost pids: seq<nat>, ghost viable: seq<bool>)
      requires manager.Valid()
      modifies this
      ensures Sorted(pids) && |viable| == |pids| && forall pid :: pid in pids <==> pid in manager.pipelines
      ensures forall k :: 0 <= k < |pids| ==> (viable[k] <==> Viable(manager.pipelines[pids[k]], last))
      ensures !AnyViable(viable) ==> path == [] && latency == Inf && cursor == old(cursor) + |pids|
      ensures AnyViable(viable) ==>
                var turn := NextTurn(viable, old(cursor), |viable|);
                var p := manager.pipelines[pids[turn % |viable|]];
                cursor == turn + 1 && path == Ids(p) && path != [] && latency.Fin? && InTime(p, latency.ms)
    {
      hide Lifecycle.Ok, WellFiled, WellStaffed, Statuses, AllIds, Viable, InTime, NextTurn, Turn, AnyViable, Ids, Sorted;
      var order := SortedPids(manager);
      pids := order;
      StagesKnown(manager);
      path, latency, viable := TakeTurns(order, last);
    }

    /** Asks the pipelines in turn, at most each once, moving the cursor on every time. */
    method TakeTurns(pids: seq<nat>, last: Option<real>) returns (path: seq<string>, latency: Cost, ghost viable: seq<bool>)
      requires forall pid :: pid in pids ==> pid in manager.pipelines && manager.pipelines[pid] != [] && Ids(manager.pipelines[pid]) != []
      modifies this
      ensures |viable| == |pids|
      ensures forall k :: 0 <= k < |pids| ==> pids[k] in pids && (viable[k] <==> Viable(manager.pipelines[pids[k]], last))
      ensures !AnyViable(viable) ==> path == [] && latency == Inf && cursor == old(cursor) + |pids|
      ensures AnyViable(viable) ==>
                var turn := NextTurn(viable, old(cursor), |viable|);
                var p := manager.pipelines[pids[turn % |viable|]];
                cursor == turn + 1 && path == Ids(p) && path != [] && latency.Fin? && InTime(p, latency.ms)
    {
      hide Viable, InTime, NextTurn, Turn, AnyViable, Ids;
      viable := Viabilities(pids, last);
      path, latency := [], Inf;
      ghost var start := cursor;
      var attempts := 0;
      while attempts < |pids|
        invariant attempts <= |pids| && cursor == start + attempts
        invariant forall y :: start <= y < cursor ==> !Turn(viable, y)
      {
        var at := cursor % |pids|;
        assert pids[at] in pids;
        var p := manager.pipelines[pids[at]];
        TurnAt(viable, cursor);
        cursor, attempts := cursor + 1, attempts + 1;
        var cost := CheckPipeline(p, last);
        if cost.Fin? {
          TurnIs(viable, start, cursor - 1);
          return Ids(p), cost, viable;
        }
      }
      NoTurn(viable, start);
    }

    /**
     * The pipeline to serve the next request, in turn; nothing when none is viable. An empty registry
     * is filled first, with the best disjoint pipelines over the active nodes.
     */
    method FindOptimalPath(last: Option<real>)
      returns (path: seq<string>, latency: Cost, ghost pids: seq<nat>, ghost viable: seq<bool>, ghost ns: seq<Node>, ghost hosts: seq<Host>, ghost picks: seq<seq<nat>>)
      requires manager.Valid() && manager.layers == layers
      modifies this, manager`state, manager`pipelines, manager`memberOf, manager.nodes.Values
      ensures manager.Valid() && (old(manager.pipelines) != map[] ==> manager.GetView() == old(manager.GetView()))
      ensures old(manager.pipelines) == map[] ==>
                && manager.GetView().nodes == old(manager.GetView()).nodes && manager.state == old(manager.state)
                && Mirrors(manager.GetView(), ns, hosts) && hosts == Snapshot(ns)
                && Registers(manager, ns, picks) && BestDisjoint(hosts, layers, picks) && (layers > 0 ==> FilledBest(manager, layers))
      ensures Sorted(pids) && |viable| == |pids| && forall pid :: pid in pids <==> pid in manager.pipelines
      ensures forall k :: 0 <= k < |pids| ==> (viable[k] <==> Viable(manager.pipelines[pids[k]], last))
      ensures path == [] <==> !AnyViable(viable)
      ensures !AnyViable(viable) ==> latency == Inf && cursor == old(cursor) + |pids|
      ensures AnyViable(viable) ==>
                var turn := NextTurn(viable, old(cursor), |viable|);
                var p := manager.pipelines[pids[turn % |viable|]];
                cursor == turn + 1 && path == Ids(p) && latency.Fin? && InTime(p, latency.ms)
    {
      hide FilledBest, Mirrors, BestDisjoint, Lifecycle.Ok, WellFiled, WellStaffed, Statuses, AllIds, Registers, Snapshot, ClearedAt, StandbyAt, Viable, InTime, NextTurn, Turn, AnyViable, Ids, Sorted;
      ns, hosts, picks := [], [], [];
      if manager.pipelines == map[] {
        NobodyRegistered(manager);
        ghost var r;
        r, ns, hosts, picks := Bootstrap();
      }
      path, latency, pids, viable := Dispatch(last);
    }

    ghost method Viabilities(pids: seq<nat>, last: Option<real>) returns (viable: seq<bool>)
      requires forall pid :: pid in pids ==> pid in manager.pipelines
      ensures |viable| == |pids|
      ensures forall k :: 0 <= k < |pids| ==> (viable[k] <==> Viable(manager.pipelines[pids[k]], last))
    {
      viable := [];
      for k := 0 to |pids|
        invariant |viable| == k
        invariant forall m :: 0 <= m < k ==> (viable[m] <==> Viable(manager.pipelines[pids[m]], last))
      {
        assert pids[k] in pids;
        viable := viable + [Viable(manager.pipelines[pids[k]], last)];
      }
    }
  }

  lemma StagesKnown(m: NodeManager)
    requires m.Valid()
    ensures forall pid :: pid in m.pipelines ==> m.pipelines[pid] != [] && Ids(m.pipelines[pid]) != []
  {
    forall pid | pid in m.pipelines
      ensures Ids(m.pipelines[pid]) != []
    {
      assert Serving(m.GetView(), m.layers, pid);
    }
  }

  lemma TurnAt(viable: seq<bool>, x: nat)
    requires viable != []
    ensures Turn(viable, x) <==> viable[x % |viable|]
  {
  }

  lemma NoTurn(viable: seq<bool>, start: nat)
    requires forall y :: start <= y < start + |viable| ==> !Turn(viable, y)
    ensures !AnyViable(viable)
  {
    TurnFound(viable, start);
  }

  lemma PlacedNow(m: NodeManager)
    requires m.Valid()
    ensures Placed(m.GetView(), m.layers)
  {
  }

  lemma NobodyRegistered(m: NodeManager)
    requires m.Valid() && m.pipelines == map[]
    ensures ClearedAt(m.GetView().nodes, m.memberOf.Keys) == m.GetView().nodes
    ensures StandbyAt(m.state, m.memberOf.Keys) == m.state
  {
    assert m.memberOf.Keys == {};
  }

  lemma MirrorsSame(v: View, w: View, ns: seq<Node>, hosts: seq<Host>)
    requires Mirrors(v, ns, hosts) && w.nodes == v.nodes && w.state == v.state
    ensures Mirrors(w, ns, hosts)
  {
    forall id | IsActive(w, id)
      ensures Named(ns, id)
    {
      assert IsActive(v, id);
    }
  }
}
