/** The scheduler's event handlers as steps over the node registry: joining, leaving, allocating, rebalancing. */
module Scheduling {
  import opened Hosts
  import opened Lifecycle
  import opened NodeManagement
  import opened NodeTiming
  import opened PipelineDiscovery
  import opened FixedPipelines
  import opened RoundRobin
  import opened Placements
  import opened Sequences
  import PipelineCounts

  /** What became of looking for more pipelines. */
  datatype Expansion = Skipped | Raised | Added | Overlapped

  /** Some active nodes cover all layers. */
  ghost predicate CanServe(v: View, layers: int) {
    exists ids :: CoveredBy(v, layers, ids)
  }

  ghost predicate CoveredBy(v: View, layers: int, ids: seq<string>) {
    Tiling(v.nodes, layers, ids) && forall k :: 0 <= k < |ids| ==> IsActive(v, ids[k])
  }

  /** A registered pipeline can serve. */
  lemma RegisteredServes(v: View, layers: int, pid: nat)
    requires Ok(v, layers) && pid in v.pipelines
    ensures CanServe(v, layers)
  {
    assert Serving(v, layers, pid);
    assert CoveredBy(v, layers, v.pipelines[pid]);
  }

  lemma StandsAs(statuses: map<string, Status>, layers: int, pipelines: map<nat, seq<Node>>, pid: nat, ids: seq<string>)
    requires Stands(statuses, layers, pipelines, pid, ids) && Tiling(statuses, layers, ids)
    ensures pid in pipelines && Ids(pipelines[pid]) == ids
  {
  }

  /** The nodes on standby. */
  ghost function Waiting(state: map<string, State>): set<string> {
    set id | id in state && state[id] == Standby
  }

  ghost function WaitingUpTo(order: seq<string>, state: map<string, State>, k: nat): set<string>
    requires k <= |order|
  {
    set id | id in order[..k] && id in state && state[id] == Standby
  }

  lemma WaitingNext(order: seq<string>, state: map<string, State>, k: nat)
    requires NoRepeats(order) && k < |order| && order[k] in state
    ensures order[k] !in WaitingUpTo(order, state, k)
    ensures WaitingUpTo(order, state, k + 1) == WaitingUpTo(order, state, k) + if state[order[k]] == Standby then {order[k]} else {}
  {
    assert order[..k + 1] == order[..k] + [order[k]];
  }

  lemma WaitingAll(order: seq<string>, state: map<string, State>)
    requires forall id :: id in order <==> id in state
    ensures WaitingUpTo(order, state, |order|) == Waiting(state)
  {
    assert order[..|order|] == order;
  }

  method CountWaiting(order: seq<string>, state: map<string, State>) returns (n: nat)
    requires NoRepeats(order) && forall id :: id in order <==> id in state
    ensures n == |Waiting(state)|
  {
    hide NoRepeats, Waiting, WaitingUpTo;
    n := 0;
    assert WaitingUpTo(order, state, 0) == {} by {
      NoneUpTo(order, state);
    }
    for k := 0 to |order|
      invariant n == |WaitingUpTo(order, state, k)|
    {
      assert order[k] in order;
      WaitingNext(order, state, k);
      if state[order[k]] == Standby {
        n := n + 1;
      }
    }
    WaitingAll(order, state);
  }

  lemma NoneUpTo(order: seq<string>, state: map<string, State>)
    ensures WaitingUpTo(order, state, 0) == {}
  {
  }

  /** The registry a reboot starts from: the pipelines are dissolved and their members on standby. */
  ghost function Rebooted(v: View): View {
    StoodBy(v, v.memberOf.Keys).(pipelines := map[], memberOf := map[])
  }

  /** The registry after every active node was sent to standby. */
  ghost function AllDown(v: View): View {
    StoodBy(v, set id | id in v.state && v.state[id] == Active)
  }

  /** Exactly the nodes that are active now and were not before, each once. */
  ghost predicate Newcomers(nodes: map<string, Node>, state: map<string, State>, before: map<string, State>, newly: seq<Node>) {
    && (forall n :: n in newly ==> Filed(nodes, n) && NewlyIn(state, before, n.id))
    && (forall a, b :: 0 <= a < b < |newly| ==> newly[a].id != newly[b].id)
    && (forall id :: id in nodes && NewlyIn(state, before, id) ==> nodes[id] in newly)
  }

  predicate NewlyIn(state: map<string, State>, before: map<string, State>, id: string) {
    id in state && state[id] == Active && !(id in before && before[id] == Active)
  }

  /** Some full chain of the hosts has a finite latency. */
  ghost predicate Routes(hosts: seq<Host>, layers: int) {
    exists p :: FullChain(hosts, layers, p) && Routable(hosts, p)
  }

  /** The count of full pipelines is positive exactly when active nodes can serve. */
  lemma CountServes(v: View, layers: int, ns: seq<Node>, hosts: seq<Host>)
    requires Placed(v, layers) && Mirrors(v, ns, hosts)
    ensures (exists p :: PipelineCounts.Chosen(hosts, layers, false, p)) <==> CanServe(v, layers)
    ensures !exists i: nat :: PipelineCounts.Misplaced(hosts, layers, false, i)
  {
    hide Joins, FullChain, Tiling;
    if p :| PipelineCounts.Chosen(hosts, layers, false, p) {
      ChainTiles(v, layers, ns, hosts, p);
      assert CoveredBy(v, layers, IdsAt(ns, p));
    }
    if CanServe(v, layers) {
      var ids :| CoveredBy(v, layers, ids);
      var p := TilesChain(v, layers, ns, hosts, ids);
      ChainTiles(v, layers, ns, hosts, p);
      forall k | 0 <= k < |p|
        ensures p[k] < |hosts|
      {
        assert IdsAt(ns, p)[k] == ids[k] && IsActive(v, ns[p[k]].id);
      }
      assert PipelineCounts.Chosen(hosts, layers, false, p);
    }
    forall i: nat
      ensures !PipelineCounts.Misplaced(hosts, layers, false, i)
    {
      if i < |hosts| {
        assert IsActive(v, ns[i].id);
      }
    }
  }

  ghost function LeftAll(v: View, ids: seq<string>): View {
    if ids == [] then v
    else
      var w := LeftAll(v, ids[..|ids| - 1]);
      if ids[|ids| - 1] in w.nodes then Left(w, ids[|ids| - 1]) else w
  }

  class Scheduler {
    const manager: NodeManager
    const router: Router
    const layers: int
    const minNodes: int
    var bootstrapped: bool

    constructor (layers: int, minNodes: int)
      requires layers > 0
      ensures Valid() && !bootstrapped && manager.nodes == map[] && this.layers == layers && this.minNodes == minNodes
      ensures fresh(manager) && fresh(router)
    {
      var m := new NodeManager(layers);
      var r := new Router(m, layers);
      manager, router, this.layers, this.minNodes, bootstrapped := m, r, layers, minNodes, false;
    }

    /** The registry is sound, and only a bootstrapped scheduler has pipelines. */
    ghost predicate Valid()
      reads this, manager, manager.nodes.Values, router
    {
      && layers > 0 && manager.layers == layers && router.layers == layers && router.manager == manager
      && manager.Valid()
      && (!bootstrapped ==> manager.pipelines == map[])
    }

    /** Whether active nodes cover all layers; counting never meets a bad range. */
    method HasFullPipeline() returns (has: bool)
      requires manager.Valid() && router.manager == manager && manager.layers == layers > 0
      ensures has <==> CanServe(manager.GetView(), layers)
    {
      hide Mirrors, Ok, WellFiled, WellStaffed, Statuses, AllIds, CanServe, Snapshot, PipelineCounts.Chosen;
      var ns, hosts := router.Observe();
      CountServes(manager.GetView(), layers, ns, hosts);
      var invalid;
      has, invalid := PipelineCounts.HasFullPipeline(hosts, layers, false);
    }

    /**
     * One run of the allocator, taken as a plan. It raises exactly when the plan does, or when a
     * placement is refused; what was placed before stays, and only a refused placement that already
     * wrote to a node can leave the registry unsound. Success means the active nodes can serve.
     */
    method AllocateFromStandby(plan: Allotment) returns (ok: bool, raised: bool)
      requires manager.Valid() && router.manager == manager && manager.layers == layers > 0
      modifies manager`state, manager.nodes.Values
      ensures manager.Consistent() && manager.GetView() == AfterRun(old(manager.GetView()), layers, plan.placements)
      ensures raised <==> Raises(old(manager.state), layers, plan)
      ensures !Spoils(old(manager.GetView()), layers, plan.placements) ==> manager.Valid()
      ensures !raised ==> manager.Valid() && manager.GetView() == PlacedAll(old(manager.GetView()), plan.placements)
      ensures ok <==> !raised && plan.placements != [] && CanServe(manager.GetView(), layers)
    {
      hide Ok, WellFiled, WellStaffed, Statuses, AllIds, CanServe, Placeable, PlacedAll, AfterRun, Attempted, Spoils, StopsAt;
      ok, raised := false, false;
      ghost var before, ps := manager.GetView(), plan.placements;
      NothingPlaced(before, layers, ps);
      for k := 0 to |plan.placements|
        invariant manager.Valid() && Placeable(before.state, layers, ps[..k]) && manager.GetView() == PlacedAll(before, ps[..k])
      {
        var p := plan.placements[k];
        PlacedNext(before, layers, ps, k);
        if p.id !in manager.nodes {
          RunEnds(before, layers, ps, k);
          return false, true;
        }
        FiledAt(manager.order, manager.nodes, p.id);
        var r := manager.Allocate(manager.nodes[p.id], p.start, p.end);
        if !r.Done? {
          RunEnds(before, layers, ps, k);
          return false, true;
        }
      }
      assert ps[..|ps|] == ps;
      AfterAll(before, layers, ps);
      if plan.raises {
        return false, true;
      }
      if plan.placements != [] {
        ok := HasFullPipeline();
      }
    }

    /** How many nodes are on standby. */
    method CountStandby() returns (n: nat)
      requires manager.Valid()
      ensures n == |Waiting(manager.state)|
      ensures n == |manager.order| <==> forall id :: id in manager.nodes ==> manager.state[id] == Standby
    {
      hide Ok, WellStaffed, Statuses, AllIds;
      n := CountWaiting(manager.order, manager.state);
      AllWaiting(manager);
    }

    /** The registry is sound and as before, but for what a run of the allocator did to nodes and states. */
    ghost predicate RanOn(v: View, plan: Allotment)
      reads manager, manager.nodes.Values
    {
      var w := AfterRun(v, layers, plan.placements);
      manager.GetView().nodes == w.nodes && manager.GetView().state == w.state
    }

    /** Allocates, then registers pipelines if the active nodes can serve. */
    method Launch(plan: Allotment) returns (ok: bool, raised: bool, r: Outcome, ghost ns: seq<Node>, ghost hosts: seq<Host>, ghost picks: seq<seq<nat>>)
      requires Valid() && manager.pipelines == map[] && !bootstrapped
      modifies this`bootstrapped, router, manager`state, manager`pipelines, manager`memberOf, manager.nodes.Values
      ensures manager.Consistent() && r.Done? && ok == bootstrapped && RanOn(old(manager.GetView()), plan)
      ensures !Spoils(old(manager.GetView()), layers, plan.placements) || !raised ==> Valid()
      ensures raised <==> Raises(old(manager.state), layers, plan)
      ensures ok <==> !raised && plan.placements != [] && CanServe(PlacedAll(old(manager.GetView()), plan.placements), layers)
      ensures ok ==> CanServe(manager.GetView(), layers) && Launched(ns, hosts, picks)
      ensures !ok ==> manager.pipelines == map[] && manager.memberOf == map[]
    {
      hide Ok, NodeManager.Consistent, Statuses, AllIds, CanServe, Launched, PlacedAll, Placeable, Raises, AfterRun, Spoils;
      r, ns, hosts, picks := Done, [], [], [];
      ghost var before := manager.GetView();
      NoMembers(manager);
      ok, raised := AllocateFromStandby(plan);
      if !ok {
        return;
      }
      ghost var served := manager.GetView();
      r, ns, hosts, picks := Register();
      ServesSame(served, manager.GetView(), layers);
      bootstrapped := true;
    }

    /**
     * The registered pipelines are the best disjoint ones over the active nodes as the router sees
     * them; there is one exactly when some chain of the active nodes is routable.
     */
    ghost predicate Launched(ns: seq<Node>, hosts: seq<Host>, picks: seq<seq<nat>>)
      reads manager, manager.nodes.Values, ns
    {
      && Mirrors(manager.GetView(), ns, hosts) && hosts == Snapshot(ns)
      && Registers(manager, ns, picks) && BestDisjoint(hosts, layers, picks)
      && (manager.pipelines != map[] <==> Routes(hosts, layers)) && FilledBest(manager, layers)
    }

    /** Registers pipelines over the active nodes, which stay as they are. */
    method Register() returns (r: Outcome, ghost ns: seq<Node>, ghost hosts: seq<Host>, ghost picks: seq<seq<nat>>)
      requires manager.Valid() && manager.layers == layers > 0 && router.layers == layers && router.manager == manager
      requires manager.pipelines == map[]
      modifies router, manager`state, manager`pipelines, manager`memberOf, manager.nodes.Values
      ensures manager.Valid() && r.Done? && Launched(ns, hosts, picks)
      ensures manager.GetView().nodes == old(manager.GetView()).nodes && manager.state == old(manager.state)
    {
      hide Ok, WellFiled, WellStaffed, Statuses, AllIds, ClearedAt, StandbyAt, Mirrors, Registers, BestDisjoint, Snapshot, Routes, FilledBest;
      NobodyRegistered(manager);
      r, ns, hosts, picks := router.Bootstrap();
      RoutedRegistry(manager, layers, ns, hosts, picks);
    }

    /** Two stages between which no round-trip time was measured serve all layers, yet no pipeline is registered. */
    lemma UnmeasuredUnregistered(ns: seq<Node>, hosts: seq<Host>, picks: seq<seq<nat>>, cut: int)
      requires Launched(ns, hosts, picks) && |hosts| == 2 && 0 < cut < layers
      requires hosts[0].range == Layers(0, cut) && hosts[1].range == Layers(cut, layers)
      requires hosts[0].id != hosts[1].id && hosts[0].rtts == map[] == hosts[1].rtts
      ensures FullChain(hosts, layers, [0, 1]) && manager.pipelines == map[]
    {
      hide Mirrors, Registers, BestDisjoint, Snapshot, FilledBest;
      UnmeasuredUnrouted(hosts, layers, cut);
    }

    /** Whether a bootstrap gets as far as allocating. */
    ghost predicate Runs(reboot: bool)
      reads this, manager
    {
      reboot || (!bootstrapped && |Waiting(manager.state)| >= minNodes)
    }

    /** What a bootstrap starts from. */
    ghost function Start(reboot: bool): View
      reads this, manager, manager.nodes.Values
    {
      if reboot then Rebooted(manager.GetView()) else manager.GetView()
    }

    /**
     * Allocates and registers pipelines. A reboot starts over; otherwise nothing happens when the
     * scheduler is already bootstrapped or too few nodes wait. It raises exactly when the allocator
     * it runs does, and is then not bootstrapped, with no pipeline registered and the nodes as the
     * allocator left them.
     */
    method Bootstrap(reboot: bool, plan: Allotment) returns (ok: bool, raised: bool, r: Outcome, ghost ns: seq<Node>, ghost hosts: seq<Host>, ghost picks: seq<seq<nat>>)
      requires Valid()
      modifies this`bootstrapped, router, manager`state, manager`pipelines, manager`memberOf, manager.nodes.Values
      ensures manager.Consistent() && r.Done? && ok == bootstrapped
      ensures !(raised && Spoils(old(Start(reboot)), layers, plan.placements)) ==> Valid()
      ensures raised <==> old(Runs(reboot)) && Raises(old(Start(reboot)).state, layers, plan)
      ensures ok <==>
              || (!reboot && old(bootstrapped))
              || (old(Runs(reboot)) && !raised && plan.placements != [] && CanServe(PlacedAll(old(Start(reboot)), plan.placements), layers))
      ensures !old(Runs(reboot)) ==> manager.GetView() == old(manager.GetView())
      ensures old(Runs(reboot)) ==> RanOn(old(Start(reboot)), plan)
      ensures old(Runs(reboot)) && !ok ==> manager.pipelines == map[] && manager.memberOf == map[]
      ensures old(Runs(reboot)) && ok ==> CanServe(manager.GetView(), layers) && Launched(ns, hosts, picks)
    {
      hide Ok, WellFiled, WellStaffed, Statuses, AllIds, CanServe, ClearedAt, StandbyAt, PlacedAll, Raises, Launched, Waiting, RanOn, Spoils;
      raised, r, ns, hosts, picks := false, Done, [], [], [];
      if reboot {
        r := manager.ClearRegisteredPipelines();
        bootstrapped := false;
        assert manager.GetView().pipelines == map[];
      } else if bootstrapped {
        ok := true;
        return;
      } else {
        var waiting := CountStandby();
        if waiting < minNodes {
          ok := false;
          return;
        }
      }
      ok, raised, r, ns, hosts, picks := Launch(plan);
    }

    /** A node leaves; only an unknown id is refused. */
    method Leave(id: string) returns (r: Outcome)
      requires Valid()
      modifies manager, manager.nodes.Values
      ensures Valid()
      ensures r == if id in old(manager.nodes) then Done else NotFound(id)
      ensures manager.GetView() == if id in old(manager.nodes) then Left(old(manager.GetView()), id) else old(manager.GetView())
      ensures manager.nodes == old(manager.nodes) - {id}
    {
      hide Ok, WellFiled, WellStaffed, Statuses, AllIds, Left;
      if id !in manager.nodes {
        assert manager.nodes == manager.nodes - {id};
        return NotFound(id);
      }
      LeftOnlyLess(manager.GetView(), id);
      r := manager.Remove(id);
    }

    /** Drains the leaves; known nodes go, unknown ids are passed over. */
    method DrainLeaves(ids: seq<string>) returns (any: bool)
      requires Valid()
      modifies manager, manager.nodes.Values
      ensures Valid() && manager.GetView() == LeftAll(old(manager.GetView()), ids)
      ensures any <==> exists k :: 0 <= k < |ids| && ids[k] in old(manager.nodes)
      ensures manager.nodes.Values <= old(manager.nodes).Values
    {
      hide Ok, WellFiled, WellStaffed, Statuses, AllIds, Left;
      any := false;
      ghost var before := manager.GetView();
      for k := 0 to |ids|
        invariant Valid() && manager.GetView() == LeftAll(before, ids[..k])
        invariant any <==> exists j :: 0 <= j < k && ids[j] in old(manager.nodes)
        invariant !any ==> manager.nodes == old(manager.nodes)
        invariant manager.nodes.Keys <= old(manager.nodes).Keys
        invariant manager.nodes.Values <= old(manager.nodes).Values
      {
        assert ids[..k + 1][..k] == ids[..k];
        assert manager.nodes.Keys == manager.GetView().nodes.Keys;
        ghost var nodes0 := manager.nodes;
        var r := Leave(ids[k]);
        FewerValues(nodes0, ids[k]);
        if r.Done? {
          any := true;
        }
      }
      assert ids[..|ids|] == ids;
    }

    /** The ids of the active nodes, all of which can go to standby. */
    method ActiveIds() returns (ids: seq<string>)
      requires manager.Consistent()
      ensures CanStandBy(manager.state, ids, false)
      ensures forall id :: id in manager.nodes && manager.state[id] == Active ==> id in ids
    {
      hide WellFiled, WellStaffed, CanStandBy, Ids;
      var active := manager.ActiveNodes();
      AllActive(manager, active);
      ids := Ids(active);
    }

    /** Sends every active node to standby, and checks that none is left. */
    method StandDown() returns (r: Outcome)
      requires Valid() && manager.pipelines == map[]
      modifies manager`state, manager.nodes.Values
      ensures Valid() && r.Done? && manager.pipelines == map[] && manager.GetView() == AllDown(old(manager.GetView()))
    {
      hide Ok, WellFiled, WellStaffed, Statuses, AllIds, ClearedAt, StandbyAt, CanStandBy, SetOf, Waiting;
      var ids := ActiveIds();
      NoMembers(manager);
      ghost var before := manager.GetView();
      ActiveListed(before, ids);
      r := manager.StandBy(ids);
      if !r.Done? {
        return;
      }
      AllOnStandby(before, layers);
      var waiting := CountStandby();
      if waiting != |manager.order| {
        r := WrongState("");
      }
    }

    /**
     * Handles pending leaves, then rebalances once if the active nodes can no longer serve. By then
     * no pipeline is left and every active node can go to standby, so only the allocator can raise;
     * the scheduler is then not bootstrapped.
     */
    method ProcessLeaves(ids: seq<string>, plan: Allotment) returns (fired: bool, raised: bool, r: Outcome)
      requires Valid()
      modifies this`bootstrapped, router, manager, manager.nodes.Values
      ensures manager.Consistent() && r.Done?
      ensures !(raised && Spoils(AllDown(LeftAll(old(manager.GetView()), ids)), layers, plan.placements)) ==> Valid()
      ensures fired <==>
              && (exists k :: 0 <= k < |ids| && ids[k] in old(manager.nodes))
              && !CanServe(LeftAll(old(manager.GetView()), ids), layers) && LeftAll(old(manager.GetView()), ids).nodes != map[]
      ensures !fired ==> !raised && manager.GetView() == LeftAll(old(manager.GetView()), ids) && bootstrapped == old(bootstrapped)
      ensures fired ==>
                var left := LeftAll(old(manager.GetView()), ids);
                && left.pipelines == map[]
                && (raised <==> Raises(AllDown(left).state, layers, plan))
                && (bootstrapped <==> !raised && plan.placements != [] && CanServe(PlacedAll(AllDown(left), plan.placements), layers))
                && RanOn(AllDown(left), plan)
                && (bootstrapped ==> CanServe(manager.GetView(), layers))
                && (!bootstrapped ==> manager.pipelines == map[] && manager.memberOf == map[])
    {
      hide Ok, WellFiled, WellStaffed, Statuses, AllIds, CanServe, LeftAll, AllDown, Rebooted, Raises, PlacedAll, Launched, RanOn, Spoils;
      fired, raised, r := false, false, Done;
      var any := DrainLeaves(ids);
      if !any {
        return;
      }
      var has := HasFullPipeline();
      if has || manager.nodes == map[] {
        return;
      }
      NothingServing(manager, layers);
      ghost var left := manager.GetView();
      fired := true;
      r := StandDown();
      if r.Done? {
        RebootedDown(left, layers);
        var ok;
        ghost var ns, hosts, picks;
        ok, raised, r, ns, hosts, picks := Bootstrap(true, plan);
      }
    }

    /** The nodes that are active now and were not before. */
    method NewlyActive(before: map<string, State>) returns (newly: seq<Node>)
      requires manager.Consistent()
      ensures Newcomers(manager.nodes, manager.state, before, newly)
    {
      hide WellStaffed;
      var active := manager.ActiveNodes();
      newly := [];
      for k := 0 to |active|
        invariant forall n :: n in newly ==> n in active[..k] && !(n.id in before && before[n.id] == Active)
        invariant forall a, b :: 0 <= a < b < |newly| ==> newly[a].id != newly[b].id
        invariant forall n :: n in active[..k] && !(n.id in before && before[n.id] == Active) ==> n in newly
      {
        var n := active[k];
        assert active[..k + 1] == active[..k] + [n];
        if NewlyIn(manager.state, before, n.id) {
          forall a | 0 <= a < |newly|
            ensures newly[a].id != n.id
          {
            assert newly[a] in active[..k];
          }
          newly := newly + [n];
        }
      }
      assert active[..|active|] == active;
    }

    /** The chains follow the earlier pipelines, stage by stage. */
    ghost predicate Follow(before: map<nat, seq<Node>>, newly: seq<Node>, found: seq<seq<nat>>, from: nat)
      reads manager
    {
      && PathsIn(newly, found)
      && (forall pid :: pid in manager.pipelines <==> pid in before || from <= pid < from + |found|)
      && (forall pid :: pid in before ==> pid < from && manager.pipelines[pid] == before[pid])
      && (forall pid :: from <= pid < from + |found| ==> Ids(manager.pipelines[pid]) == IdsAt(newly, found[pid - from]))
    }

    /** Adds the found pipelines whose nodes have none yet. */
    method EnrollFound(newly: seq<Node>, ghost hosts: seq<Host>, found: seq<seq<nat>>) returns (overlap: bool, ghost from: nat)
      requires manager.Valid() && manager.layers == layers && Shows(manager.GetView(), newly, hosts)
      requires forall p :: p in found ==> FullChain(hosts, layers, p)
      requires PathsIn(newly, found)
      requires forall n :: n in newly ==> n.id !in manager.memberOf
      modifies manager`state, manager`pipelines, manager`memberOf
      ensures manager.Consistent() && manager.state == old(manager.state)
      ensures Ok(manager.GetView(), layers) <==> !overlap
      ensures overlap <==> !AllDisjoint(found)
      ensures !overlap ==> Follow(old(manager.pipelines), newly, found, from)
    {
      hide Ok, WellFiled, WellStaffed, Statuses, AllIds, FullChain, Shows, Registrable, Arrangeable, NewTo, AllDisjoint, PathsIn, ExtendedBy, NonEmpty, Untaken, AllIdsAt, Placed, Tiling;
      var lists := AllIdsAt(newly, found);
      ShowsPlaced(manager.GetView(), layers);
      FoundRegistrable(manager.GetView(), layers, newly, hosts, found, manager.memberOf.Keys);
      var filtered := Untaken(lists, manager.memberOf.Keys);
      ghost var before, members := manager.pipelines, manager.memberOf.Keys;
      var r;
      r, from := manager.ExtendRegisteredPipelines(filtered);
      overlap := r.AlreadyMember?;
      if !overlap {
        Followed(before, members, newly, found, from);
      }
    }

    /** Chains that already cover all layers are registered in their order. */
    lemma Followed(before: map<nat, seq<Node>>, members: set<string>, newly: seq<Node>, found: seq<seq<nat>>, from: nat)
      requires PathsIn(newly, found)
      requires ExtendedBy(Statuses(manager.nodes), layers, before, members, from, manager.pipelines, manager.memberOf.Keys, AllIdsAt(newly, found))
      requires forall m :: 0 <= m < |found| ==> Tiling(Statuses(manager.nodes), layers, AllIdsAt(newly, found)[m])
      ensures Follow(before, newly, found, from)
    {
      hide Tiling, Statuses, InSome, Stands, PathsIn;
      var lists := AllIdsAt(newly, found);
      forall pid: nat | from <= pid < from + |found|
        ensures pid in manager.pipelines && Ids(manager.pipelines[pid]) == lists[pid - from]
      {
        var m: nat := pid - from;
        assert Stands(Statuses(manager.nodes), layers, manager.pipelines, from + m, lists[m]);
        StandsAs(Statuses(manager.nodes), layers, manager.pipelines, pid, lists[m]);
      }
    }

    /** What is known once chains were looked for among the newcomers. */
    ghost predicate Searched(before: map<string, State>, newly: seq<Node>, hosts: seq<Host>, found: seq<seq<nat>>)
      reads manager, newly
    {
      && Newcomers(manager.nodes, manager.state, before, newly) && hosts == Snapshot(newly)
      && NoRepeats(found) && forall p :: p in found <==> FullChain(hosts, layers, p)
    }

    /** Whether looking for more pipelines gets as far as the search: waiting nodes were placed and the active ones serve. */
    ghost predicate Searches(v: View, plan: Allotment) {
      Waiting(v.state) != {} && !Raises(v.state, layers, plan) && plan.placements != [] && CanServe(PlacedAll(v, plan.placements), layers)
    }

    /** Two different covers by the placed nodes share a node. */
    ghost predicate Overlaps(v: View, plan: Allotment) {
      !Raises(v.state, layers, plan) && CoversOverlap(PlacedAll(v, plan.placements), layers, Targets(plan.placements))
    }

    /** What looking for more pipelines makes of the registry, besides adding them. */
    ghost predicate Expanded(e: Expansion, v: View, plan: Allotment)
      reads manager, manager.nodes.Values
    {
      && (e.Raised? <==> Waiting(v.state) != {} && Raises(v.state, layers, plan))
      && (e.Added? || e.Overlapped? <==> Searches(v, plan))
      && (e.Overlapped? <==> Overlaps(v, plan))
      && (e.Skipped? && Waiting(v.state) == {} ==> manager.GetView() == v)
      && (e.Skipped? && Waiting(v.state) != {} ==> manager.GetView() == PlacedAll(v, plan.placements))
      && (e.Raised? ==> manager.GetView() == AfterRun(v, layers, plan.placements))
      && (e.Added? || e.Overlapped? ==> RanOn(v, plan))
      && (Ok(manager.GetView(), layers) <==> !e.Overlapped? && (e.Raised? ==> Ok(AfterRun(v, layers, plan.placements), layers)))
      && (!e.Overlapped? && !(e.Raised? && Spoils(v, layers, plan.placements)) ==> Ok(manager.GetView(), layers))
    }

    /**
     * Allocates waiting nodes and adds every pipeline found among the nodes that became active.
     * Unless it gets to the search the pipelines stay as they are. The search leaves the registry
     * sound exactly when no two different covers by the placed nodes share a node; otherwise the
     * failure is swallowed and a pipeline stays half registered.
     */
    method ExpandPipelines(plan: Allotment) returns (e: Expansion, ghost newly: seq<Node>, ghost hosts: seq<Host>, ghost found: seq<seq<nat>>)
      requires Valid() && bootstrapped
      modifies manager`state, manager`pipelines, manager`memberOf, manager.nodes.Values
      ensures manager.Consistent() && manager.layers == layers && Expanded(e, old(manager.GetView()), plan)
      ensures e.Skipped? || e.Raised? ==> manager.pipelines == old(manager.pipelines) && manager.memberOf == old(manager.memberOf)
      ensures e.Added? || e.Overlapped? ==> Searched(old(manager.state), newly, hosts, found)
      ensures e.Added? ==> exists from :: Follow(old(manager.pipelines), newly, found, from)
    {
      hide Valid, Expanded, Ok, WellFiled, WellStaffed, Statuses, AllIds, CanServe, PlacedAll, AfterRun, Spoils, Placeable, Raises, CoversOverlap, Follow, Searched, Targets, Waiting;
      e, newly, hosts, found := Skipped, [], [], [];
      Ready();
      ghost var view := manager.GetView();
      var waiting := exists id :: id in manager.nodes && manager.state[id] == Standby;
      if !waiting {
        NotLooked(view, plan);
        return;
      }
      SomebodyWaits(manager);
      var before := manager.state;
      var ok, raised;
      ok, raised := AllocateFromStandby(plan);
      if raised {
        RunRaised(view, plan);
        return Raised, [], [], [];
      }
      if !ok {
        NotServing(view, plan);
        return;
      }
      var overlap;
      overlap, newly, hosts, found := EnrollNewcomers(before, view, plan);
      e := if overlap then Overlapped else Added;
      SearchDone(view, plan, overlap);
    }

    lemma Ready()
      requires Valid()
      ensures manager.Valid() && manager.layers == layers > 0 && router.manager == manager && Ok(manager.GetView(), layers)
    {
    }

    lemma NotLooked(v: View, plan: Allotment)
      requires Ok(v, layers) && manager.GetView() == v && forall id :: id in v.nodes ==> v.state[id] != Standby
      ensures Expanded(Skipped, v, plan)
    {
      hide Ok, PlacedAll, AfterRun, Spoils, Raises, CoversOverlap, Targets, CanServe, Waiting;
      NobodyWaits(v, layers, plan);
    }

    lemma RunRaised(v: View, plan: Allotment)
      requires manager.GetView() == AfterRun(v, layers, plan.placements) && Waiting(v.state) != {} && Raises(v.state, layers, plan)
      requires !Spoils(v, layers, plan.placements) ==> Ok(manager.GetView(), layers)
      ensures Expanded(Raised, v, plan)
    {
      hide Ok, PlacedAll, AfterRun, Spoils, Raises, CoversOverlap, Targets, CanServe, Waiting;
    }

    lemma NotServing(v: View, plan: Allotment)
      requires Ok(v, layers) && Waiting(v.state) != {} && !Raises(v.state, layers, plan)
      requires manager.GetView() == PlacedAll(v, plan.placements) && Ok(manager.GetView(), layers)
      requires plan.placements == [] || !CanServe(manager.GetView(), layers)
      ensures Expanded(Skipped, v, plan)
    {
      hide Ok, PlacedAll, AfterRun, Spoils, Raises, CoversOverlap, Targets, CanServe, Waiting;
      OverlapServes(v, layers, plan);
    }

    lemma SearchDone(v: View, plan: Allotment, overlap: bool)
      requires Waiting(v.state) != {} && !Raises(v.state, layers, plan) && plan.placements != [] && CanServe(PlacedAll(v, plan.placements), layers)
      requires RanOn(v, plan) && (Ok(manager.GetView(), layers) <==> !overlap)
      requires overlap <==> CoversOverlap(PlacedAll(v, plan.placements), layers, Targets(plan.placements))
      ensures Expanded(if overlap then Overlapped else Added, v, plan)
    {
      hide Ok, PlacedAll, AfterRun, Spoils, Raises, CoversOverlap, Targets, CanServe, Waiting, RanOn;
    }

    /** Searches the nodes that became active for pipelines and adds them. */
    method EnrollNewcomers(before: map<string, State>, ghost view: View, ghost plan: Allotment)
      returns (overlap: bool, ghost newly: seq<Node>, ghost hosts: seq<Host>, ghost found: seq<seq<nat>>)
      requires manager.Valid() && manager.layers == layers > 0
      requires Ok(view, layers) && view.state == before && !Raises(before, layers, plan) && manager.GetView() == PlacedAll(view, plan.placements)
      modifies manager`state, manager`pipelines, manager`memberOf
      ensures manager.Consistent() && manager.state == old(manager.state)
      ensures Ok(manager.GetView(), layers) <==> !overlap
      ensures overlap <==> CoversOverlap(PlacedAll(view, plan.placements), layers, Targets(plan.placements))
      ensures Searched(before, newly, hosts, found)
      ensures !overlap ==> exists from :: Follow(old(manager.pipelines), newly, found, from)
    {
      hide Ok, WellFiled, WellStaffed, Statuses, AllIds, FullChain, Shows, PathsIn, Snapshot, PlacedAll, Placeable, Raises, CoversOverlap, Follow, Newcomers, AllDisjoint, Targets, Placed, Named;
      var fresh0 := NewlyActive(before);
      newly := fresh0;
      NewcomersShow(view, plan, newly);
      var observed := Snapshot(fresh0);
      var chains := Discover(observed, layers);
      hosts, found := observed, chains;
      FoundWithin(manager.GetView(), layers, newly, hosts, found);
      ShowsPlaced(manager.GetView(), layers);
      FoundOverlap(manager.GetView(), layers, newly, hosts, found, Targets(plan.placements));
      ghost var from;
      overlap, from := EnrollFound(fresh0, observed, chains);
    }

    /** A fresh node joins on standby; once bootstrapped, the waiting nodes may form more pipelines. */
    method Join(node: Node, plan: Allotment) returns (e: Expansion, ghost newly: seq<Node>, ghost hosts: seq<Host>, ghost found: seq<seq<nat>>)
      requires Valid() && node.id !in manager.nodes
      modifies node, manager, manager.nodes.Values
      ensures manager.Consistent() && (Ok(manager.GetView(), layers) ==> Valid())
      ensures manager.nodes == old(manager.nodes)[node.id := node]
      ensures e.Skipped? || e.Raised? ==> manager.pipelines == old(manager.pipelines) && manager.memberOf == old(manager.memberOf)
      ensures var joined := Joined(old(manager.GetView()), node.id, old(node.GetStatus()));
              && (if old(bootstrapped) then Expanded(e, joined, plan) && node.id in Waiting(joined.state) else e.Skipped? && manager.GetView() == joined && Valid())
              && (e.Added? || e.Overlapped? ==> Searched(joined.state, newly, hosts, found))
              && (e.Added? ==> exists from :: Follow(old(manager.pipelines), newly, found, from))
    {
      hide Ok, WellFiled, WellStaffed, Statuses, AllIds, Expanded, Searched, Follow;
      e, newly, hosts, found := Skipped, [], [], [];
      NotFiled(manager, node);
      node.range := Unassigned;
      manager.Upsert(node);
      if bootstrapped {
        assert node.id in Waiting(manager.state);
        e, newly, hosts, found := ExpandPipelines(plan);
      }
    }

    /** Newcomers are the placed nodes; they belong to no pipeline. */
    lemma NewcomersShow(before: View, plan: Allotment, newly: seq<Node>)
      requires manager.Valid() && manager.layers == layers && Ok(before, layers) && !Raises(before.state, layers, plan)
      requires manager.GetView() == PlacedAll(before, plan.placements) && Newcomers(manager.nodes, manager.state, before.state, newly)
      ensures Shows(manager.GetView(), newly, Snapshot(newly))
      ensures forall n :: n in newly ==> n.id !in manager.memberOf
      ensures forall id :: id in Targets(plan.placements) <==> Named(newly, id)
    {
      hide PlacedAll, Targets, Tiling, Placeable, AllIds, Ok, WellFiled, WellStaffed, NewlyIn;
      var v := manager.GetView();
      OkStates(before, layers);
      forall k | 0 <= k < |newly|
        ensures IsActive(v, newly[k].id) && Snapshot(newly)[k].range == v.nodes[newly[k].id].range
        ensures newly[k].id in Targets(plan.placements)
      {
        assert newly[k] in newly && Filed(manager.nodes, newly[k]);
        NewlyNamed(v, before, newly[k].id);
        NewlyPlaced(before, layers, plan.placements, newly[k].id);
      }
      forall id | id in Targets(plan.placements)
        ensures Named(newly, id)
      {
        NewlyPlaced(before, layers, plan.placements, id);
        NewlyNamed(v, before, id);
        FiledAt(manager.order, manager.nodes, id);
        NamedBy(newly, manager.nodes[id]);
      }
      forall n | n in newly
        ensures n.id !in manager.memberOf
      {
        NewlyNamed(v, before, n.id);
        if n.id in before.memberOf {
          MemberActive(before, layers, n.id);
        }
      }
    }
  }

  lemma OkStates(v: View, layers: int)
    requires Ok(v, layers)
    ensures v.nodes.Keys == v.state.Keys
  {
  }

  lemma NamedBy(ns: seq<Node>, n: Node)
    requires n in ns
    ensures Named(ns, n.id)
  {
  }

  lemma NewlyNamed(v: View, before: View, id: string)
    requires v.nodes.Keys == v.state.Keys == before.nodes.Keys == before.state.Keys
    ensures NewlyIn(v.state, before.state, id) <==> IsActive(v, id) && !IsActive(before, id)
  {
  }

  lemma MemberActive(v: View, layers: int, id: string)
    requires Ok(v, layers) && id in v.memberOf
    ensures IsActive(v, id)
  {
    assert Serving(v, layers, v.memberOf[id]);
  }

  lemma NotFiled(m: NodeManager, node: Node)
    requires m.Consistent() && node.id !in m.nodes
    ensures node !in m.nodes.Values
  {
  }

  lemma ShowsPlaced(v: View, layers: int)
    requires Ok(v, layers)
    ensures Placed(v, layers)
  {
  }

  /** Two different covers by the nodes looked at share a node exactly when two found chains do. */
  lemma FoundOverlap(v: View, layers: int, ns: seq<Node>, hosts: seq<Host>, found: seq<seq<nat>>, among: set<string>)
    requires Placed(v, layers) && Shows(v, ns, hosts) && PathsIn(ns, found) && NoRepeats(found)
    requires forall p :: p in found <==> FullChain(hosts, layers, p)
    requires forall id :: id in among <==> Named(ns, id)
    ensures !AllDisjoint(found) <==> CoversOverlap(v, layers, among)
  {
    hide FullChain, Placed, Tiling, Disjoint;
    if !AllDisjoint(found) {
      var a, b :| 0 <= a < b < |found| && !Disjoint(found[a], found[b]);
      ChainCovers(v, layers, ns, hosts, found[a], among);
      ChainCovers(v, layers, ns, hosts, found[b], among);
      SharedAt(ns, hosts, v, found[a], found[b]);
    }
    if CoversOverlap(v, layers, among) {
      var a, b :| CoverAmong(v, layers, among, a) && CoverAmong(v, layers, among, b) && a != b && ShareNode(a, b);
      var p := ChainOf(v, layers, ns, hosts, a);
      var q := ChainOf(v, layers, ns, hosts, b);
      SharedAt(ns, hosts, v, p, q);
      NotAllDisjoint(found, p, q);
    }
  }

  lemma NotAllDisjoint(found: seq<seq<nat>>, p: seq<nat>, q: seq<nat>)
    requires p in found && q in found && p != q && !Disjoint(p, q)
    ensures !AllDisjoint(found)
  {
    assert !Disjoint(q, p);
  }

  lemma ChainCovers(v: View, layers: int, ns: seq<Node>, hosts: seq<Host>, p: seq<nat>, among: set<string>)
    requires Placed(v, layers) && Shows(v, ns, hosts) && FullChain(hosts, layers, p)
    requires forall id :: id in among <==> Named(ns, id)
    ensures WithinNodes(ns, p) && CoverAmong(v, layers, among, IdsAt(ns, p))
  {
    hide FullChain, Placed, Tiling, Shows;
    ChainTiles(v, layers, ns, hosts, p);
  }

  /** Different paths over distinct nodes have different ids, and share an id exactly when they share an index. */
  lemma SharedAt(ns: seq<Node>, hosts: seq<Host>, v: View, p: seq<nat>, q: seq<nat>)
    requires Shows(v, ns, hosts) && WithinNodes(ns, p) && WithinNodes(ns, q)
    ensures p != q <==> IdsAt(ns, p) != IdsAt(ns, q)
    ensures !Disjoint(p, q) <==> ShareNode(IdsAt(ns, p), IdsAt(ns, q))
  {
    if IdsAt(ns, p) == IdsAt(ns, q) {
      assert |p| == |q|;
      forall k | 0 <= k < |p|
        ensures p[k] == q[k]
      {
        assert IdsAt(ns, p)[k] == IdsAt(ns, q)[k];
      }
    }
    if !Disjoint(p, q) {
      var i :| i in p && i in q;
      var a :| 0 <= a < |p| && p[a] == i;
      var b :| 0 <= b < |q| && q[b] == i;
      assert IdsAt(ns, p)[a] == ns[i].id == IdsAt(ns, q)[b];
      assert ns[i].id in IdsAt(ns, p) && ns[i].id in IdsAt(ns, q);
    }
    if ShareNode(IdsAt(ns, p), IdsAt(ns, q)) {
      var id :| id in IdsAt(ns, p) && id in IdsAt(ns, q);
      var a :| 0 <= a < |p| && IdsAt(ns, p)[a] == id;
      var b :| 0 <= b < |q| && IdsAt(ns, q)[b] == id;
      assert ns[p[a]].id == ns[q[b]].id;
      assert !(p[a] < q[b]) && !(q[b] < p[a]);
      assert p[a] == q[b] && p[a] in p && q[b] in q;
    }
  }

  /** Covers by placed nodes are covers by active nodes. */
  lemma OverlapServes(v: View, layers: int, plan: Allotment)
    requires Ok(v, layers) && !Raises(v.state, layers, plan)
    ensures CoversOverlap(PlacedAll(v, plan.placements), layers, Targets(plan.placements)) ==>
              plan.placements != [] && CanServe(PlacedAll(v, plan.placements), layers)
  {
    hide PlacedAll, Placeable, Tiling, Targets;
    var w := PlacedAll(v, plan.placements);
    if CoversOverlap(w, layers, Targets(plan.placements)) {
      var a, b :| CoverAmong(w, layers, Targets(plan.placements), a) && CoverAmong(w, layers, Targets(plan.placements), b) && a != b && ShareNode(a, b);
      forall k | 0 <= k < |a|
        ensures IsActive(w, a[k])
      {
        NewlyPlaced(v, layers, plan.placements, a[k]);
      }
      assert CoveredBy(w, layers, a);
      SomePlaced(w, layers, plan.placements, a);
    }
  }

  lemma SomePlaced(w: View, layers: int, ps: seq<Placement>, a: seq<string>)
    requires CoverAmong(w, layers, Targets(ps), a)
    ensures ps != []
  {
    assert a[0] in Targets(ps);
  }

  lemma NobodyWaits(v: View, layers: int, plan: Allotment)
    requires Ok(v, layers) && forall id :: id in v.nodes ==> v.state[id] != Standby
    ensures Waiting(v.state) == {}
    ensures !(!Raises(v.state, layers, plan) && CoversOverlap(PlacedAll(v, plan.placements), layers, Targets(plan.placements)))
  {
    if !Raises(v.state, layers, plan) {
      OverlapServes(v, layers, plan);
      if plan.placements != [] {
        FirstFits(v.state, layers, plan.placements);
        assert false;
      }
    }
  }

  lemma FirstFits(state: map<string, State>, layers: int, ps: seq<Placement>)
    requires Placeable(state, layers, ps) && ps != []
    ensures Fitting(state, layers, ps[0])
  {
  }

  lemma SomebodyWaits(m: NodeManager)
    requires m.Consistent() && exists id :: id in m.nodes && m.state[id] == Standby
    ensures Waiting(m.state) != {}
  {
    var id :| id in m.nodes && m.state[id] == Standby;
    assert id in Waiting(m.state);
  }

  lemma AllWaiting(m: NodeManager)
    requires m.Consistent()
    ensures |Waiting(m.state)| == |m.order| <==> forall id :: id in m.nodes ==> m.state[id] == Standby
  {
    hide WellStaffed;
    DistinctSize(m.order);
    assert SetOf(m.order) == m.nodes.Keys;
    assert Waiting(m.state) <= m.nodes.Keys;
    if |Waiting(m.state)| == |m.order| {
      SameSize(Waiting(m.state), m.nodes.Keys);
    } else {
      assert Waiting(m.state) != m.nodes.Keys;
    }
  }

  lemma {:induction false} DistinctSize(s: seq<string>)
    requires NoRepeats(s)
    ensures |SetOf(s)| == |s|
  {
    if s != [] {
      var init, last := s[..|s| - 1], s[|s| - 1];
      DistinctSize(init);
      assert s == init + [last];
      assert SetOf(s) == SetOf(init) + {last};
      assert last !in init;
    }
  }

  lemma SameSize(a: set<string>, b: set<string>)
    requires a <= b && |a| == |b|
    ensures a == b
  {
    assert b == a + (b - a);
    assert |b - a| == 0;
  }

  /** A pipeline is registered exactly when some chain of the active nodes is routable. */
  lemma RoutedRegistry(m: NodeManager, layers: int, ns: seq<Node>, hosts: seq<Host>, picks: seq<seq<nat>>)
    requires layers > 0 && Registers(m, ns, picks) && BestDisjoint(hosts, layers, picks)
    ensures m.pipelines != map[] <==> Routes(hosts, layers)
  {
    hide FullChain, Routable, PathsIn;
    if Routes(hosts, layers) {
      var p :| FullChain(hosts, layers, p) && Routable(hosts, p);
      assert Touches(picks, p);
      assert 0 in m.pipelines;
    }
    if picks != [] {
      assert FullChain(hosts, layers, picks[0]) && Routable(hosts, picks[0]);
      assert 0 in m.pipelines;
    } else {
      assert m.pipelines.Keys == {};
    }
  }

  lemma UnmeasuredUnrouted(hosts: seq<Host>, layers: int, cut: int)
    requires |hosts| == 2 && 0 < cut < layers && hosts[0].range == Layers(0, cut) && hosts[1].range == Layers(cut, layers)
    requires hosts[0].id != hosts[1].id && hosts[0].rtts == map[] == hosts[1].rtts
    ensures FullChain(hosts, layers, [0, 1]) && !Routes(hosts, layers)
  {
    assert [0, 1][1..] == [1];
    forall p | FullChain(hosts, layers, p)
      ensures !Routable(hosts, p)
    {
      assert p[0] == 0;
      TwoStages(hosts, layers, cut, p[1..]);
      assert p == [0, 1];
    }
  }

  lemma TwoStages(hosts: seq<Host>, layers: int, cut: int, q: seq<nat>)
    requires |hosts| == 2 && 0 < cut < layers && hosts[0].range == Layers(0, cut) && hosts[1].range == Layers(cut, layers)
    requires Joins(hosts, q, cut, layers)
    ensures q == [1]
  {
    assert Ranged(hosts, q[0]) && q[0] == 1;
    OneStage(hosts, q, cut, layers);
  }

  lemma OneStage(hosts: seq<Host>, q: seq<nat>, from: int, layers: int)
    requires Joins(hosts, q, from, layers) && q != [] && q[0] < |hosts| && hosts[q[0]].range == Layers(from, layers)
    requires forall h :: 0 <= h < |hosts| && hosts[h].range.Layers? ==> hosts[h].range.start < layers
    ensures |q| == 1
  {
    if |q| > 1 {
      Follows(hosts, q, from, layers);
      assert false;
    }
  }

  lemma Follows(hosts: seq<Host>, q: seq<nat>, from: int, layers: int)
    requires Joins(hosts, q, from, layers) && |q| > 1
    ensures Ranged(hosts, q[0]) && Ranged(hosts, q[1]) && hosts[q[0]].range.end == hosts[q[1]].range.start
  {
  }

  lemma NothingFollows(hosts: seq<Host>, layers: int, q: seq<nat>)
    requires |hosts| == 1 && hosts[0].range.Layers? && hosts[0].range.start == 0 < layers && Joins(hosts, q, layers, layers)
    ensures q == []
  {
  }

  /** Bootstrapping succeeds without any pipeline when the only cover is overloaded. */
  lemma OverloadedUnrouted(id: string, layers: int)
    requires layers > 0
    ensures var hosts := [Host(id, Layers(0, layers), true, Inf, map[])];
            FullChain(hosts, layers, [0]) && !Routes(hosts, layers)
  {
    var hosts := [Host(id, Layers(0, layers), true, Inf, map[])];
    assert FullChain(hosts, layers, [0]);
    forall p | FullChain(hosts, layers, p)
      ensures !Routable(hosts, p)
    {
      NothingFollows(hosts, layers, p[1..]);
      assert p == [0];
    }
  }

  lemma FoundWithin(v: View, layers: int, ns: seq<Node>, hosts: seq<Host>, found: seq<seq<nat>>)
    requires Ok(v, layers) && Shows(v, ns, hosts) && forall p :: p in found ==> FullChain(hosts, layers, p)
    ensures PathsIn(ns, found)
  {
    forall m | 0 <= m < |found|
      ensures WithinNodes(ns, found[m])
    {
      assert found[m] in found;
      ChainTiles(v, layers, ns, hosts, found[m]);
    }
  }

  /** The lists none of whose nodes is taken. */
  function Untaken(lists: seq<seq<string>>, taken: set<string>): seq<seq<string>> {
    if lists == [] then []
    else
      var init, last := Untaken(lists[..|lists| - 1], taken), lists[|lists| - 1];
      if exists id :: id in last && id in taken then init else init + [last]
  }

  lemma {:induction false} NoneDropped(lists: seq<seq<string>>, taken: set<string>)
    requires forall l :: l in lists ==> l != [] && forall id :: id in l ==> id !in taken
    ensures Untaken(lists, taken) == lists && NonEmpty(lists) == lists
  {
    if lists != [] {
      var init := lists[..|lists| - 1];
      assert forall l :: l in init ==> l in lists;
      NoneDropped(init, taken);
      assert lists[|lists| - 1] in lists;
      assert lists == lists[..|lists| - 1] + [lists[|lists| - 1]];
    }
  }

  /** Chains over untaken nodes can all be registered exactly when no two share a node. */
  lemma FoundRegistrable(v: View, layers: int, ns: seq<Node>, hosts: seq<Host>, found: seq<seq<nat>>, taken: set<string>)
    requires Placed(v, layers) && Shows(v, ns, hosts) && PathsIn(ns, found)
    requires forall p :: p in found ==> FullChain(hosts, layers, p)
    requires forall n :: n in ns ==> n.id !in taken
    ensures var lists := AllIdsAt(ns, found);
            && Untaken(lists, taken) == lists && NonEmpty(lists) == lists && NewTo(taken, lists)
            && (forall m :: 0 <= m < |lists| ==> Tiling(v.nodes, layers, lists[m]))
            && (forall l :: l in lists ==> Arrangeable(v.nodes, layers, l))
            && (Registrable(v.nodes, layers, lists) <==> AllDisjoint(found))
  {
    hide FullChain, Placed, Tiling, Disjoint;
    var lists := AllIdsAt(ns, found);
    forall m | 0 <= m < |lists|
      ensures lists[m] != [] && Tiling(v.nodes, layers, lists[m]) && Arrangeable(v.nodes, layers, lists[m]) && forall id :: id in lists[m] ==> id !in taken
    {
      assert found[m] in found;
      ChainTiles(v, layers, ns, hosts, found[m]);
      TilingNonEmpty(v.nodes, layers, lists[m]);
      UntakenAt(ns, found[m], taken);
    }
    NoneDropped(lists, taken);
    if AllDisjoint(found) {
      PicksRegistrable(v, layers, ns, hosts, found);
    }
    if Registrable(v.nodes, layers, lists) {
      forall a, b | 0 <= a < b < |found|
        ensures Disjoint(found[a], found[b])
      {
        ApartAt(ns, found[a], found[b]);
      }
    }
  }

  lemma TilingNonEmpty(nodes: map<string, Status>, layers: int, ids: seq<string>)
    requires Tiling(nodes, layers, ids)
    ensures ids != [] && Arrangeable(nodes, layers, ids)
  {
  }

  lemma UntakenAt(ns: seq<Node>, p: seq<nat>, taken: set<string>)
    requires WithinNodes(ns, p) && forall n :: n in ns ==> n.id !in taken
    ensures forall id :: id in IdsAt(ns, p) ==> id !in taken
  {
    forall k | 0 <= k < |p|
      ensures ns[p[k]].id !in taken
    {
      assert ns[p[k]] in ns;
    }
  }

  lemma ApartAt(ns: seq<Node>, p: seq<nat>, q: seq<nat>)
    requires WithinNodes(ns, p) && WithinNodes(ns, q) && forall id :: id in IdsAt(ns, p) ==> id !in IdsAt(ns, q)
    ensures Disjoint(p, q)
  {
    forall i | i in p
      ensures i !in q
    {
      var a :| 0 <= a < |p| && p[a] == i;
      assert IdsAt(ns, p)[a] in IdsAt(ns, p);
      assert forall b :: 0 <= b < |q| ==> IdsAt(ns, q)[b] in IdsAt(ns, q);
    }
  }

  lemma Crossing(hosts: seq<Host>, layers: int, p: seq<nat>, q: seq<nat>, i: nat, j: nat)
    requires FullChain(hosts, layers, p) && FullChain(hosts, layers, q)
    requires 0 < i < |p| && 0 < j < |q| && Ranged(hosts, p[i]) && Ranged(hosts, q[j])
    requires hosts[p[i]].range.start == hosts[q[j]].range.start
    ensures FullChain(hosts, layers, p[..i] + q[j..])
  {
    hide Joins;
    CrossTails(hosts, p[1..], q[1..], i - 1, j - 1, hosts[p[0]].range.end, hosts[q[0]].range.end, layers);
    var r := p[..i] + q[j..];
    assert r[1..] == p[1..][..i - 1] + q[1..][j - 1..];
  }

  lemma CrossTails(hosts: seq<Host>, p: seq<nat>, q: seq<nat>, k: nat, l: nat, from: int, start: int, to: int)
    requires Joins(hosts, p, from, to) && Joins(hosts, q, start, to) && k < |p| && l < |q|
    requires Ranged(hosts, p[k]) && Ranged(hosts, q[l]) && hosts[p[k]].range.start == hosts[q[l]].range.start
    ensures Joins(hosts, p[..k] + q[l..], from, to)
  {
    hide Joins;
    JoinsSplit(hosts, p, k, from, to);
    JoinsSplit(hosts, q, l, start, to);
    JoinsAppend(hosts, p[..k], q[l..], from, hosts[p[k]].range.start, to);
  }

  /** Two disjoint pipelines that change nodes at the same layer can be crossed there, so the search finds overlapping ones. */
  lemma SharedCutOverlaps(hosts: seq<Host>, layers: int, found: seq<seq<nat>>, p: seq<nat>, q: seq<nat>, i: nat, j: nat)
    requires forall r :: FullChain(hosts, layers, r) ==> r in found
    requires FullChain(hosts, layers, p) && FullChain(hosts, layers, q) && Disjoint(p, q)
    requires 0 < i < |p| && 0 < j < |q| && Ranged(hosts, p[i]) && Ranged(hosts, q[j])
    requires hosts[p[i]].range.start == hosts[q[j]].range.start
    ensures !AllDisjoint(found)
  {
    hide FullChain;
    Crossing(hosts, layers, p, q, i, j);
    var r := p[..i] + q[j..];
    assert r[i] == q[j] && q[j] in q && p[i] in p;
    assert p != r && p in found && r in found;
    assert p[0] in p && r[0] == p[0] && p[0] in r;
    assert !Disjoint(p, r) && !Disjoint(r, p);
  }

  lemma JoinsSplit(hosts: seq<Host>, p: seq<nat>, k: nat, from: int, to: int)
    requires Joins(hosts, p, from, to) && k < |p|
    ensures Ranged(hosts, p[k])
    ensures Joins(hosts, p[..k], from, hosts[p[k]].range.start) && Joins(hosts, p[k..], hosts[p[k]].range.start, to)
  {
    if k > 0 {
      assert hosts[p[k - 1]].range.end == hosts[p[k]].range.start;
    }
    forall m | 0 < m < |p| - k
      ensures hosts[p[k..][m - 1]].range.end == hosts[p[k..][m]].range.start
    {
      assert hosts[p[k + m - 1]].range.end == hosts[p[k + m]].range.start;
    }
  }

  lemma JoinsAppend(hosts: seq<Host>, p: seq<nat>, q: seq<nat>, from: int, mid: int, to: int)
    requires Joins(hosts, p, from, mid) && Joins(hosts, q, mid, to)
    ensures Joins(hosts, p + q, from, to)
  {
    var r := p + q;
    forall m | 0 < m < |r|
      ensures hosts[r[m - 1]].range.end == hosts[r[m]].range.start
    {
      if m < |p| {
        assert hosts[p[m - 1]].range.end == hosts[p[m]].range.start;
      } else if m > |p| {
        assert hosts[q[m - |p| - 1]].range.end == hosts[q[m - |p|]].range.start;
      }
    }
  }

  lemma FewerValues(nodes: map<string, Node>, id: string)
    ensures (nodes - {id}).Values <= nodes.Values && (nodes - {id}).Keys <= nodes.Keys
    ensures id !in nodes ==> nodes - {id} == nodes
  {
    forall n | n in (nodes - {id}).Values
      ensures n in nodes.Values
    {
      var x :| x in nodes - {id} && (nodes - {id})[x] == n;
      assert nodes[x] == n;
    }
  }

  lemma NoMembers(m: NodeManager)
    requires m.Valid() && m.pipelines == map[]
    ensures m.memberOf == map[]
  {
    assert m.GetView().pipelines.Keys == {};
  }

  /** The active nodes can all be stood by. */
  lemma AllActive(m: NodeManager, active: seq<Node>)
    requires m.Consistent()
    requires forall n :: n in active ==> Filed(m.nodes, n) && m.state[n.id] == Active
    requires forall a, b :: 0 <= a < b < |active| ==> active[a].id != active[b].id
    requires forall id :: id in m.nodes && m.state[id] == Active ==> m.nodes[id] in active
    ensures CanStandBy(m.state, Ids(active), false)
    ensures forall id :: id in m.nodes && m.state[id] == Active ==> id in Ids(active)
  {
    var ids := Ids(active);
    forall k | 0 <= k < |ids|
      ensures ids[k] in m.state && m.state[ids[k]] == Active && ids[k] !in ids[..k]
    {
      assert active[k] in active && Filed(m.nodes, active[k]);
    }
    forall id | id in m.nodes && m.state[id] == Active
      ensures id in ids
    {
      FiledAt(m.order, m.nodes, id);
      var k :| 0 <= k < |active| && active[k] == m.nodes[id];
      assert ids[k] == id;
    }
  }

  /** The listed ids are the active ones. */
  lemma ActiveListed(v: View, ids: seq<string>)
    requires CanStandBy(v.state, ids, false) && forall id :: id in v.state && v.state[id] == Active ==> id in ids
    ensures SetOf(ids) == set id | id in v.state && v.state[id] == Active
  {
    forall id | id in ids
      ensures id in v.state && v.state[id] == Active
    {
      var k :| 0 <= k < |ids| && ids[k] == id;
    }
  }

  lemma AllOnStandby(v: View, layers: int)
    requires Ok(v, layers)
    ensures forall id :: id in AllDown(v).state ==> AllDown(v).state[id] == Standby
    ensures AllDown(v).state.Keys == v.nodes.Keys
  {
  }

  /** Once nobody is registered, a reboot changes nothing more. */
  lemma RebootedDown(v: View, layers: int)
    requires Ok(v, layers) && v.pipelines == map[]
    ensures Rebooted(AllDown(v)) == AllDown(v)
  {
    assert v.memberOf.Keys == {};
    assert ClearedAt(AllDown(v).nodes, {}) == AllDown(v).nodes;
    assert StandbyAt(AllDown(v).state, {}) == AllDown(v).state;
  }

  /** When the active nodes cannot serve, no pipeline is registered. */
  lemma NothingServing(m: NodeManager, layers: int)
    requires m.Valid() && m.layers == layers && !CanServe(m.GetView(), layers)
    ensures m.pipelines == map[] && m.GetView().pipelines == map[]
  {
    forall pid | pid in m.pipelines
      ensures false
    {
      RegisteredServes(m.GetView(), layers, pid);
    }
    assert m.pipelines.Keys == {};
  }

  /** A run that is refused at a placement ends there. */
  lemma RunEnds(v: View, layers: int, ps: seq<Placement>, k: nat)
    requires v.nodes.Keys == v.state.Keys && k < |ps| && Placeable(v.state, layers, ps[..k])
    requires !Fitting(PlacedAll(v, ps[..k]).state, layers, ps[k])
    ensures !Placeable(v.state, layers, ps)
    ensures AfterRun(v, layers, ps) == Attempted(PlacedAll(v, ps[..k]), ps[k].id, ps[k].start, ps[k].end)
    ensures ps[k].id !in v.nodes || ps[k].start >= ps[k].end ==> AfterRun(v, layers, ps) == PlacedAll(v, ps[..k])
    ensures ps[k].id in v.nodes && ps[k].start < ps[k].end ==> Spoils(v, layers, ps)
  {
    hide PlacedAll, Placeable, AfterRun;
    PlacedNext(v, layers, ps, k);
    AfterRefused(v, layers, ps, k);
  }

  /** Registering pipelines does not change what can serve. */
  lemma ServesSame(v: View, w: View, layers: int)
    requires w.nodes == v.nodes && w.state == v.state
    ensures CanServe(w, layers) <==> CanServe(v, layers)
  {
    if CanServe(v, layers) {
      var ids :| CoveredBy(v, layers, ids);
      assert CoveredBy(w, layers, ids);
    }
    if CanServe(w, layers) {
      var ids :| CoveredBy(w, layers, ids);
      assert CoveredBy(v, layers, ids);
    }
  }

  lemma LeftOnlyLess(v: View, id: string)
    ensures v.pipelines == map[] ==> Left(v, id).pipelines == map[]
  {
  }
}
