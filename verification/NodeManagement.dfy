/** The node registry: membership, lifecycle states, and the fixed pipelines. */
module NodeManagement {
  import opened Hosts
  import opened Lifecycle
  import opened Options
  import opened Sequences
  import Totals

  datatype Outcome =
    | Done
    | NotFound(id: string)
    | WrongState(id: string)
    | InvalidRange
    | NoSuchLayer
    | BadPipeline
    | AlreadyMember(id: string)

  lemma {:induction false} WithoutOnce(s: seq<string>, x: string)
    requires NoRepeats(s)
    ensures NoRepeats(Without(s, x))
  {
    if s != [] {
      WithoutOnce(s[..|s| - 1], x);
      var init := Without(s[..|s| - 1], x);
      forall k | 0 <= k < |init|
        ensures init[k] != s[|s| - 1]
      {
        assert init[k] in init;
      }
    }
  }

  class Node {
    const id: string
    const maxRequests: nat
    const roofline: real
    const compensator: real
    var range: Range
    var requests: int
    var measured: Option<real>
    var ready: bool
    var rtts: map<string, Cost>
    var lastRefit: real

    constructor (id: string, maxRequests: nat, roofline: real, compensator: real, range: Range)
      ensures this.id == id && this.maxRequests == maxRequests && this.roofline == roofline && this.compensator == compensator
      ensures this.range == range && requests == 0 && measured == None && !ready && rtts == map[] && lastRefit == 0.0
    {
      this.id, this.maxRequests, this.roofline, this.compensator := id, maxRequests, roofline, compensator;
      this.range, requests, measured, ready, rtts, lastRefit := range, 0, None, false, map[], 0.0;
    }

    function GetStatus(): Status
      reads this
    {
      Status(range, requests, measured)
    }

    /** Infinite when overloaded; measured latency grows with the load. */
    function Latency(): Cost
      reads this
    {
      if requests >= maxRequests then Inf
      else match measured
        case None => Fin(roofline)
        case Some(ms) => if maxRequests == 0 then Inf else Fin(ms + compensator * (requests as real / maxRequests as real))
    }

    function AsHost(): Host
      reads this
    {
      Host(id, range, ready, Latency(), rtts)
    }

    /** Holds no layers, serves no request, and was not measured yet. */
    predicate Idle()
      reads this
    {
      range == Unassigned && requests == 0 && measured == None
    }

    method ClearServingState()
      modifies this`range, this`requests, this`measured
      ensures GetStatus() == CLEARED && Idle()
    {
      range, requests, measured := Unassigned, 0, None;
    }
  }

  /** The view tells two nodes apart exactly when their ranges, requests or measured latencies differ. */
  lemma ShownAlike(a: Node, b: Node)
    ensures a.GetStatus() == b.GetStatus() <==> a.range == b.range && a.requests == b.requests && a.measured == b.measured
  {
  }

  function Ids(ns: seq<Node>): (r: seq<string>)
    ensures |r| == |ns| && forall k :: 0 <= k < |r| ==> r[k] == ns[k].id
  {
    seq(|ns|, k requires 0 <= k < |ns| => ns[k].id)
  }

  method ClearAll(ns: seq<Node>)
    modifies ns
    ensures forall n :: n in ns ==> n.GetStatus() == CLEARED && n.Idle() && n.ready == old(n.ready) && n.rtts == old(n.rtts)
  {
    for k := 0 to |ns|
      invariant forall n :: n in ns ==> n.ready == old(n.ready) && n.rtts == old(n.rtts)
      invariant forall m :: 0 <= m < k ==> ns[m].GetStatus() == CLEARED && ns[m].Idle()
    {
      ns[k].ClearServingState();
    }
  }

  function Without(s: seq<string>, x: string): (r: seq<string>)
    ensures forall y :: y in r <==> y in s && y != x
  {
    if s == [] then []
    else
      var last, init := s[|s| - 1], Without(s[..|s| - 1], x);
      if last == x then init else init + [last]
  }

  /** The list without its one occurrence of `x`; the others keep their order. */
  ghost predicate TakenOut(before: seq<string>, x: string, after: seq<string>) {
    exists k :: 0 <= k < |before| && before[k] == x && after == before[..k] + before[k + 1..]
  }

  lemma {:induction false} WithoutElsewhere(a: seq<string>, b: seq<string>, x: string)
    requires x !in b
    ensures Without(a + b, x) == Without(a, x) + b
    decreases |b|
  {
    if b == [] {
      assert a + b == a && Without(a, x) + b == Without(a, x);
    } else {
      var init := b[..|b| - 1];
      assert (a + b)[..|a + b| - 1] == a + init;
      WithoutElsewhere(a, init, x);
      assert (Without(a, x) + init) + [b[|b| - 1]] == Without(a, x) + b;
    }
  }

  lemma WithoutLast(a: seq<string>, x: string)
    ensures Without([], x) == [] && Without(a + [x], x) == Without(a, x)
  {
    assert (a + [x])[..|a|] == a;
  }

  lemma OnlyOnce(s: seq<string>, k: nat)
    requires NoRepeats(s) && k < |s|
    ensures s == s[..k] + [s[k]] + s[k + 1..] && s[k] !in s[..k] && s[k] !in s[k + 1..]
  {
  }

  lemma WithoutTakesOut(s: seq<string>, x: string)
    requires NoRepeats(s) && x in s
    ensures TakenOut(s, x, Without(s, x))
  {
    hide Without, NoRepeats;
    var k :| 0 <= k < |s| && s[k] == x;
    OnlyOnce(s, k);
    var a, b := s[..k], s[k + 1..];
    WithoutElsewhere([], a, x);
    WithoutElsewhere(a + [x], b, x);
    WithoutLast(a, x);
    assert [] + a == a;
  }

  ghost function Statuses(nodes: map<string, Node>): (r: map<string, Status>)
    reads nodes.Values
    ensures r.Keys == nodes.Keys
  {
    map id | id in nodes :: nodes[id].GetStatus()
  }

  lemma StatusesOneMore(nodes: map<string, Node>, n: Node)
    ensures Statuses(nodes[n.id := n]) == Statuses(nodes)[n.id := n.GetStatus()]
  {
  }

  ghost function AllIds(pipelines: map<nat, seq<Node>>): (r: map<nat, seq<string>>)
    ensures r.Keys == pipelines.Keys
  {
    map pid | pid in pipelines :: Ids(pipelines[pid])
  }

  lemma IdsWithout(pipelines: map<nat, seq<Node>>, pid: nat)
    requires pid in pipelines
    ensures AllIds(pipelines - {pid}) == AllIds(pipelines) - {pid} && pid in AllIds(pipelines)
    ensures AllIds(pipelines)[pid] == Ids(pipelines[pid])
  {
  }

  predicate Filed(nodes: map<string, Node>, n: Node) {
    n.id in nodes && nodes[n.id] == n
  }

  /** Nodes are filed under their own id, once each in join order. */
  ghost predicate WellFiled(order: seq<string>, nodes: map<string, Node>) {
    && NoRepeats(order) && (forall id :: id in order <==> id in nodes)
    && (forall id :: id in nodes ==> nodes[id].id == id)
  }

  /** Pipelines consist of registered nodes. */
  ghost predicate WellStaffed(nodes: map<string, Node>, pipelines: map<nat, seq<Node>>) {
    forall pid, k :: pid in pipelines && 0 <= k < |pipelines[pid]| ==> Filed(nodes, pipelines[pid][k])
  }

  lemma FiledAt(order: seq<string>, nodes: map<string, Node>, id: string)
    requires WellFiled(order, nodes) && id in nodes
    ensures nodes[id].id == id && Filed(nodes, nodes[id])
  {
  }

  lemma FiledOneMore(order: seq<string>, nodes: map<string, Node>, pipelines: map<nat, seq<Node>>, n: Node)
    requires WellFiled(order, nodes) && WellStaffed(nodes, pipelines) && n.id !in nodes
    ensures WellFiled(order + [n.id], nodes[n.id := n]) && WellStaffed(nodes[n.id := n], pipelines)
  {
  }

  lemma StatusesOneLess(nodes: map<string, Node>, id: string)
    ensures Statuses(nodes - {id}) == Statuses(nodes) - {id}
  {
  }

  lemma FiledOneLess(order: seq<string>, nodes: map<string, Node>, id: string)
    requires WellFiled(order, nodes) && id in nodes
    ensures WellFiled(Without(order, id), nodes - {id}) && nodes[id] !in (nodes - {id}).Values
  {
    WithoutOnce(order, id);
  }

  lemma StaffedOneLess(nodes: map<string, Node>, pipelines: map<nat, seq<Node>>, id: string)
    requires WellStaffed(nodes, pipelines)
    requires forall pid, k :: pid in pipelines && 0 <= k < |pipelines[pid]| ==> pipelines[pid][k].id != id
    ensures WellStaffed(nodes - {id}, pipelines)
  {
  }

  ghost function Popped(v: View, id: string): View {
    v.(nodes := v.nodes - {id}, state := v.state - {id})
  }

  /** The pipeline of a departed node is gone, and its other members are on standby. */
  ghost function Dissolved(v: View, id: string): View {
    if id in v.memberOf && v.memberOf[id] in v.pipelines then
      var pid := v.memberOf[id];
      var rest := SetOf(Without(v.pipelines[pid], id));
      View(ClearedAt(v.nodes, rest), StandbyAt(v.state, rest), v.pipelines - {pid}, v.memberOf - {id} - SetOf(v.pipelines[pid]))
    else
      v.(memberOf := v.memberOf - {id})
  }

  /** What the steps of a departure make of the registry. */
  lemma DepartureSteps(v: View, layers: int, id: string)
    requires Ok(v, layers) && id in v.nodes
    ensures Dissolved(Popped(v, id), id) == Left(v, id)
  {
    OwnPipeline(v, layers, id);
    hide Ok;
    if id !in v.memberOf {
      LoneDeparture(v, id);
    } else {
      var ids := v.pipelines[v.memberOf[id]];
      var rest := SetOf(Without(ids, id));
      assert Members(v, id) - {id} == rest;
      hide SetOf, Without;
      assert ClearedAt(v.nodes, rest) - {id} == ClearedAt(v.nodes - {id}, rest);
      assert StandbyAt(v.state, rest) - {id} == StandbyAt(v.state - {id}, rest);
      assert v.memberOf - SetOf(ids) - {id} == v.memberOf - {id} - SetOf(ids);
      hide ClearedAt, StandbyAt;
    }
  }

  lemma LoneDeparture(v: View, id: string)
    requires id !in v.memberOf
    ensures Dissolved(Popped(v, id), id) == Left(v, id)
  {
    assert Members(v, id) - {id} == {};
    assert ClearedAt(v.nodes, {}) == v.nodes;
    assert StandbyAt(v.state, {}) == v.state;
    assert v.memberOf - {} - {id} == v.memberOf - {id};
    hide ClearedAt, StandbyAt;
  }

  lemma OwnPipeline(v: View, layers: int, id: string)
    requires Ok(v, layers)
    ensures id in v.memberOf ==> v.memberOf[id] in v.pipelines
  {
  }

  lemma DepartureRest(v: View, layers: int, id: string)
    requires Ok(v, layers) && id in v.nodes && id in v.memberOf
    ensures v.memberOf[id] in v.pipelines && CanStandBy(v.state - {id}, Without(v.pipelines[v.memberOf[id]], id), true)
  {
    var pid := v.memberOf[id];
    assert Serving(v, layers, pid);
    var ids := v.pipelines[pid];
    TilingOnce(v.nodes, layers, ids);
    WithoutOnce(ids, id);
    var rest := Without(ids, id);
    forall k | 0 <= k < |rest|
      ensures rest[k] in v.state - {id} && v.state[rest[k]] == Active && rest[k] !in rest[..k]
    {
      assert rest[k] in rest && rest[k] in ids;
    }
  }

  /** No pipeline but the departing node's own has it as a member. */
  lemma OthersKeep(v: View, layers: int, id: string, pid: nat)
    requires Ok(v, layers) && pid in v.pipelines && (id in v.memberOf ==> pid != v.memberOf[id])
    ensures id !in v.pipelines[pid]
  {
    assert Serving(v, layers, pid);
  }

  /** Every id names an active node, none twice; unknown ids may be allowed. */
  ghost predicate CanStandBy(state: map<string, State>, ids: seq<string>, allowMissing: bool) {
    forall k :: 0 <= k < |ids| ==>
      if ids[k] in state then state[ids[k]] == Active && ids[k] !in ids[..k] else allowMissing
  }

  lemma ListedIn(ids: seq<string>)
    ensures forall id :: id in SetOf(ids) <==> id in ids
  {
  }

  lemma ListedOut(ids: seq<string>, others: set<string>)
    requires forall id :: id in ids ==> id !in others
    ensures SetOf(ids) !! others
  {
  }

  lemma NoneToStandBy(state: map<string, State>, ids: seq<string>, allowMissing: bool)
    ensures CanStandBy(state, ids[..0], allowMissing)
  {
  }

  lemma StandbyNext(state: map<string, State>, ids: seq<string>, k: nat)
    requires k < |ids|
    ensures var was := StandbyAt(state, SetOf(ids[..k]));
            StandbyAt(state, SetOf(ids[..k + 1])) == if ids[k] in state then was[ids[k] := Standby] else was
  {
    assert ids[..k + 1] == ids[..k] + [ids[k]];
  }

  lemma CanStandByNext(state: map<string, State>, ids: seq<string>, k: nat, allowMissing: bool)
    requires k < |ids| && CanStandBy(state, ids[..k], allowMissing)
    ensures var fits := if ids[k] in state then StandbyAt(state, SetOf(ids[..k]))[ids[k]] == Active else allowMissing;
            (fits <==> CanStandBy(state, ids[..k + 1], allowMissing)) && (!fits ==> !CanStandBy(state, ids, allowMissing))
  {
    var p, q := ids[..k], ids[..k + 1];
    assert forall j :: 0 <= j < k ==> q[j] == p[j] == ids[j] && q[..j] == p[..j] == ids[..j];
    assert q[k] == ids[k] && q[..k] == p;
  }

  lemma StatusAt(nodes: map<string, Node>, id: string)
    requires id in nodes
    ensures Statuses(nodes)[id] == nodes[id].GetStatus()
  {
  }

  lemma IdsInserted(s: seq<Node>, at: nat, n: Node)
    requires at <= |s|
    ensures Ids(s[..at] + [n] + s[at..]) == Ids(s)[..at] + [n.id] + Ids(s)[at..]
    ensures multiset(Ids(s[..at] + [n] + s[at..])) == multiset(Ids(s)) + multiset{n.id}
  {
    assert Ids(s) == Ids(s)[..at] + Ids(s)[at..];
    assert Ids(s[..at] + [n] + s[at..]) == Ids(s)[..at] + [n.id] + Ids(s)[at..];
  }

  lemma KeyTransitive(a: Range, b: Range, c: Range)
    requires KeyAtMost(a, b) && KeyAtMost(b, c)
    ensures KeyAtMost(a, c)
  {
  }

  /** Inserting after every stage that does not come later keeps the stages sorted. */
  lemma SortedInserted(nodes: map<string, Status>, s: seq<string>, at: nat, id: string)
    requires SortedStages(nodes, s) && id in nodes && at <= |s|
    requires at > 0 ==> KeyAtMost(nodes[s[at - 1]].range, nodes[id].range)
    requires at < |s| ==> !KeyAtMost(nodes[s[at]].range, nodes[id].range)
    ensures SortedStages(nodes, s[..at] + [id] + s[at..])
  {
    var r := s[..at] + [id] + s[at..];
    forall k | 0 <= k < |s|
      ensures if k < at then KeyAtMost(nodes[s[k]].range, nodes[id].range) else KeyAtMost(nodes[id].range, nodes[s[k]].range)
    {
      if k < at - 1 {
        KeyTransitive(nodes[s[k]].range, nodes[s[at - 1]].range, nodes[id].range);
      } else if k > at {
        KeyTransitive(nodes[id].range, nodes[s[at]].range, nodes[s[k]].range);
      }
    }
    forall a, b | 0 <= a < b < |r|
      ensures KeyAtMost(nodes[r[a]].range, nodes[r[b]].range)
    {
      assert a != at ==> r[a] == s[if a < at then a else a - 1];
      assert b != at ==> r[b] == s[if b < at then b else b - 1];
    }
  }

  lemma StaffedOneMore(nodes: map<string, Node>, pipelines: map<nat, seq<Node>>, pid: nat, stages: seq<Node>)
    requires WellStaffed(nodes, pipelines) && forall n :: n in stages ==> Filed(nodes, n)
    ensures WellStaffed(nodes, pipelines[pid := stages])
    ensures AllIds(pipelines[pid := stages]) == AllIds(pipelines)[pid := Ids(stages)]
  {
  }

  lemma MembersGrow(memberOf: map<string, nat>, ids: seq<string>, k: nat, pid: nat)
    requires k <= |ids|
    ensures k == 0 ==> MadeMembers(memberOf, SetOf(ids[..k]), pid) == memberOf
    ensures k < |ids| ==> MadeMembers(memberOf, SetOf(ids[..k + 1]), pid) == MadeMembers(memberOf, SetOf(ids[..k]), pid)[ids[k] := pid]
  {
    if k < |ids| {
      assert ids[..k + 1] == ids[..k] + [ids[k]];
    }
  }

  lemma ActivatedGrow(state: map<string, State>, ids: seq<string>, k: nat)
    requires k <= |ids|
    ensures k == 0 ==> ActiveAt(state, SetOf(ids[..k])) == state
    ensures k < |ids| && ids[k] in state ==> ActiveAt(state, SetOf(ids[..k + 1])) == ActiveAt(state, SetOf(ids[..k]))[ids[k] := Active]
  {
    if k < |ids| {
      assert ids[..k + 1] == ids[..k] + [ids[k]];
    }
  }

  lemma AlreadyActive(state: map<string, State>, ids: seq<string>, k: nat)
    requires k <= |ids| && forall i :: 0 <= i < |ids| ==> ids[i] in state && state[ids[i]] == Active
    ensures ActiveAt(state, SetOf(ids[..k])) == state
  {
  }

  /** A node already in a pipeline, caught while filing it under another. */
  lemma OverlapAt(v: View, before: View, layers: int, pid: nat, ids: seq<string>, k: nat, stages: seq<string>)
    requires Ok(before, layers) && pid !in before.pipelines && k < |ids|
    requires forall a, b :: 0 <= a < b < |ids| ==> ids[a] != ids[b]
    requires SetOf(ids) == SetOf(stages) && pid in v.pipelines && v.pipelines[pid] == stages
    requires v.memberOf == MadeMembers(before.memberOf, SetOf(ids[..k]), pid) && ids[k] in v.memberOf
    ensures !Ok(v, layers) && ids[k] in before.memberOf
  {
    assert ids[k] in SetOf(ids);
    assert ids[k] !in SetOf(ids[..k]);
    OverlapBreaks(v, layers, pid, ids[k]);
  }

  lemma EnrolledView(v: View, layers: int, pid: nat, ids: seq<string>, stages: seq<string>)
    requires Ok(v, layers) && pid !in v.pipelines && Tiling(v.nodes, layers, stages) && SetOf(ids) == SetOf(stages)
    requires forall k :: 0 <= k < |ids| ==> IsActive(v, ids[k]) && ids[k] !in v.memberOf
    ensures Ok(Enrolled(v, pid, stages), layers)
    ensures Enrolled(v, pid, stages) == v.(pipelines := v.pipelines[pid := stages], memberOf := MadeMembers(v.memberOf, SetOf(ids), pid))
  {
    forall k | 0 <= k < |stages|
      ensures IsActive(v, stages[k]) && stages[k] !in v.memberOf
    {
      assert stages[k] in SetOf(stages);
    }
    EnrolledOk(v, layers, pid, stages);
  }

  /** A registered pipeline holds exactly the listed nodes, in their order if that covers all layers. */
  ghost predicate Represents(statuses: map<string, Status>, layers: int, p: seq<Node>, ids: seq<string>) {
    multiset(Ids(p)) == multiset(ids) && (Tiling(statuses, layers, ids) ==> Ids(p) == ids)
  }

  /** The base pipelines are kept, the lists follow from pid `from` on, and theirs are the only new members. */
  ghost predicate ExtendedBy(statuses: map<string, Status>, layers: int, base: map<nat, seq<Node>>, members: set<string>, from: nat,
                             pipelines: map<nat, seq<Node>>, memberOf: set<string>, lists: seq<seq<string>>) {
    && (forall pid :: pid in base ==> pid < from && pid in pipelines && pipelines[pid] == base[pid])
    && (forall pid :: pid in pipelines ==> pid in base || from <= pid < from + |lists|)
    && (forall id :: id in memberOf <==> id in members || InSome(lists, id))
    && (forall m: nat :: m < |lists| ==> Stands(statuses, layers, pipelines, from + m, lists[m]))
  }

  ghost predicate Stands(statuses: map<string, Status>, layers: int, pipelines: map<nat, seq<Node>>, pid: nat, ids: seq<string>) {
    pid in pipelines && Represents(statuses, layers, pipelines[pid], ids)
  }

  ghost predicate NewTo(members: set<string>, lists: seq<seq<string>>) {
    forall id :: InSome(lists, id) ==> id !in members
  }

  lemma ExtendedNone(statuses: map<string, Status>, layers: int, base: map<nat, seq<Node>>, members: set<string>, from: nat, lists: seq<seq<string>>)
    requires forall pid :: pid in base ==> pid < from
    ensures ExtendedBy(statuses, layers, base, members, from, base, members, lists[..0])
    ensures Registrable(statuses, layers, lists[..0]) && NewTo(members, lists[..0])
  {
  }

  lemma ExtendedNext(statuses: map<string, Status>, layers: int, base: map<nat, seq<Node>>, members: set<string>, from: nat,
                     pipelines: map<nat, seq<Node>>, memberOf: set<string>, lists: seq<seq<string>>, k: nat, p: seq<Node>)
    requires k < |lists| && ExtendedBy(statuses, layers, base, members, from, pipelines, memberOf, lists[..k])
    requires Represents(statuses, layers, p, lists[k])
    ensures ExtendedBy(statuses, layers, base, members, from, pipelines[from + k := p], memberOf + SetOf(lists[k]), lists[..k + 1])
  {
    hide Represents, InSome, SetOf;
    InSomeNext(lists, k);
    ListedIn(lists[k]);
    var p0, p1 := lists[..k], lists[..k + 1];
    forall m: nat | m < |p1|
      ensures Stands(statuses, layers, pipelines[from + k := p], from + m, p1[m])
    {
      if m < k {
        assert p1[m] == p0[m];
        assert Stands(statuses, layers, pipelines, from + m, p0[m]);
      }
    }
    var pipes, mem := pipelines[from + k := p], memberOf + SetOf(lists[k]);
    assert forall pid :: pid in base ==> pid < from && pid in pipes && pipes[pid] == base[pid];
    assert forall pid :: pid in pipes ==> pid in base || from <= pid < from + |p1|;
    assert forall id :: id in mem <==> id in members || InSome(p1, id);
  }

  /** The next list can be registered exactly when its nodes can be arranged and have no pipeline yet. */
  lemma NextFits(statuses: map<string, Status>, layers: int, base: map<nat, seq<Node>>, members: set<string>, from: nat,
                 pipelines: map<nat, seq<Node>>, memberOf: set<string>, lists: seq<seq<string>>, k: nat)
    requires k < |lists| && ExtendedBy(statuses, layers, base, members, from, pipelines, memberOf, lists[..k])
    requires Registrable(statuses, layers, lists[..k]) && NewTo(members, lists[..k])
    ensures from + k !in pipelines
    ensures var fits := Arrangeable(statuses, layers, lists[k]) && forall i :: 0 <= i < |lists[k]| ==> lists[k][i] !in memberOf;
            && (fits <==> Registrable(statuses, layers, lists[..k + 1]) && NewTo(members, lists[..k + 1]))
            && (!fits ==> !(Registrable(statuses, layers, lists) && NewTo(members, lists)))
  {
    hide Arrangeable, Represents, InSome, Registrable;
    RegistrableNext(statuses, layers, lists, k);
    InSomeNext(lists, k);
    if NewTo(members, lists) {
      NewLists(members, lists, k + 1);
    }
    if forall i :: 0 <= i < |lists[k]| ==> lists[k][i] !in memberOf {
      forall id | id in lists[k]
        ensures id !in memberOf
      {
        var i :| 0 <= i < |lists[k]| && lists[k][i] == id;
      }
    }
  }

  lemma NewLists(members: set<string>, lists: seq<seq<string>>, k: nat)
    requires k <= |lists| && NewTo(members, lists)
    ensures NewTo(members, lists[..k])
  {
    forall id | InSome(lists[..k], id)
      ensures id !in members
    {
      var m :| 0 <= m < k && id in lists[..k][m];
      assert id in lists[m];
      assert InSome(lists, id);
    }
  }

  function NonEmpty(lists: seq<seq<string>>): (r: seq<seq<string>>)
    ensures forall l :: l in r <==> l in lists && l != []
  {
    if lists == [] then []
    else
      var init, last := NonEmpty(lists[..|lists| - 1]), lists[|lists| - 1];
      if last == [] then init else init + [last]
  }

  class NodeManager {
    const layers: int
    /** Node ids in the order they joined. */
    var order: seq<string>
    var nodes: map<string, Node>
    var state: map<string, State>
    var pipelines: map<nat, seq<Node>>
    var memberOf: map<string, nat>

    constructor (layers: int)
      ensures this.layers == layers && Valid() && GetView() == View(map[], map[], map[], map[])
      ensures nodes == map[]
    {
      this.layers := layers;
      order, nodes, state, pipelines, memberOf := [], map[], map[], map[], map[];
    }

    ghost function GetView(): View
      reads this, nodes.Values
    {
      View(Statuses(nodes), state, AllIds(pipelines), memberOf)
    }

    ghost predicate Consistent()
      reads this
    {
      nodes.Keys == state.Keys && WellFiled(order, nodes) && WellStaffed(nodes, pipelines)
    }

    ghost predicate Valid()
      reads this, nodes.Values
    {
      Consistent() && Ok(GetView(), layers)
    }

    /** Files a new node, on standby; a known id keeps its state. */
    method Upsert(node: Node)
      requires Valid() && node.id !in nodes && node.range == Unassigned
      modifies this
      ensures nodes == old(nodes)[node.id := node] && order == old(order) + [node.id] && pipelines == old(pipelines)
      ensures GetView() == Joined(old(GetView()), node.id, node.GetStatus())
      ensures Valid()
    {
      ghost var before, after := GetView(), Joined(GetView(), node.id, node.GetStatus());
      JoinedOk(before, layers, node.id, node.GetStatus());
      FiledOneMore(order, nodes, pipelines, node);
      StatusesOneMore(nodes, node);
      hide Ok, WellStaffed, WellFiled, AllIds, Statuses;
      nodes, state, order := nodes[node.id := node], state[node.id := Standby], order + [node.id];
      assert GetView() == after;
    }

    /** Moves the nodes to standby, or fails at the first that is unknown or not active. */
    method StandbyLocked(ids: seq<string>, allowMissing: bool) returns (r: Outcome, toClear: seq<Node>)
      requires Consistent()
      modifies this`state
      ensures Consistent()
      ensures r.Done? <==> CanStandBy(old(state), ids, allowMissing)
      ensures r.Done? || r.NotFound? || r.WrongState?
      ensures r.Done? ==> state == StandbyAt(old(state), SetOf(ids))
      ensures forall n :: n in toClear ==> n.id in ids && Filed(nodes, n)
      ensures r.Done? ==> forall id :: id in ids && id in nodes ==> nodes[id] in toClear
    {
      hide WellFiled, WellStaffed, CanStandBy;
      r, toClear := Done, [];
      assert CanStandBy(state, ids[..0], allowMissing) by {
        NoneToStandBy(state, ids, allowMissing);
      }
      assert StandbyAt(state, SetOf(ids[..0])) == state;
      for k := 0 to |ids|
        invariant Consistent()
        invariant state == StandbyAt(old(state), SetOf(ids[..k])) && CanStandBy(old(state), ids[..k], allowMissing)
        invariant forall n :: n in toClear ==> n.id in ids && Filed(nodes, n)
        invariant forall id :: id in ids[..k] && id in nodes ==> nodes[id] in toClear
      {
        var id := ids[k];
        assert ids[..k + 1] == ids[..k] + [id];
        CanStandByNext(old(state), ids, k, allowMissing);
        StandbyNext(old(state), ids, k);
        if id !in nodes {
          if !allowMissing {
            return NotFound(id), toClear;
          }
        } else {
          if state[id] != Active {
            return WrongState(id), toClear;
          }
          FiledAt(order, nodes, id);
          state := state[id := Standby];
          toClear := toClear + [nodes[id]];
        }
      }
      assert ids[..|ids|] == ids;
    }

    /** Clears what the nodes served; they are the registered nodes among `gone`. */
    method Clear(toClear: seq<Node>, ghost gone: set<string>)
      requires Consistent()
      requires forall n :: n in toClear ==> n.id in gone && Filed(nodes, n)
      requires forall id :: id in gone && id in nodes ==> nodes[id] in toClear
      modifies toClear
      ensures Statuses(nodes) == ClearedAt(old(Statuses(nodes)), gone)
      ensures forall n :: n in toClear ==> n.Idle()
    {
      ClearAll(toClear);
      forall id | id in nodes
        ensures nodes[id].GetStatus() == if id in gone then CLEARED else old(nodes[id].GetStatus())
      {
        assert nodes[id].id == id;
      }
    }

    /** Moves active nodes to standby and clears what they served. */
    method StandBy(ids: seq<string>) returns (r: Outcome)
      requires Valid()
      modifies this`state, nodes.Values
      ensures Consistent()
      ensures r.Done? <==> CanStandBy(old(state), ids, false)
      ensures r.Done? ==> GetView() == StoodBy(old(GetView()), SetOf(ids)) && forall id :: id in ids && id in nodes ==> nodes[id].Idle()
      ensures r.Done? && (forall id :: id in ids ==> id !in memberOf) ==> Valid()
    {
      hide Ok, SetOf, ClearedAt, StandbyAt, CanStandBy, WellFiled, WellStaffed, Statuses, AllIds;
      ghost var before, gone := GetView(), SetOf(ids);
      if forall id :: id in ids ==> id !in memberOf {
        ListedOut(ids, memberOf.Keys);
        StoodByOk(before, layers, gone);
      }
      ListedIn(ids);
      var toClear;
      r, toClear := StandbyLocked(ids, false);
      if !r.Done? {
        return;
      }
      forall n | n in toClear
        ensures n in nodes.Values
      {
        assert Filed(nodes, n);
      }
      Clear(toClear, gone);
      assert GetView() == StoodBy(before, gone);
    }

    /** Every member but the one that left goes to standby, and the pipeline has no members any more. */
    method Detach(leaving: string, p: seq<Node>) returns (r: Outcome)
      requires Consistent()
      modifies this`state, this`memberOf, nodes.Values
      ensures Consistent() && memberOf == old(memberOf) - SetOf(Ids(p))
      ensures r.Done? <==> CanStandBy(old(state), Without(Ids(p), leaving), true)
      ensures r.Done? ==> state == StandbyAt(old(state), SetOf(Without(Ids(p), leaving)))
      ensures r.Done? ==> Statuses(nodes) == ClearedAt(old(Statuses(nodes)), SetOf(Without(Ids(p), leaving)))
    {
      hide WellFiled, WellStaffed, CanStandBy, StandbyAt, ClearedAt, Statuses, SetOf, Without, Ids;
      var ids := Ids(p);
      var rest := Without(ids, leaving);
      ghost var was := Statuses(nodes);
      memberOf := memberOf - SetOf(ids);
      ListedIn(rest);
      var toClear;
      r, toClear := StandbyLocked(rest, true);
      assert Statuses(nodes) == was;
      if !r.Done? {
        return;
      }
      forall n | n in toClear
        ensures n in nodes.Values
      {
        assert Filed(nodes, n);
      }
      Clear(toClear, SetOf(rest));
    }

    /** Dissolves the pipeline of a node that is no longer registered. */
    method Dissolve(id: string) returns (r: Outcome)
      requires nodes.Keys == state.Keys && WellFiled(order, nodes)
      requires id !in memberOf ==> WellStaffed(nodes, pipelines)
      requires id in memberOf ==>
                 && memberOf[id] in pipelines && WellStaffed(nodes, pipelines - {memberOf[id]})
                 && CanStandBy(state, Without(Ids(pipelines[memberOf[id]]), id), true)
      modifies this`state, this`memberOf, this`pipelines, nodes.Values
      ensures r.Done? && Consistent()
      ensures GetView() == Dissolved(old(GetView()), id)
    {
      hide Ok, WellFiled, WellStaffed, Statuses, ClearedAt, StandbyAt, CanStandBy, AllIds, SetOf, Without, Ids;
      ghost var before := GetView();
      if id in memberOf {
        IdsWithout(pipelines, memberOf[id]);
      } else {
        assert before.memberOf - {id} == before.memberOf;
      }
      r := Done;
      if id in memberOf {
        var pid := memberOf[id];
        memberOf := memberOf - {id};
        if pid in pipelines {
          var p := pipelines[pid];
          pipelines := pipelines - {pid};
          r := Detach(id, p);
          assert Statuses(nodes) == ClearedAt(before.nodes, SetOf(Without(before.pipelines[pid], id)));
        }
      }
    }

    /** A node leaves the registry; its pipeline, if it has one, is dissolved. */
    method Remove(id: string) returns (r: Outcome)
      requires Valid()
      modifies this, nodes.Values
      ensures Valid()
      ensures r.Done? <==> id in old(nodes)
      ensures !r.Done? ==> r == NotFound(id) && GetView() == old(GetView()) && nodes == old(nodes)
      ensures r.Done? ==> GetView() == Left(old(GetView()), id)
      ensures r.Done? ==> nodes == old(nodes) - {id} && TakenOut(old(order), id, order)
      ensures r.Done? ==> old(nodes)[id].Idle()
    {
      hide Ok, WellFiled, WellStaffed, Statuses, CanStandBy, Left, Dissolved, AllIds, Ids, Without, TakenOut, Filed, Node.GetStatus, Members, SetOf, ClearedAt, StandbyAt;
      if id !in nodes {
        assert state - {id} == state;
        state := state - {id};
        return NotFound(id);
      }
      ghost var before := GetView();
      LeftOk(before, layers, id);
      DepartureSteps(before, layers, id);
      var removed := Pop(id);
      r := Dissolve(id);
      removed.ClearServingState();
    }

    /** Takes a node out of the registry, and nothing else. */
    method Pop(id: string) returns (removed: Node)
      requires Valid() && id in nodes
      modifies this`state, this`nodes, this`order
      ensures removed == old(nodes)[id] && nodes == old(nodes) - {id} && removed !in nodes.Values && TakenOut(old(order), id, order)
      ensures GetView() == Popped(old(GetView()), id)
      ensures nodes.Keys == state.Keys && WellFiled(order, nodes)
      ensures id !in memberOf ==> WellStaffed(nodes, pipelines)
      ensures id in memberOf ==>
                && memberOf[id] in pipelines && WellStaffed(nodes, pipelines - {memberOf[id]})
                && CanStandBy(state, Without(Ids(pipelines[memberOf[id]]), id), true)
    {
      hide Ok, WellFiled, WellStaffed, Statuses, CanStandBy, AllIds, Ids, Without, TakenOut, Filed;
      BeforeDeparture(id);
      removed := nodes[id];
      state, nodes, order := state - {id}, nodes - {id}, Without(order, id);
    }

    /** The registry without the departing node is consistent, but for the node's own pipeline. */
    lemma BeforeDeparture(id: string)
      requires Valid() && id in nodes
      ensures Statuses(nodes - {id}) == Statuses(nodes) - {id}
      ensures WellFiled(Without(order, id), nodes - {id}) && nodes[id] !in (nodes - {id}).Values
      ensures TakenOut(order, id, Without(order, id))
      ensures id !in memberOf ==> WellStaffed(nodes - {id}, pipelines)
      ensures id in memberOf ==>
                && memberOf[id] in pipelines && WellStaffed(nodes - {id}, pipelines - {memberOf[id]})
                && CanStandBy(state - {id}, Without(Ids(pipelines[memberOf[id]]), id), true)
    {
      StatusesOneLess(nodes, id);
      WithoutTakesOut(order, id);
      FiledOneLess(order, nodes, id);
      OthersStaffed(id);
      OwnPipeline(GetView(), layers, id);
      if id in memberOf {
        DepartureRest(GetView(), layers, id);
        hide *;
      }
    }

    /** The pipelines that stay are staffed without the departing node. */
    lemma OthersStaffed(id: string)
      requires Valid() && id in nodes
      ensures id !in memberOf ==> WellStaffed(nodes - {id}, pipelines)
      ensures id in memberOf ==> WellStaffed(nodes - {id}, pipelines - {memberOf[id]})
    {
      hide WellFiled, Statuses, Ok;
      var others: map<nat, seq<Node>> := if id in memberOf then pipelines - {memberOf[id]} else pipelines;
      forall pid, k | pid in others && 0 <= k < |others[pid]|
        ensures others[pid][k].id != id
      {
        OthersKeep(GetView(), layers, id, pid);
        assert Ids(pipelines[pid])[k] == others[pid][k].id;
      }
      StaffedOneLess(nodes, others, id);
    }

    /** Marks standby nodes active, or fails at the first that is unknown or not on standby. */
    method Activate(id: string) returns (r: Outcome)
      requires Consistent()
      modifies this`state
      ensures r.Done? <==> id in nodes && old(state)[id] == Standby
      ensures state == if r.Done? then old(state)[id := Active] else old(state)
    {
      if id !in nodes {
        return NotFound(id);
      }
      if state[id] != Standby {
        return WrongState(id);
      }
      state := state[id := Active];
      r := Done;
    }

    /** Gives a node layers and activates it; a refused attempt may already have written to the node. */
    method Allocate(node: Node, start: int, end: int) returns (r: Outcome)
      requires Valid() && (node.id in nodes ==> nodes[node.id] == node)
      modifies this`state, node`range
      ensures r.Done? <==> node.id in nodes && old(state)[node.id] == Standby && 0 <= start < end <= layers
      ensures Consistent() && GetView() == Attempted(old(GetView()), node.id, start, end)
      ensures r.Done? ==> Valid() && GetView() == Allocated(old(GetView()), node.id, start, end) && node.range == Layers(start, end)
    {
      hide Ok, WellStaffed, AllIds, WellFiled, Statuses;
      if end <= start {
        return InvalidRange;
      }
      ghost var before := GetView();
      SetRange(node, Layers(start, end));
      r := Activate(node.id);
      if !r.Done? {
        return;
      }
      if start < 0 || end > layers {
        return NoSuchLayer;
      }
      AllocatedOk(before, layers, node.id, start, end);
    }

    /** Writes a node's range; a node that is not registered does not show. */
    method SetRange(node: Node, range: Range)
      requires Consistent() && (node.id in nodes ==> nodes[node.id] == node)
      modifies node`range
      ensures Consistent()
      ensures node.range == range
      ensures Statuses(nodes) == if node.id in nodes then old(Statuses(nodes))[node.id := old(Statuses(nodes))[node.id].(range := range)] else old(Statuses(nodes))
    {
      ghost var before := Statuses(nodes);
      node.range := range;
      if node.id in nodes {
        StatusesAllocated(before, node);
      } else {
        StatusesSame(before, node);
      }
    }

    lemma StatusesSame(before: map<string, Status>, node: Node)
      requires Consistent() && before.Keys == nodes.Keys && node.id !in nodes
      requires forall id :: id in nodes && nodes[id] != node ==> before[id] == nodes[id].GetStatus()
      ensures Statuses(nodes) == before
    {
    }

    lemma StatusesAllocated(before: map<string, Status>, node: Node)
      requires Consistent() && before.Keys == nodes.Keys && Filed(nodes, node)
      requires before[node.id].(range := node.range) == node.GetStatus()
      requires forall id :: id in nodes && id != node.id ==> before[id] == nodes[id].GetStatus()
      ensures Statuses(nodes) == before[node.id := before[node.id].(range := node.range)]
    {
    }

    /** The active nodes. */
    method ActiveNodes() returns (ns: seq<Node>)
      requires Consistent()
      ensures forall n :: n in ns ==> Filed(nodes, n) && state[n.id] == Active
      ensures forall id :: id in nodes && state[id] == Active ==> nodes[id] in ns
      ensures forall a, b :: 0 <= a < b < |ns| ==> ns[a].id != ns[b].id
    {
      hide WellStaffed;
      ns := [];
      for k := 0 to |order|
        invariant forall n :: n in ns ==> Filed(nodes, n) && state[n.id] == Active && n.id in order[..k]
        invariant forall id :: id in order[..k] && state[id] == Active ==> nodes[id] in ns
        invariant forall a, b :: 0 <= a < b < |ns| ==> ns[a].id != ns[b].id
      {
        var id := order[k];
        assert id in order && order[..k + 1] == order[..k] + [id];
        if state[id] == Active {
          FiledAt(order, nodes, id);
          forall a | 0 <= a < |ns|
            ensures ns[a].id != id
          {
            assert ns[a] in ns;
          }
          ns := ns + [nodes[id]];
        }
      }
      assert order[..|order|] == order;
    }

    /** The nodes the ids name, in order, or the first id that names none. */
    method Lookup(ids: seq<string>) returns (r: Outcome, found: seq<Node>)
      requires Consistent()
      ensures r.Done? <==> forall k :: 0 <= k < |ids| ==> ids[k] in nodes
      ensures r.Done? ==> Ids(found) == ids && forall n :: n in found ==> Filed(nodes, n)
      ensures !r.Done? ==> r.NotFound?
    {
      hide WellStaffed;
      r, found := Done, [];
      for k := 0 to |ids|
        invariant Ids(found) == ids[..k] && forall n :: n in found ==> Filed(nodes, n)
        invariant forall m :: 0 <= m < k ==> ids[m] in nodes
      {
        if ids[k] !in nodes {
          return NotFound(ids[k]), [];
        }
        FiledAt(order, nodes, ids[k]);
        found := found + [nodes[ids[k]]];
      }
    }

    /** Stages by first layer, then last; equal keys keep their order. */
    method SortStages(stages: seq<Node>) returns (sorted: seq<Node>)
      requires forall n :: n in stages ==> Filed(nodes, n)
      ensures forall n :: n in sorted ==> Filed(nodes, n)
      ensures SortedStages(Statuses(nodes), Ids(sorted)) && multiset(Ids(sorted)) == multiset(Ids(stages))
    {
      hide Statuses, Ids, SortedStages;
      sorted := [];
      assert SortedStages(Statuses(nodes), Ids([])) && Ids([]) == [] by {
        NothingToSort(Statuses(nodes));
      }
      for k := 0 to |stages|
        invariant forall n :: n in sorted ==> Filed(nodes, n)
        invariant SortedStages(Statuses(nodes), Ids(sorted)) && multiset(Ids(sorted)) == multiset(Ids(stages[..k]))
      {
        var n := stages[k];
        assert stages[..k + 1] == stages[..k][..k] + [n] + stages[..k][k..];
        IdsInserted(stages[..k], k, n);
        assert n in stages && Filed(nodes, n);
        StatusAt(nodes, n.id);
        var at := |sorted|;
        while at > 0 && !KeyAtMost(sorted[at - 1].range, n.range)
          invariant 0 <= at <= |sorted|
          invariant at < |sorted| ==> !KeyAtMost(sorted[at].range, n.range)
        {
          at := at - 1;
        }
        if at > 0 {
          assert sorted[at - 1] in sorted;
          StatusAt(nodes, sorted[at - 1].id);
        }
        if at < |sorted| {
          assert sorted[at] in sorted;
          StatusAt(nodes, sorted[at].id);
        }
        SortedInserted(Statuses(nodes), Ids(sorted), at, n.id);
        IdsInserted(sorted, at, n);
        sorted := sorted[..at] + [n] + sorted[at..];
      }
      assert stages[..|stages|] == stages;
    }

    /** Whether the stages cover all layers, in order, without gap or overlap. */
    method CoversAll(stages: seq<Node>) returns (ok: bool)
      requires forall n :: n in stages ==> Filed(nodes, n)
      ensures ok <==> Tiling(Statuses(nodes), layers, Ids(stages))
    {
      if stages == [] {
        return false;
      }
      forall k | 0 <= k < |stages|
        ensures Ids(stages)[k] in nodes && Statuses(nodes)[Ids(stages)[k]].range == stages[k].range
      {
        assert Filed(nodes, stages[k]);
      }
      for k := 0 to |stages|
        invariant forall m :: 0 <= m < k ==> Fits(stages[m].range, layers)
      {
        if !Fits(stages[k].range, layers) {
          assert !Fits(Statuses(nodes)[Ids(stages)[k]].range, layers);
          return false;
        }
      }
      if stages[0].range.start != 0 {
        return false;
      }
      for k := 1 to |stages|
        invariant forall m :: 0 < m < k ==> stages[m - 1].range.end == stages[m].range.start
      {
        if stages[k].range.start != stages[k - 1].range.end {
          assert Ids(stages)[k] == stages[k].id && Ids(stages)[k - 1] == stages[k - 1].id;
          return false;
        }
      }
      return stages[|stages| - 1].range.end == layers;
    }

    /** A pipeline of registered nodes, in stage order; the ids may come in any order. */
    method BuildPipeline(ids: seq<string>) returns (r: Outcome, stages: seq<Node>)
      requires Consistent()
      ensures r.Done? <==> Arrangeable(Statuses(nodes), layers, ids)
      ensures r.Done? ==> Tiling(Statuses(nodes), layers, Ids(stages)) && multiset(Ids(stages)) == multiset(ids)
      ensures r.Done? ==> forall n :: n in stages ==> Filed(nodes, n)
      ensures Tiling(Statuses(nodes), layers, ids) ==> Ids(stages) == ids
      ensures r.Done? || r.NotFound? || r.BadPipeline?
    {
      hide Statuses, Tiling, SortedStages, WellFiled, WellStaffed, Ids;
      var found;
      r, found := Lookup(ids);
      if !r.Done? {
        Unarrangeable(Statuses(nodes), ids);
        return r, [];
      }
      stages := SortStages(found);
      SortedArrangement(Statuses(nodes), layers, ids, Ids(stages));
      var ok := CoversAll(stages);
      if !ok {
        r := BadPipeline;
      }
    }

    lemma NothingToSort(statuses: map<string, Status>)
      ensures SortedStages(statuses, Ids([])) && Ids([]) == []
    {
    }

    lemma Unarrangeable(statuses: map<string, Status>, ids: seq<string>)
      requires exists k :: 0 <= k < |ids| && ids[k] !in statuses
      ensures !Arrangeable(statuses, layers, ids) && !Tiling(statuses, layers, ids)
    {
      var k :| 0 <= k < |ids| && ids[k] !in statuses;
      forall q | multiset(q) == multiset(ids)
        ensures !Tiling(statuses, layers, q)
      {
        assert ids[k] in multiset(q);
      }
    }

    /** Files nodes under a pipeline, activating them if asked; stops at the first that already belongs to one. */
    method FileMembers(pid: nat, ids: seq<string>, activate: bool) returns (r: Outcome, ghost k: nat)
      requires forall i :: 0 <= i < |ids| ==> ids[i] in state
      modifies this`memberOf, this`state
      ensures k <= |ids| && state == if activate then ActiveAt(old(state), SetOf(ids[..k])) else old(state)
      ensures memberOf == MadeMembers(old(memberOf), SetOf(ids[..k]), pid)
      ensures forall m :: 0 <= m < k ==> ids[m] !in old(memberOf)
      ensures if k == |ids| then r.Done? else r == AlreadyMember(ids[k]) && ids[k] in memberOf
    {
      hide SetOf, MadeMembers, ActiveAt;
      MembersGrow(memberOf, ids, 0, pid);
      ActivatedGrow(state, ids, 0);
      k := 0;
      for j := 0 to |ids|
        invariant k == j && state == if activate then ActiveAt(old(state), SetOf(ids[..k])) else old(state)
        invariant state.Keys == old(state).Keys
        invariant memberOf == MadeMembers(old(memberOf), SetOf(ids[..k]), pid)
        invariant forall m :: 0 <= m < k ==> ids[m] !in old(memberOf)
      {
        var id := ids[j];
        MembersGrow(old(memberOf), ids, k, pid);
        ActivatedGrow(old(state), ids, k);
        if id in memberOf {
          return AlreadyMember(id), k;
        }
        if activate && state[id] != Active {
          state := state[id := Active];
        }
        memberOf := memberOf[id := pid];
        k := k + 1;
      }
      r := Done;
    }

    /** Registers one pipeline; fails at the first node that already belongs to one. */
    method Enroll(pid: nat, ids: seq<string>, activate: bool) returns (r: Outcome)
      requires Valid() && pid !in pipelines
      modifies this`pipelines, this`memberOf, this`state
      ensures Consistent() && state == old(state)
      ensures r.Done? <==> Arrangeable(Statuses(nodes), layers, ids) && forall k :: 0 <= k < |ids| ==> ids[k] !in old(memberOf)
      ensures r.Done? ==>
                && Valid() && pid in pipelines
                && GetView() == Enrolled(old(GetView()), pid, Ids(pipelines[pid]))
                && memberOf.Keys == old(memberOf).Keys + SetOf(ids)
                && pipelines == old(pipelines)[pid := pipelines[pid]]
                && Represents(Statuses(nodes), layers, pipelines[pid], ids)
      ensures r.NotFound? || r.BadPipeline? ==> GetView() == old(GetView()) && !Arrangeable(Statuses(nodes), layers, ids)
      ensures r.AlreadyMember? ==> !Ok(GetView(), layers)
      ensures r.Done? || r.NotFound? || r.BadPipeline? || r.AlreadyMember?
    {
      hide Statuses, Tiling, Arrangeable, WellFiled, WellStaffed, Ids, AllIds, Ok, SetOf, Enrolled, MadeMembers, Filed, ActiveAt;
      ghost var before := GetView();
      var stages;
      r, stages := BuildPipeline(ids);
      if !r.Done? {
        return;
      }
      ArrangedMembers(Statuses(nodes), before, layers, ids, Ids(stages));
      StaffedOneMore(nodes, pipelines, pid, stages);
      pipelines := pipelines[pid := stages];
      ghost var k;
      r, k := FileMembers(pid, ids, activate);
      AlreadyActive(before.state, ids, k);
      if r.Done? {
        assert ids[..k] == ids;
        EnrolledView(before, layers, pid, ids, Ids(stages));
      } else {
        OverlapAt(GetView(), before, layers, pid, ids, k, Ids(stages));
      }
    }

    /** With no pipelines, placement is all there is to the invariant. */
    lemma NothingRegistered()
      requires Consistent() && Placed(GetView(), layers)
      ensures WellStaffed(nodes, map[])
      ensures Ok(GetView().(pipelines := AllIds(map[]), memberOf := map[]), layers)
    {
    }

    /** Registers the lists in turn, from pid `from` on. */
    method EnrollAll(from: nat, lists: seq<seq<string>>, activate: bool) returns (r: Outcome)
      requires Valid() && forall pid :: pid in pipelines ==> pid < from
      modifies this`pipelines, this`memberOf, this`state
      ensures Consistent() && state == old(state)
      ensures r.Done? <==> Registrable(Statuses(nodes), layers, lists) && NewTo(old(memberOf).Keys, lists)
      ensures r.Done? ==> ExtendedBy(Statuses(nodes), layers, old(pipelines), old(memberOf).Keys, from, pipelines, memberOf.Keys, lists)
      ensures Ok(GetView(), layers) <==> !r.AlreadyMember?
      ensures (forall l :: l in lists ==> Arrangeable(Statuses(nodes), layers, l)) ==> r.Done? || r.AlreadyMember?
    {
      hide Statuses, Arrangeable, Tiling, WellFiled, AllIds, SetOf, Enrolled, Represents, Registrable, WellStaffed, ExtendedBy, NewTo, InSome, Ok;
      ghost var base, members := pipelines, memberOf.Keys;
      r := Done;
      ExtendedNone(Statuses(nodes), layers, base, members, from, lists);
      for k := 0 to |lists|
        invariant Valid() && ExtendedBy(Statuses(nodes), layers, base, members, from, pipelines, memberOf.Keys, lists[..k])
        invariant Registrable(Statuses(nodes), layers, lists[..k]) && NewTo(members, lists[..k]) && r == Done && state == old(state)
      {
        NextFits(Statuses(nodes), layers, base, members, from, pipelines, memberOf.Keys, lists, k);
        ghost var pipelines0, members0 := pipelines, memberOf.Keys;
        r := Enroll(from + k, lists[k], activate);
        if !r.Done? {
          return;
        }
        ExtendedNext(Statuses(nodes), layers, base, members, from, pipelines0, members0, lists, k, pipelines[from + k]);
      }
      assert lists[..|lists|] == lists;
    }

    /** Replaces the registered pipelines; every list must be a pipeline, and no node may be listed twice. */
    method RegisterPipelines(lists: seq<seq<string>>) returns (r: Outcome)
      requires Consistent() && Placed(GetView(), layers)
      modifies this`pipelines, this`memberOf, this`state
      ensures Consistent() && state == old(state)
      ensures r.Done? <==> Registrable(Statuses(nodes), layers, lists)
      ensures r.Done? ==> Valid() && ExtendedBy(Statuses(nodes), layers, map[], {}, 0, pipelines, memberOf.Keys, lists)
    {
      hide Statuses, Registrable, WellFiled, WellStaffed, ExtendedBy, Ok, Placed, AllIds, InSome;
      NothingRegistered();
      pipelines, memberOf := map[], map[];
      assert memberOf.Keys == {};
      r := EnrollAll(0, lists, true);
      assert NewTo({}, lists);
    }

    /** A pid above all registered ones: 0 when there is none. */
    method NextPid() returns (next: nat)
      ensures forall pid :: pid in pipelines ==> pid < next
      ensures next > 0 ==> next - 1 in pipelines
    {
      next := 0;
      var keys := pipelines.Keys;
      while keys != {}
        invariant keys <= pipelines.Keys
        invariant forall pid :: pid in pipelines ==> pid in keys || pid < next
        invariant next > 0 ==> next - 1 in pipelines
      {
        ghost var _ := Totals.Element(keys);
        var pid: nat :| pid in keys;
        if pid >= next {
          next := pid + 1;
        }
        keys := keys - {pid};
      }
    }

    /**
     * Adds pipelines to the registered ones. The registry stays sound exactly when no listed node
     * turns out to have a pipeline already; otherwise the failing list is half registered.
     */
    method ExtendRegisteredPipelines(lists: seq<seq<string>>) returns (r: Outcome, ghost from: nat)
      requires Valid()
      modifies this`pipelines, this`memberOf, this`state
      ensures Consistent() && state == old(state)
      ensures r.Done? <==> Registrable(Statuses(nodes), layers, NonEmpty(lists)) && NewTo(old(memberOf).Keys, NonEmpty(lists))
      ensures r.Done? ==> ExtendedBy(Statuses(nodes), layers, old(pipelines), old(memberOf).Keys, from, pipelines, memberOf.Keys, NonEmpty(lists))
      ensures Ok(GetView(), layers) <==> !r.AlreadyMember?
      ensures (forall l :: l in lists && l != [] ==> Arrangeable(Statuses(nodes), layers, l)) ==> r.Done? || r.AlreadyMember?
    {
      hide Statuses, Registrable, WellFiled, WellStaffed, ExtendedBy, Ok, AllIds, NewTo, NonEmpty;
      var next := NextPid();
      from := next;
      r := EnrollAll(next, NonEmpty(lists), false);
    }

    /** Sends every registered member to standby and forgets the pipelines. */
    method ClearRegisteredPipelines() returns (r: Outcome)
      requires Valid()
      modifies this`state, this`pipelines, this`memberOf, nodes.Values
      ensures Valid() && r.Done?
      ensures GetView() == StoodBy(old(GetView()), old(memberOf).Keys).(pipelines := map[], memberOf := map[])
    {
      hide Statuses, WellFiled, WellStaffed, Ok, AllIds, StandbyAt, ClearedAt, CanStandBy, SetOf;
      ghost var before := GetView();
      var ids := KeyList(memberOf);
      MembersStandBy(before, layers, ids);
      r := StandBy(ids);
      if !r.Done? {
        return;
      }
      Forget();
      ClearedOk(before, layers);
    }

    /** Forgets all pipelines and who belongs to them. */
    method Forget()
      requires Consistent()
      modifies this`pipelines, this`memberOf
      ensures Consistent() && pipelines == map[] && memberOf == map[]
      ensures GetView() == old(GetView()).(pipelines := map[], memberOf := map[])
    {
      hide Statuses, WellFiled, WellStaffed, AllIds;
      ghost var was := Statuses(nodes);
      pipelines, memberOf := map[], map[];
      NoPipelines(nodes);
      assert Statuses(nodes) == was;
    }
  }

  lemma NoPipelines(nodes: map<string, Node>)
    ensures WellStaffed(nodes, map[]) && AllIds(map[]) == map[]
  {
  }

  /** All registered members are active, so they can go to standby. */
  lemma MembersStandBy(v: View, layers: int, ids: seq<string>)
    requires Ok(v, layers) && NoRepeats(ids) && forall id :: id in ids <==> id in v.memberOf
    ensures CanStandBy(v.state, ids, false) && SetOf(ids) == v.memberOf.Keys
  {
    forall k | 0 <= k < |ids|
      ensures ids[k] in v.state && v.state[ids[k]] == Active && ids[k] !in ids[..k]
    {
      assert ids[k] in v.memberOf;
      assert Serving(v, layers, v.memberOf[ids[k]]);
    }
  }

  lemma ClearedOk(v: View, layers: int)
    requires Ok(v, layers)
    ensures Ok(StoodBy(v, v.memberOf.Keys).(pipelines := map[], memberOf := map[]), layers)
  {
  }

  /** The keys of a map, in some order. */
  method KeyList(m: map<string, nat>) returns (keys: seq<string>)
    ensures NoRepeats(keys) && forall id :: id in keys <==> id in m
  {
    keys := [];
    var rest := m.Keys;
    while rest != {}
      invariant rest <= m.Keys
      invariant forall id :: id in keys <==> id in m && id !in rest
      invariant NoRepeats(keys)
    {
      ghost var _ := Totals.Element(rest);
      var id :| id in rest;
      assert forall k :: 0 <= k < |keys| ==> keys[k] in keys && keys[k] != id;
      keys, rest := keys + [id], rest - {id};
    }
  }
}
