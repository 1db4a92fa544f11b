/** What the allocator decides, as the scheduler sees it: which waiting nodes get which layers, and whether it raises. */
module Placements {
  import opened Hosts
  import opened Lifecycle
  import opened Sequences

  /** One call of `allocate`: the node and the layers it is given. */
  datatype Placement = Placement(id: string, start: int, end: int)

  /** One run of the allocator: its placements in order, and whether it raises after them. */
  datatype Allotment = Allotment(placements: seq<Placement>, raises: bool)

  predicate Fitting(state: map<string, State>, layers: int, p: Placement) {
    p.id in state && state[p.id] == Standby && 0 <= p.start < p.end <= layers
  }

  /** Waiting nodes, none twice, and layers of the model. */
  ghost predicate Placeable(state: map<string, State>, layers: int, ps: seq<Placement>) {
    && (forall k :: 0 <= k < |ps| ==> Fitting(state, layers, ps[k]))
    && (forall j, k :: 0 <= j < k < |ps| ==> ps[j].id != ps[k].id)
  }

  /** The run ends with an exception: its own, or that of a placement that is refused. */
  ghost predicate Raises(state: map<string, State>, layers: int, plan: Allotment) {
    plan.raises || !Placeable(state, layers, plan.placements)
  }

  function Targets(ps: seq<Placement>): (r: set<string>)
    ensures forall k :: 0 <= k < |ps| ==> ps[k].id in r
  {
    set k | 0 <= k < |ps| :: ps[k].id
  }

  /** The registry after the placements. */
  ghost function PlacedAll(v: View, ps: seq<Placement>): (w: View)
    ensures w.nodes.Keys == v.nodes.Keys && w.pipelines == v.pipelines && w.memberOf == v.memberOf
  {
    if ps == [] then v
    else
      var w, p := PlacedAll(v, ps[..|ps| - 1]), ps[|ps| - 1];
      if p.id in w.nodes then Allocated(w, p.id, p.start, p.end) else w
  }

  /** The registry after a run that stops at the first placement that is refused. */
  ghost function AfterRun(v: View, layers: int, ps: seq<Placement>): View {
    if ps == [] then v
    else
      var init, p := ps[..|ps| - 1], ps[|ps| - 1];
      if Placeable(v.state, layers, init) then Attempted(PlacedAll(v, init), p.id, p.start, p.end)
      else AfterRun(v, layers, init)
  }

  /** The placement that ends the run writes to a node before it is refused. */
  ghost predicate Spoils(v: View, layers: int, ps: seq<Placement>) {
    exists k :: 0 <= k < |ps| && StopsAt(v.state, layers, ps, k) && ps[k].id in v.nodes && ps[k].start < ps[k].end
  }

  ghost predicate StopsAt(state: map<string, State>, layers: int, ps: seq<Placement>, k: nat)
    requires k < |ps|
  {
    Placeable(state, layers, ps[..k]) && !Placeable(state, layers, ps[..k + 1])
  }

  lemma AfterAll(v: View, layers: int, ps: seq<Placement>)
    requires v.nodes.Keys == v.state.Keys && Placeable(v.state, layers, ps)
    ensures AfterRun(v, layers, ps) == PlacedAll(v, ps) && !Spoils(v, layers, ps)
  {
    hide PlacedAll, Placeable, StopsAt, Targets, ActiveAt;
    forall k | 0 <= k < |ps|
      ensures !StopsAt(v.state, layers, ps, k)
    {
      GoesOn(v.state, layers, ps, k);
    }
    if ps != [] {
      PlaceableLess(v.state, layers, ps);
      var init := ps[..|ps| - 1];
      assert init + [ps[|ps| - 1]] == ps && ps[..|ps|] == ps;
      PlacedLast(v, ps);
      PlacedState(v, layers, init);
      FittingWas(v.state, layers, Targets(init), ps[|ps| - 1]);
    } else {
      NothingPlaced(v, layers, ps);
    }
  }

  lemma GoesOn(state: map<string, State>, layers: int, ps: seq<Placement>, k: nat)
    requires Placeable(state, layers, ps) && k < |ps|
    ensures !StopsAt(state, layers, ps, k)
  {
    PlaceablePrefix(state, layers, ps, k + 1);
  }

  lemma NothingPlaced(v: View, layers: int, ps: seq<Placement>)
    ensures Placeable(v.state, layers, ps[..0]) && PlacedAll(v, ps[..0]) == v
  {
  }

  lemma {:induction false} AfterRefused(v: View, layers: int, ps: seq<Placement>, k: nat)
    requires v.nodes.Keys == v.state.Keys && k < |ps| && StopsAt(v.state, layers, ps, k)
    ensures AfterRun(v, layers, ps) == Attempted(PlacedAll(v, ps[..k]), ps[k].id, ps[k].start, ps[k].end)
    decreases |ps|
  {
    hide PlacedAll, Placeable, Attempted;
    var init := ps[..|ps| - 1];
    if k < |ps| - 1 {
      assert init[..k] == ps[..k] && init[..k + 1] == ps[..k + 1];
      StillRefused(v.state, layers, init, k);
      AfterRefused(v, layers, init, k);
    }
  }

  lemma StillRefused(state: map<string, State>, layers: int, ps: seq<Placement>, k: nat)
    requires k < |ps| && StopsAt(state, layers, ps, k)
    ensures !Placeable(state, layers, ps)
  {
    if Placeable(state, layers, ps) {
      PlaceablePrefix(state, layers, ps, k + 1);
      assert false;
    }
  }

  lemma PlaceablePrefix(state: map<string, State>, layers: int, ps: seq<Placement>, n: nat)
    requires Placeable(state, layers, ps) && n <= |ps|
    ensures Placeable(state, layers, ps[..n])
  {
    assert forall j :: 0 <= j < n ==> ps[..n][j] == ps[j];
  }

  /** The placed nodes become active and the others stay as they are. */
  lemma {:induction false} PlacedState(v: View, layers: int, ps: seq<Placement>)
    requires v.nodes.Keys == v.state.Keys && Placeable(v.state, layers, ps)
    ensures PlacedAll(v, ps).state == ActiveAt(v.state, Targets(ps))
    ensures forall id :: id in v.nodes && id !in Targets(ps) ==> PlacedAll(v, ps).nodes[id] == v.nodes[id]
  {
    if ps == [] {
      assert ActiveAt(v.state, {}) == v.state;
    } else {
      var init, p := ps[..|ps| - 1], ps[|ps| - 1];
      PlaceableLess(v.state, layers, ps);
      PlacedState(v, layers, init);
      TargetsNext(ps);
      hide PlacedAll, Placeable, Targets;
      ActiveNext(v.state, Targets(init), p.id);
      PlacedLast(v, ps);
    }
  }

  lemma PlaceableLess(state: map<string, State>, layers: int, ps: seq<Placement>)
    requires Placeable(state, layers, ps) && ps != []
    ensures Placeable(state, layers, ps[..|ps| - 1]) && Fitting(state, layers, ps[|ps| - 1]) && ps[|ps| - 1].id !in Targets(ps[..|ps| - 1])
  {
    var init := ps[..|ps| - 1];
    assert forall k :: 0 <= k < |init| ==> init[k] == ps[k];
  }

  lemma PlacedLast(v: View, ps: seq<Placement>)
    requires ps != [] && ps[|ps| - 1].id in v.nodes
    ensures var p := ps[|ps| - 1]; PlacedAll(v, ps) == Allocated(PlacedAll(v, ps[..|ps| - 1]), p.id, p.start, p.end)
  {
  }

  lemma ActiveNext(state: map<string, State>, ids: set<string>, id: string)
    requires id in state
    ensures ActiveAt(state, ids + {id}) == ActiveAt(state, ids)[id := Active]
  {
  }

  /** Every placement holds at the end. */
  lemma {:induction false} PlacedAt(v: View, layers: int, ps: seq<Placement>, k: nat)
    requires v.nodes.Keys == v.state.Keys && Placeable(v.state, layers, ps) && k < |ps|
    ensures ps[k].id in v.nodes && PlacedAll(v, ps).nodes[ps[k].id].range == Layers(ps[k].start, ps[k].end)
  {
    assert Fitting(v.state, layers, ps[k]);
    PlaceableLess(v.state, layers, ps);
    PlacedLast(v, ps);
    if k < |ps| - 1 {
      PlacedAt(v, layers, ps[..|ps| - 1], k);
    }
  }

  lemma TargetsNext(ps: seq<Placement>)
    requires ps != []
    ensures Targets(ps) == Targets(ps[..|ps| - 1]) + {ps[|ps| - 1].id}
  {
    var init := ps[..|ps| - 1];
    forall id | id in Targets(ps)
      ensures id in Targets(init) || id == ps[|ps| - 1].id
    {
      var k :| 0 <= k < |ps| && ps[k].id == id;
      assert k < |init| ==> init[k].id == id;
    }
    forall id | id in Targets(init)
      ensures id in Targets(ps)
    {
      var k :| 0 <= k < |init| && init[k].id == id;
      assert ps[k].id == id;
    }
  }

  /** One more placement is refused exactly when the placements up to it cannot be made. */
  lemma PlacedNext(v: View, layers: int, ps: seq<Placement>, k: nat)
    requires v.nodes.Keys == v.state.Keys && k < |ps| && Placeable(v.state, layers, ps[..k])
    ensures Fitting(PlacedAll(v, ps[..k]).state, layers, ps[k]) <==> Placeable(v.state, layers, ps[..k + 1])
    ensures !Placeable(v.state, layers, ps[..k + 1]) ==> !Placeable(v.state, layers, ps)
    ensures Fitting(PlacedAll(v, ps[..k]).state, layers, ps[k]) ==>
              PlacedAll(v, ps[..k + 1]) == Allocated(PlacedAll(v, ps[..k]), ps[k].id, ps[k].start, ps[k].end)
  {
    hide PlacedAll, Placeable, ActiveAt, Targets;
    PlacedState(v, layers, ps[..k]);
    RefusedNext(v.state, layers, ps, k);
    var next := ps[..k + 1];
    assert next[..|next| - 1] == ps[..k] && next[|next| - 1] == ps[k];
    if ps[k].id in v.nodes {
      PlacedLast(v, next);
    }
    FittingWas(v.state, layers, Targets(ps[..k]), ps[k]);
  }

  lemma FittingWas(state: map<string, State>, layers: int, ids: set<string>, p: Placement)
    ensures Fitting(ActiveAt(state, ids), layers, p) <==> Fitting(state, layers, p) && p.id !in ids
  {
  }

  lemma RefusedNext(state: map<string, State>, layers: int, ps: seq<Placement>, k: nat)
    requires k < |ps| && Placeable(state, layers, ps[..k])
    ensures Fitting(ActiveAt(state, Targets(ps[..k])), layers, ps[k]) <==> Placeable(state, layers, ps[..k + 1])
    ensures !Placeable(state, layers, ps[..k + 1]) ==> !Placeable(state, layers, ps)
  {
    hide Fitting;
    var before, next := ps[..k], ps[..k + 1];
    FittingWas(state, layers, Targets(before), ps[k]);
    assert forall j :: 0 <= j < k ==> next[j] == before[j] == ps[j];
    assert next[k] == ps[k];
    if ps[k].id in Targets(before) {
      var j :| 0 <= j < k && before[j].id == ps[k].id;
      assert next[j].id == next[k].id;
    }
  }

  /** The nodes that became active are exactly the placed ones. */
  lemma NewlyPlaced(v: View, layers: int, ps: seq<Placement>, id: string)
    requires v.nodes.Keys == v.state.Keys && Placeable(v.state, layers, ps)
    ensures IsActive(PlacedAll(v, ps), id) && !IsActive(v, id) <==> id in Targets(ps)
    ensures IsActive(v, id) ==> IsActive(PlacedAll(v, ps), id) && PlacedAll(v, ps).nodes[id] == v.nodes[id]
  {
    PlacedState(v, layers, ps);
    if id in Targets(ps) {
      var k :| 0 <= k < |ps| && ps[k].id == id;
      assert Fitting(v.state, layers, ps[k]);
    }
  }

  /** The ids name nodes among the given ones that cover all layers. */
  ghost predicate CoverAmong(v: View, layers: int, among: set<string>, ids: seq<string>) {
    Tiling(v.nodes, layers, ids) && forall k :: 0 <= k < |ids| ==> ids[k] in among
  }

  ghost predicate ShareNode(a: seq<string>, b: seq<string>) {
    exists id :: id in a && id in b
  }

  /** Two different covers by the given nodes share a node. */
  ghost predicate CoversOverlap(v: View, layers: int, among: set<string>) {
    exists a, b :: CoverAmong(v, layers, among, a) && CoverAmong(v, layers, among, b) && a != b && ShareNode(a, b)
  }

  lemma PairCovers(v: View, layers: int, ps: seq<Placement>, i: nat, j: nat)
    requires v.nodes.Keys == v.state.Keys && Placeable(v.state, layers, ps) && i < |ps| && j < |ps|
    requires ps[i].start == 0 && ps[i].end == ps[j].start && ps[j].end == layers
    ensures CoverAmong(PlacedAll(v, ps), layers, Targets(ps), [ps[i].id, ps[j].id])
  {
    hide PlacedAll, Targets;
    PlacedAt(v, layers, ps, i);
    PlacedAt(v, layers, ps, j);
  }

  /** Four waiting nodes placed as two pipelines with the same cut: either half goes with either other half. */
  lemma TwoPipelinesOverlap(v: View, a: string, b: string, c: string, d: string)
    requires v.nodes.Keys == v.state.Keys && NoRepeats([a, b, c, d])
    requires forall id :: id in [a, b, c, d] ==> id in v.state && v.state[id] == Standby
    ensures var ps := [Placement(a, 0, 2), Placement(b, 2, 4), Placement(c, 0, 2), Placement(d, 2, 4)];
            !Raises(v.state, 4, Allotment(ps, false)) && CoversOverlap(PlacedAll(v, ps), 4, Targets(ps))
  {
    hide PlacedAll, Targets, CoverAmong;
    var ps := [Placement(a, 0, 2), Placement(b, 2, 4), Placement(c, 0, 2), Placement(d, 2, 4)];
    var all := [a, b, c, d];
    assert all[0] == a && all[1] == b && all[2] == c && all[3] == d;
    assert forall k :: 0 <= k < 4 ==> ps[k].id == all[k] && all[k] in all;
    assert Placeable(v.state, 4, ps);
    PairCovers(v, 4, ps, 0, 1);
    PairCovers(v, 4, ps, 0, 3);
    assert a in [a, b] && a in [a, d];
    assert [a, b][1] == b && [a, d][1] == d;
  }
}
