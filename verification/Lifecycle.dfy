/** The lifecycle of cluster nodes, as values: what each step does to the registry, and what every step keeps. */
module Lifecycle {
  import opened Hosts
  import opened Options
  import opened Sequences

  datatype State = Active | Standby

  /** What serving changes about a node. */
  datatype Status = Status(range: Range, requests: int, measured: Option<real>)

  const CLEARED := Status(Unassigned, 0, None)

  /** The registry: node statuses, lifecycle states, fixed pipelines, and each node's pipeline. */
  datatype View = View(
    nodes: map<string, Status>,
    state: map<string, State>,
    pipelines: map<nat, seq<string>>,
    memberOf: map<string, nat>)

  predicate Fits(range: Range, layers: int) {
    range.Layers? && 0 <= range.start < range.end <= layers
  }

  predicate IsActive(v: View, id: string) {
    id in v.nodes && id in v.state && v.state[id] == Active
  }

  /** The ids name registered nodes whose ranges cover all layers in order. */
  ghost predicate Tiling(nodes: map<string, Status>, layers: int, ids: seq<string>) {
    && ids != []
    && (forall k :: 0 <= k < |ids| ==> ids[k] in nodes && Fits(nodes[ids[k]].range, layers))
    && nodes[ids[0]].range.start == 0 && nodes[ids[|ids| - 1]].range.end == layers
    && (forall k :: 0 < k < |ids| ==> nodes[ids[k - 1]].range.end == nodes[ids[k]].range.start)
  }

  /** Active nodes hold layers; standby nodes hold none. */
  ghost predicate Placed(v: View, layers: int) {
    && v.nodes.Keys == v.state.Keys
    && forall id :: id in v.nodes ==> if v.state[id] == Active then Fits(v.nodes[id].range, layers) else v.nodes[id].range == Unassigned
  }

  /** A registered pipeline is active, covers all layers, and is what its members belong to. */
  ghost predicate Serving(v: View, layers: int, pid: nat)
    requires pid in v.pipelines
  {
    var ids := v.pipelines[pid];
    && Tiling(v.nodes, layers, ids)
    && forall k :: 0 <= k < |ids| ==> IsActive(v, ids[k]) && ids[k] in v.memberOf && v.memberOf[ids[k]] == pid
  }

  /** The node-to-pipeline map mirrors the registered pipelines. */
  ghost predicate Mirrored(v: View, layers: int) {
    && (forall pid :: pid in v.pipelines ==> Serving(v, layers, pid))
    && (forall id :: id in v.memberOf ==> v.memberOf[id] in v.pipelines && id in v.pipelines[v.memberOf[id]])
  }

  ghost predicate Ok(v: View, layers: int) {
    Placed(v, layers) && Mirrored(v, layers)
  }

  /** A fresh node joins on standby, without layers. */
  ghost function Joined(v: View, id: string, was: Status): View {
    v.(nodes := v.nodes[id := was.(range := Unassigned)], state := v.state[id := Standby])
  }

  /** A standby node is given layers and becomes active. */
  ghost function Allocated(v: View, id: string, start: int, end: int): View
    requires id in v.nodes
  {
    v.(nodes := v.nodes[id := v.nodes[id].(range := Layers(start, end))], state := v.state[id := Active])
  }

  /**
   * What an attempt to give a node layers leaves behind: nothing for an empty range or an unknown
   * node. Otherwise the range is written first and a standby node activated, whether or not the
   * attempt is refused.
   */
  ghost function Attempted(v: View, id: string, start: int, end: int): View {
    if start >= end || id !in v.nodes || id !in v.state then v
    else if v.state[id] == Standby then Allocated(v, id, start, end)
    else v.(nodes := v.nodes[id := v.nodes[id].(range := Layers(start, end))])
  }

  ghost function ClearedAt(nodes: map<string, Status>, ids: set<string>): map<string, Status> {
    map id | id in nodes :: if id in ids then CLEARED else nodes[id]
  }

  ghost function StandbyAt(state: map<string, State>, ids: set<string>): map<string, State> {
    map id | id in state :: if id in ids then Standby else state[id]
  }

  ghost function ActiveAt(state: map<string, State>, ids: set<string>): map<string, State> {
    map id | id in state :: if id in ids then Active else state[id]
  }

  /** The given nodes go to standby and lose what they served. */
  ghost function StoodBy(v: View, ids: set<string>): View {
    v.(nodes := ClearedAt(v.nodes, ids), state := StandbyAt(v.state, ids))
  }

  ghost function Members(v: View, id: string): set<string> {
    if id in v.memberOf && v.memberOf[id] in v.pipelines then SetOf(v.pipelines[v.memberOf[id]]) else {}
  }

  /** A node leaves; the rest of its pipeline goes to standby, and the pipeline is gone. */
  ghost function Left(v: View, id: string): View {
    var rest := StoodBy(v, Members(v, id) - {id});
    View(rest.nodes - {id}, rest.state - {id},
         if id in v.memberOf then v.pipelines - {v.memberOf[id]} else v.pipelines,
         v.memberOf - Members(v, id) - {id})
  }

  /** One more pipeline of active nodes that belong to none. */
  ghost function Enrolled(v: View, pid: nat, ids: seq<string>): View {
    v.(pipelines := v.pipelines[pid := ids], memberOf := MadeMembers(v.memberOf, SetOf(ids), pid))
  }

  ghost function MadeMembers(memberOf: map<string, nat>, ids: set<string>, pid: nat): (r: map<string, nat>)
    ensures r.Keys == memberOf.Keys + ids
  {
    map id | id in memberOf.Keys + ids :: if id in ids then pid else memberOf[id]
  }

  lemma TilingSame(before: map<string, Status>, after: map<string, Status>, layers: int, ids: seq<string>)
    requires Tiling(before, layers, ids)
    requires forall k :: 0 <= k < |ids| ==> ids[k] in after && after[ids[k]] == before[ids[k]]
    ensures Tiling(after, layers, ids)
  {
  }

  /** A pipeline whose members are unchanged is still serving. */
  lemma StillServing(v: View, w: View, layers: int, pid: nat)
    requires pid in v.pipelines && pid in w.pipelines && w.pipelines[pid] == v.pipelines[pid] && Serving(v, layers, pid)
    requires forall id :: id in v.pipelines[pid] && id in v.memberOf && v.memberOf[id] == pid ==>
               id in w.memberOf && w.memberOf[id] == pid && IsActive(w, id) && id in v.nodes && w.nodes[id] == v.nodes[id]
    ensures Serving(w, layers, pid)
  {
    TilingSame(v.nodes, w.nodes, layers, v.pipelines[pid]);
  }

  lemma JoinedOk(v: View, layers: int, id: string, was: Status)
    requires Ok(v, layers) && id !in v.nodes
    ensures Ok(Joined(v, id, was), layers)
  {
    hide Tiling;
    var w := Joined(v, id, was);
    forall pid | pid in w.pipelines
      ensures Serving(w, layers, pid)
    {
      assert Serving(v, layers, pid);
      StillServing(v, w, layers, pid);
    }
  }

  lemma AllocatedOk(v: View, layers: int, id: string, start: int, end: int)
    requires Ok(v, layers) && id in v.nodes && v.state[id] == Standby && 0 <= start < end <= layers
    ensures Ok(Allocated(v, id, start, end), layers)
  {
    hide Tiling;
    var w := Allocated(v, id, start, end);
    forall pid | pid in w.pipelines
      ensures Serving(w, layers, pid)
    {
      assert Serving(v, layers, pid);
      StillServing(v, w, layers, pid);
    }
  }

  /** Standing nodes by keeps the invariant as long as they belong to no pipeline. */
  lemma StoodByOk(v: View, layers: int, ids: set<string>)
    requires Ok(v, layers) && ids !! v.memberOf.Keys
    ensures Ok(StoodBy(v, ids), layers)
  {
    hide Tiling;
    var w := StoodBy(v, ids);
    forall pid | pid in w.pipelines
      ensures Serving(w, layers, pid)
    {
      assert Serving(v, layers, pid);
      StillServing(v, w, layers, pid);
    }
  }

  /** A leave does not touch the other pipelines. */
  lemma LeftServing(v: View, layers: int, id: string, pid: nat)
    requires Ok(v, layers) && id in v.nodes && pid in Left(v, id).pipelines
    ensures Serving(Left(v, id), layers, pid)
  {
    hide Tiling;
    assert Serving(v, layers, pid);
    var w, ids := Left(v, id), v.pipelines[pid];
    forall x | x in ids && x in v.memberOf && v.memberOf[x] == pid
      ensures x !in Members(v, id) && x != id
    {
      if id in v.memberOf {
        assert Serving(v, layers, v.memberOf[id]);
      }
    }
    StillServing(v, w, layers, pid);
  }

  /** A leave keeps the invariant, and every node it stands by was active. */
  lemma LeftOk(v: View, layers: int, id: string)
    requires Ok(v, layers) && id in v.nodes
    ensures Ok(Left(v, id), layers)
    ensures forall x :: x in Members(v, id) ==> IsActive(v, x)
  {
    hide Tiling;
    var w := Left(v, id);
    if id in v.memberOf {
      assert Serving(v, layers, v.memberOf[id]);
    }
    forall pid | pid in w.pipelines
      ensures Serving(w, layers, pid)
    {
      LeftServing(v, layers, id, pid);
    }
    forall x | x in w.memberOf
      ensures w.memberOf[x] in w.pipelines && x in w.pipelines[w.memberOf[x]]
    {
      assert x in v.memberOf && x in v.pipelines[v.memberOf[x]];
      assert id in v.memberOf && v.memberOf[x] == v.memberOf[id] ==> x in Members(v, id);
    }
  }

  lemma EnrolledOk(v: View, layers: int, pid: nat, ids: seq<string>)
    requires Ok(v, layers) && pid !in v.pipelines && Tiling(v.nodes, layers, ids)
    requires forall k :: 0 <= k < |ids| ==> IsActive(v, ids[k]) && ids[k] !in v.memberOf
    ensures Ok(Enrolled(v, pid, ids), layers)
  {
    hide Tiling;
    var w := Enrolled(v, pid, ids);
    forall p | p in w.pipelines
      ensures Serving(w, layers, p)
    {
      if p != pid {
        assert Serving(v, layers, p);
        StillServing(v, w, layers, p);
      }
    }
  }

  /** The members of a registered pipeline, stage by stage, start where the stage before ends, so none repeats. */
  lemma TilingOnce(nodes: map<string, Status>, layers: int, ids: seq<string>)
    requires Tiling(nodes, layers, ids)
    ensures forall a, b :: 0 <= a < b < |ids| ==> ids[a] != ids[b] && nodes[ids[a]].range.end <= nodes[ids[b]].range.start
  {
    for n := 1 to |ids|
      invariant forall a, b :: 0 <= a < b < n ==> nodes[ids[a]].range.end <= nodes[ids[b]].range.start
    {
      assert nodes[ids[n - 1]].range.end == nodes[ids[n]].range.start;
    }
  }

  /** Two registered pipelines share no node. */
  lemma RegisteredDisjoint(v: View, layers: int, p: nat, q: nat)
    requires Ok(v, layers) && p in v.pipelines && q in v.pipelines && p != q
    ensures forall id :: id in v.pipelines[p] ==> id !in v.pipelines[q]
  {
    assert Serving(v, layers, p) && Serving(v, layers, q);
  }

  /** Every layer is served by each registered pipeline, at exactly one of its active members. */
  lemma EveryLayerServed(v: View, layers: int, pid: nat, layer: int)
    requires Ok(v, layers) && pid in v.pipelines && 0 <= layer < layers
    ensures exists k :: 0 <= k < |v.pipelines[pid]| && IsActive(v, v.pipelines[pid][k]) &&
                        v.nodes[v.pipelines[pid][k]].range.start <= layer < v.nodes[v.pipelines[pid][k]].range.end
    ensures forall a, b :: 0 <= a < b < |v.pipelines[pid]| &&
                           v.nodes[v.pipelines[pid][a]].range.end > layer ==>
                           v.nodes[v.pipelines[pid][b]].range.start > layer
  {
    assert Serving(v, layers, pid);
    var ids := v.pipelines[pid];
    var k := 0;
    while v.nodes[ids[k]].range.end <= layer
      invariant 0 <= k < |ids| && v.nodes[ids[k]].range.start <= layer
    {
      k := k + 1;
    }
    assert IsActive(v, ids[k]);
    TilingOnce(v.nodes, layers, ids);
  }

  /** By first layer, then last; nodes without layers come last. */
  predicate KeyAtMost(a: Range, b: Range) {
    b.Unassigned? || (a.Layers? && (a.start < b.start || (a.start == b.start && a.end <= b.end)))
  }

  ghost predicate SortedStages(nodes: map<string, Status>, ids: seq<string>) {
    && (forall k :: 0 <= k < |ids| ==> ids[k] in nodes)
    && (forall a, b :: 0 <= a < b < |ids| ==> KeyAtMost(nodes[ids[a]].range, nodes[ids[b]].range))
  }

  ghost predicate Ascending(nodes: map<string, Status>, ids: seq<string>) {
    && (forall k :: 0 <= k < |ids| ==> ids[k] in nodes && nodes[ids[k]].range.Layers?)
    && (forall a, b :: 0 <= a < b < |ids| ==> nodes[ids[a]].range.start < nodes[ids[b]].range.start)
  }

  /** Some order of the ids covers all layers. */
  ghost predicate Arrangeable(nodes: map<string, Status>, layers: int, ids: seq<string>) {
    exists q :: multiset(q) == multiset(ids) && Tiling(nodes, layers, q)
  }

  lemma SameHead(nodes: map<string, Status>, s: seq<string>, q: seq<string>)
    requires SortedStages(nodes, s) && Ascending(nodes, q) && multiset(s) == multiset(q) && q != []
    ensures s != [] && s[0] == q[0]
  {
    assert |multiset(s)| == |multiset(q)|;
    assert s[0] in multiset(q) && q[0] in multiset(s);
    var i :| 0 <= i < |q| && q[i] == s[0];
    var j :| 0 <= j < |s| && s[j] == q[0];
    assert j > 0 ==> KeyAtMost(nodes[s[0]].range, nodes[s[j]].range);
  }

  lemma SameTail(s: seq<string>, q: seq<string>)
    requires s != [] && q != [] && s[0] == q[0] && multiset(s) == multiset(q)
    ensures multiset(s[1..]) == multiset(q[1..]) && (s[1..] == q[1..] ==> s == q)
  {
    assert s == [s[0]] + s[1..] && q == [q[0]] + q[1..];
    assert multiset(s[1..]) == multiset(s) - multiset{s[0]};
    assert multiset(q[1..]) == multiset(q) - multiset{q[0]};
  }

  lemma TailSorted(nodes: map<string, Status>, s: seq<string>)
    requires s != []
    ensures SortedStages(nodes, s) ==> SortedStages(nodes, s[1..])
    ensures Ascending(nodes, s) ==> Ascending(nodes, s[1..])
  {
  }

  /** Strictly ascending stages can be sorted in one way only. */
  lemma {:induction false} OneSorting(nodes: map<string, Status>, s: seq<string>, q: seq<string>)
    requires SortedStages(nodes, s) && Ascending(nodes, q) && multiset(s) == multiset(q)
    ensures s == q
  {
    hide KeyAtMost, SortedStages, Ascending;
    if q == [] {
      assert |multiset(s)| == 0;
    } else {
      SameHead(nodes, s, q);
      SameTail(s, q);
      TailSorted(nodes, s);
      TailSorted(nodes, q);
      OneSorting(nodes, s[1..], q[1..]);
    }
  }

  /** Sorting the stages finds the arrangement, if there is one. */
  lemma SortedArrangement(nodes: map<string, Status>, layers: int, ids: seq<string>, s: seq<string>)
    requires SortedStages(nodes, s) && multiset(s) == multiset(ids)
    ensures Arrangeable(nodes, layers, ids) <==> Tiling(nodes, layers, s)
    ensures Tiling(nodes, layers, ids) ==> s == ids
  {
    if Arrangeable(nodes, layers, ids) {
      var q :| multiset(q) == multiset(ids) && Tiling(nodes, layers, q);
      TilingOnce(nodes, layers, q);
      OneSorting(nodes, s, q);
    }
    if Tiling(nodes, layers, ids) {
      TilingOnce(nodes, layers, ids);
      OneSorting(nodes, s, ids);
    }
  }

  /** Each list can be arranged into a pipeline, and no two share a node. */
  ghost predicate Registrable(nodes: map<string, Status>, layers: int, lists: seq<seq<string>>) {
    && (forall k :: 0 <= k < |lists| ==> Arrangeable(nodes, layers, lists[k]))
    && (forall a, b, id :: 0 <= a < b < |lists| && id in lists[a] ==> id !in lists[b])
  }

  /** A registered pipeline that has a node of another pipeline breaks the mirror. */
  lemma OverlapBreaks(v: View, layers: int, pid: nat, id: string)
    requires pid in v.pipelines && id in v.pipelines[pid] && id in v.memberOf && v.memberOf[id] != pid
    ensures !Ok(v, layers)
  {
    assert Ok(v, layers) ==> Serving(v, layers, pid);
  }

  lemma ArrangedMembers(nodes: map<string, Status>, v: View, layers: int, ids: seq<string>, stages: seq<string>)
    requires Ok(v, layers) && nodes == v.nodes && Tiling(nodes, layers, stages) && multiset(stages) == multiset(ids)
    ensures SetOf(ids) == SetOf(stages) && |ids| == |stages|
    ensures forall k :: 0 <= k < |ids| ==> IsActive(v, ids[k])
    ensures forall a, b :: 0 <= a < b < |ids| ==> ids[a] != ids[b]
  {
    assert |multiset(ids)| == |multiset(stages)|;
    forall id
      ensures id in ids <==> id in stages
    {
      assert id in multiset(ids) <==> id in multiset(stages);
    }
    forall k | 0 <= k < |ids|
      ensures IsActive(v, ids[k])
    {
      assert ids[k] in stages;
    }
    TilingOnce(nodes, layers, stages);
    OnceEach(stages, ids);
  }

  lemma OnceEach(s: seq<string>, t: seq<string>)
    requires multiset(s) == multiset(t) && forall a, b :: 0 <= a < b < |s| ==> s[a] != s[b]
    ensures forall a, b :: 0 <= a < b < |t| ==> t[a] != t[b]
  {
    forall a, b | 0 <= a < b < |t|
      ensures t[a] != t[b]
    {
      CountOnce(s, t[a]);
      assert t == t[..a] + [t[a]] + t[a + 1..];
      assert multiset(t) == multiset(t[..a]) + multiset{t[a]} + multiset(t[a + 1..]);
      assert t[b] == t[a + 1..][b - a - 1];
      assert t[b] in multiset(t[a + 1..]);
    }
  }

  lemma {:induction false} CountOnce(s: seq<string>, x: string)
    requires forall a, b :: 0 <= a < b < |s| ==> s[a] != s[b]
    ensures multiset(s)[x] <= 1
  {
    if s != [] {
      CountOnce(s[1..], x);
      assert s == [s[0]] + s[1..];
      assert s[0] !in s[1..];
    }
  }

  ghost predicate InSome(lists: seq<seq<string>>, id: string) {
    exists k :: 0 <= k < |lists| && id in lists[k]
  }

  lemma InSomeNext(lists: seq<seq<string>>, k: nat)
    requires k < |lists|
    ensures forall id :: InSome(lists[..k + 1], id) <==> InSome(lists[..k], id) || id in lists[k]
  {
    forall id
      ensures InSome(lists[..k + 1], id) <==> InSome(lists[..k], id) || id in lists[k]
    {
      var p, q := lists[..k], lists[..k + 1];
      if InSome(p, id) {
        var m :| 0 <= m < |p| && id in p[m];
        assert id in q[m];
      }
      if InSome(q, id) {
        var m :| 0 <= m < |q| && id in q[m];
        assert m < k ==> id in p[m];
      }
      assert q[k] == lists[k];
    }
  }

  /** One more list is registrable when it can be arranged and avoids the earlier lists. */
  lemma RegistrableNext(nodes: map<string, Status>, layers: int, lists: seq<seq<string>>, k: nat)
    requires k < |lists| && Registrable(nodes, layers, lists[..k])
    ensures Registrable(nodes, layers, lists[..k + 1]) <==>
            Arrangeable(nodes, layers, lists[k]) && forall id :: id in lists[k] ==> !InSome(lists[..k], id)
    ensures !Registrable(nodes, layers, lists[..k + 1]) ==> !Registrable(nodes, layers, lists)
  {
    hide Arrangeable;
    var p, q := lists[..k], lists[..k + 1];
    assert q[k] == lists[k];
    assert forall m :: 0 <= m < k ==> q[m] == p[m] == lists[m];
    if Registrable(nodes, layers, q) {
      forall id | id in lists[k]
        ensures !InSome(p, id)
      {
        assert forall m :: 0 <= m < k ==> (id in q[m] ==> id !in q[k]);
      }
    }
    if Arrangeable(nodes, layers, lists[k]) && forall id :: id in lists[k] ==> !InSome(p, id) {
      forall a, b, id | 0 <= a < b < |q| && id in q[a]
        ensures id !in q[b]
      {
        if b == k {
          assert id in p[a];
          assert InSome(p, id);
        } else {
          assert id in p[a];
        }
      }
    }
    if Registrable(nodes, layers, lists) {
      assert forall a, b, id :: 0 <= a < b < |q| && id in lists[a] ==> id !in lists[b];
      assert Registrable(nodes, layers, q);
    }
  }
}
