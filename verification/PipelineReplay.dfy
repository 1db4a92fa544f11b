/** Replaying the recorded actions builds node-disjoint pipelines that realise the optimum. */
module PipelineReplay {
  import opened SortedLists
  import opened PipelinePlans
  import opened PipelineDp
  import opened PipelineSearch

  /** Layers still missing after the nodes of a pipeline, in stage order. */
  function Missing(p: Problem, nodes: seq<nat>): int
    requires nodes != [] && forall k :: 0 <= k < |nodes| ==> nodes[k] < |p.caps|
  {
    var last := nodes[|nodes| - 1];
    if |nodes| == 1 then AfterStart(p.caps[last], p.layers)
    else AfterJoin(p.caps[last], Missing(p, nodes[..|nodes| - 1]))
  }

  /** Stages in node order, with layers missing after every stage but possibly the last. */
  ghost predicate Underway(p: Problem, nodes: seq<nat>) {
    && nodes != []
    && (forall k :: 0 <= k < |nodes| ==> nodes[k] < |p.caps|)
    && (forall k :: 0 < k < |nodes| ==> nodes[k - 1] < nodes[k])
    && (forall k :: 0 < k < |nodes| ==> Missing(p, nodes[..k]) > 0)
  }

  /** A full pipeline: its capacity reaches the last layer, and only with its last stage. */
  ghost predicate Full(p: Problem, nodes: seq<nat>) {
    Underway(p, nodes) && Missing(p, nodes) <= 0
  }

  datatype Entry = Entry(residual: int, nodes: seq<nat>)

  ghost predicate OpenEntry(p: Problem, e: Entry) {
    Underway(p, e.nodes) && Missing(p, e.nodes) == e.residual > 0
  }

  function Residuals(open: seq<Entry>): (r: seq<int>)
    ensures |r| == |open|
    ensures forall k :: 0 <= k < |open| ==> r[k] == open[k].residual
  {
    seq(|open|, k requires 0 <= k < |open| => open[k].residual)
  }

  function InsertEntry(e: Entry, s: seq<Entry>): (r: seq<Entry>)
    ensures |r| == |s| + 1
  {
    if s == [] || e.residual <= s[0].residual then [e] + s else [s[0]] + InsertEntry(e, s[1..])
  }

  /** Stands for the stable sort of the open list by residual. */
  function SortEntries(s: seq<Entry>): (r: seq<Entry>)
    ensures |r| == |s|
  {
    if s == [] then [] else InsertEntry(s[0], SortEntries(s[1..]))
  }

  /** All nodes of some groups, with multiplicity. */
  function Nodes(groups: seq<seq<nat>>): multiset<nat> {
    if groups == [] then multiset{} else multiset(groups[0]) + Nodes(groups[1..])
  }

  function Members(open: seq<Entry>): multiset<nat> {
    if open == [] then multiset{} else multiset(open[0].nodes) + Members(open[1..])
  }

  lemma MembersCons(e: Entry, s: seq<Entry>)
    ensures Members([e] + s) == multiset(e.nodes) + Members(s)
  {
    assert ([e] + s)[1..] == s;
  }

  lemma ResidualsCons(e: Entry, s: seq<Entry>)
    ensures Residuals([e] + s) == [e.residual] + Residuals(s)
  {
  }

  lemma {:induction false} InsertEntryResiduals(e: Entry, s: seq<Entry>)
    requires IsSorted(Residuals(s))
    ensures Residuals(InsertEntry(e, s)) == Insert(e.residual, Residuals(s))
  {
    if s == [] || e.residual <= s[0].residual {
      ResidualsCons(e, s);
    } else {
      assert Residuals(s)[1..] == Residuals(s[1..]);
      InsertEntryResiduals(e, s[1..]);
      ResidualsCons(s[0], InsertEntry(e, s[1..]));
    }
  }

  lemma {:induction false} InsertEntryMembers(e: Entry, s: seq<Entry>)
    ensures Members(InsertEntry(e, s)) == multiset(e.nodes) + Members(s)
    ensures forall k :: 0 <= k < |InsertEntry(e, s)| ==> InsertEntry(e, s)[k] == e || InsertEntry(e, s)[k] in s
  {
    if s == [] || e.residual <= s[0].residual {
      MembersCons(e, s);
    } else {
      InsertEntryMembers(e, s[1..]);
      MembersCons(s[0], InsertEntry(e, s[1..]));
    }
  }

  lemma {:induction false} SortEntriesResiduals(s: seq<Entry>)
    ensures Residuals(SortEntries(s)) == Sort(Residuals(s))
  {
    if s != [] {
      SortEntriesResiduals(s[1..]);
      assert Residuals(s)[1..] == Residuals(s[1..]);
      InsertEntryResiduals(s[0], SortEntries(s[1..]));
    }
  }

  /** The entries of one residual, in order. */
  function WithResidual(s: seq<Entry>, residual: int): seq<Entry> {
    if s == [] then []
    else (if s[0].residual == residual then [s[0]] else []) + WithResidual(s[1..], residual)
  }

  /** The sort is stable: entries of equal residual keep their order. */
  lemma {:induction false} SortIsStable(s: seq<Entry>, residual: int)
    ensures IsSorted(Residuals(SortEntries(s))) && WithResidual(SortEntries(s), residual) == WithResidual(s, residual)
  {
    SortEntriesResiduals(s);
    if s != [] {
      SortIsStable(s[1..], residual);
      InsertIsStable(s[0], SortEntries(s[1..]), residual);
    }
  }

  lemma {:induction false} InsertIsStable(e: Entry, s: seq<Entry>, residual: int)
    requires IsSorted(Residuals(s))
    ensures WithResidual(InsertEntry(e, s), residual) == (if e.residual == residual then [e] else []) + WithResidual(s, residual)
  {
    if s == [] || e.residual <= s[0].residual {
      assert ([e] + s)[1..] == s;
    } else {
      assert Residuals(s)[1..] == Residuals(s[1..]);
      InsertIsStable(e, s[1..], residual);
      var t := [s[0]] + InsertEntry(e, s[1..]);
      assert t[1..] == InsertEntry(e, s[1..]);
    }
  }

  lemma {:induction false} SortEntriesMembers(s: seq<Entry>)
    ensures Members(SortEntries(s)) == Members(s)
    ensures forall k :: 0 <= k < |s| ==> SortEntries(s)[k] in s
  {
    if s != [] {
      SortEntriesMembers(s[1..]);
      InsertEntryMembers(s[0], SortEntries(s[1..]));
    }
  }

  lemma {:induction false} MembersConcat(a: seq<Entry>, b: seq<Entry>)
    ensures Members(a + b) == Members(a) + Members(b)
  {
    if a == [] {
      assert a + b == b;
    } else {
      assert (a + b)[1..] == a[1..] + b;
      MembersConcat(a[1..], b);
    }
  }

  lemma MembersDrop(open: seq<Entry>, j: nat)
    requires j < |open|
    ensures Members(open) == Members(open[..j] + open[j + 1..]) + multiset(open[j].nodes)
  {
    hide Members;
    assert open == open[..j] + ([open[j]] + open[j + 1..]);
    MembersConcat(open[..j], [open[j]] + open[j + 1..]);
    MembersConcat(open[..j], open[j + 1..]);
    MembersCons(open[j], open[j + 1..]);
  }

  lemma MembersUpdate(open: seq<Entry>, j: nat, e: Entry, n: nat)
    requires j < |open| && e.nodes == open[j].nodes + [n]
    ensures Members(open[j := e]) == Members(open) + multiset{n}
  {
    hide Members;
    var t := open[j := e];
    assert t[..j] + t[j + 1..] == open[..j] + open[j + 1..];
    MembersDrop(open, j);
    MembersDrop(t, j);
  }

  /** Filling a group that was empty. */
  lemma {:induction false} NodesFill(groups: seq<seq<nat>>, j: nat, g: seq<nat>)
    requires j < |groups| && groups[j] == []
    ensures Nodes(groups[j := g]) == Nodes(groups) + multiset(g)
  {
    if j > 0 {
      NodesFill(groups[1..], j - 1, g);
      assert groups[j := g][1..] == groups[1..][j - 1 := g];
    } else {
      assert groups[j := g][1..] == groups[1..];
    }
  }

  /** No node occurs twice, and all are below `bound`. */
  ghost predicate EachOnce(m: multiset<nat>, bound: nat) {
    forall n :: n in m ==> m[n] == 1 && n < bound
  }

  lemma {:induction false} NodesContain(groups: seq<seq<nat>>, a: nat, n: nat)
    requires a < |groups| && n in groups[a]
    ensures n in Nodes(groups)
  {
    if a > 0 {
      NodesContain(groups[1..], a - 1, n);
    }
  }

  lemma NodesTwice(groups: seq<seq<nat>>, b: nat, n: nat)
    requires 0 < b < |groups| && n in groups[0] && n in groups[b]
    ensures Nodes(groups)[n] >= 2
  {
    NodesContain(groups[1..], b - 1, n);
    assert n in multiset(groups[0]);
  }

  lemma {:induction false} DistinctGroups(groups: seq<seq<nat>>, bound: nat, a: nat, b: nat, n: nat)
    requires EachOnce(Nodes(groups), bound)
    requires a < b < |groups| && n in groups[a]
    ensures n !in groups[b]
  {
    if a == 0 {
      if n in groups[b] {
        NodesTwice(groups, b, n);
        assert false;
      }
    } else {
      assert EachOnce(Nodes(groups[1..]), bound) by {
        forall m | m in Nodes(groups[1..])
          ensures Nodes(groups[1..])[m] == 1 && m < bound
        {
          assert Nodes(groups)[m] == multiset(groups[0])[m] + Nodes(groups[1..])[m];
        }
      }
      DistinctGroups(groups[1..], bound, a - 1, b - 1, n);
    }
  }

  lemma {:induction false} NodesCount(groups: seq<seq<nat>>)
    ensures |Nodes(groups)| == StageCount(groups)
  {
    if groups != [] {
      NodesCount(groups[1..]);
    }
  }

  /** Total number of stages of some pipelines. */
  function StageCount(groups: seq<seq<nat>>): nat {
    if groups == [] then 0 else |groups[0]| + StageCount(groups[1..])
  }

  /** Where the replay stands: the search state it is in, and the pipelines built so far. */
  datatype Replay = Replay(i: nat, finished: nat, open: seq<Entry>, pipelines: seq<seq<nat>>)

  function StateOf(r: Replay): State {
    State(r.i, Sort(Residuals(r.open)), r.finished)
  }

  ghost predicate Built(p: Problem, r: Replay) {
    && |r.pipelines| == p.target
    && r.finished <= p.target
    && (forall q :: 0 <= q < r.finished ==> Full(p, r.pipelines[q]))
    && (forall q :: r.finished <= q < p.target ==> r.pipelines[q] == [])
  }

  ghost predicate Opened(p: Problem, r: Replay) {
    forall q :: 0 <= q < |r.open| ==> OpenEntry(p, r.open[q])
  }

  function PlacedNodes(r: Replay): multiset<nat> {
    Nodes(r.pipelines) + Members(r.open)
  }

  /** The replay can go on, and its stages plus the cost still to come are `total`. */
  ghost predicate OnTrack(p: Problem, path: map<State, Action>, total: nat, r: Replay) {
    && r.i <= |p.caps|
    && StateOf(r) in path
    && Solve(p, StateOf(r)).cost.Fin?
    && |PlacedNodes(r)| + Solve(p, StateOf(r)).cost.n == total
  }

  ghost predicate Invariant(p: Problem, path: map<State, Action>, total: nat, r: Replay) {
    && OnTrack(p, path, total, r)
    && Built(p, r)
    && Opened(p, r)
    && EachOnce(PlacedNodes(r), r.i)
  }

  /** Going one state further keeps the total. */
  lemma StepOnTrack(p: Problem, path: map<State, Action>, total: nat, r: Replay, r': Replay)
    requires ValidProblem(p) && Replayable(p, path) && OnTrack(p, path, total, r)
    requires Stepping(p, StateOf(r))
    requires StateOf(r') == Next(p, StateOf(r), path[StateOf(r)])
    requires |PlacedNodes(r')| == |PlacedNodes(r)| + (if path[StateOf(r)].Skip? then 0 else 1)
    ensures OnTrack(p, path, total, r')
  {
    hide Sort, Sum, SuffixCap, Times, PlacedNodes, Residuals, Pruned;
    SolveRealised(p, StateOf(r));
  }

  lemma SortSorted(s: seq<int>)
    requires IsSorted(s)
    ensures Sort(s) == s
  {
    SortedUnique(Sort(s), s);
  }

  /** A stage joins the pipeline at position `j` of the sorted open list. */
  lemma AssignStates(p: Problem, r: Replay, j: nat, e: Entry)
    requires r.i < |p.caps| && j < |r.open|
    requires e == Entry(AfterJoin(p.caps[r.i], SortEntries(r.open)[j].residual), SortEntries(r.open)[j].nodes + [r.i])
    ensures SortEntries(r.open)[j].residual == StateOf(r).open[j]
    ensures var sorted := SortEntries(r.open);
            var open' := if e.residual <= 0 then sorted[..j] + sorted[j + 1..] else sorted[j := e];
            State(r.i + 1, Sort(Residuals(open')), if e.residual <= 0 then r.finished + 1 else r.finished) == AssignNext(p, StateOf(r), j)
  {
    hide Sort, SortEntries;
    var sorted := SortEntries(r.open);
    SortEntriesResiduals(r.open);
    var open := Sort(Residuals(r.open));
    assert open == Residuals(sorted);
    if e.residual <= 0 {
      assert Residuals(sorted[..j] + sorted[j + 1..]) == Drop(open, j);
      SortSorted(Drop(open, j));
    } else {
      assert Residuals(sorted[j := e]) == open[j := e.residual];
    }
  }

  lemma StartStates(p: Problem, r: Replay)
    requires r.i < |p.caps|
    ensures var m := AfterStart(p.caps[r.i], p.layers);
            var open' := if m <= 0 then r.open else r.open + [Entry(m, [r.i])];
            State(r.i + 1, Sort(Residuals(open')), if m <= 0 then r.finished + 1 else r.finished) == StartNext(p, StateOf(r))
  {
    hide Sort;
    var m := AfterStart(p.caps[r.i], p.layers);
    if m > 0 {
      var open := Residuals(r.open);
      assert Residuals(r.open + [Entry(m, [r.i])]) == open + [m];
      assert multiset(open + [m]) == multiset(open) + multiset{m};
      assert multiset(Sort(open) + [m]) == multiset(open) + multiset{m};
      SortedUnique(Sort(open + [m]), Sort(Sort(open) + [m]));
    }
  }

  /** The stages of a pipeline stay in order when node `i` is appended. */
  lemma Extend(p: Problem, nodes: seq<nat>, i: nat)
    requires Underway(p, nodes) && Missing(p, nodes) > 0 && i < |p.caps|
    requires nodes[|nodes| - 1] < i
    ensures Underway(p, nodes + [i])
    ensures Missing(p, nodes + [i]) == AfterJoin(p.caps[i], Missing(p, nodes))
  {
    var t := nodes + [i];
    assert t[..|nodes|] == nodes;
    forall k | 0 < k < |t|
      ensures Missing(p, t[..k]) > 0
    {
      if k < |nodes| {
        assert t[..k] == nodes[..k];
      }
    }
  }

  lemma {:induction false} MembersContain(open: seq<Entry>, j: nat, n: nat)
    requires j < |open| && n in open[j].nodes
    ensures n in Members(open)
  {
    if j > 0 {
      MembersContain(open[1..], j - 1, n);
    }
  }

  /** A state of finite cost with pipelines still to close takes a step. */
  lemma FiniteSteps(p: Problem, s: State)
    requires Canonical(p, s) && Solve(p, s).cost.Fin?
    ensures s.finished < p.target ==> Stepping(p, s)
    ensures s.finished == p.target ==> s.open == []
  {
  }

  lemma PlacedGrows(m: multiset<nat>, m': multiset<nat>, i: nat)
    requires EachOnce(m, i) && m' == m + multiset{i}
    ensures EachOnce(m', i + 1) && |m'| == |m| + 1
  {
    assert i !in m;
  }

  function SkipReplay(r: Replay): Replay {
    r.(i := r.i + 1)
  }

  function StartReplay(p: Problem, r: Replay): Replay
    requires r.i < |p.caps| && r.finished < |r.pipelines|
  {
    var m := AfterStart(p.caps[r.i], p.layers);
    if m <= 0 then Replay(r.i + 1, r.finished + 1, r.open, r.pipelines[r.finished := [r.i]])
    else Replay(r.i + 1, r.finished, r.open + [Entry(m, [r.i])], r.pipelines)
  }

  function AssignReplay(p: Problem, r: Replay, j: nat): Replay
    requires r.i < |p.caps| && r.finished < |r.pipelines| && j < |r.open|
  {
    var sorted := SortEntries(r.open);
    var e := Entry(AfterJoin(p.caps[r.i], sorted[j].residual), sorted[j].nodes + [r.i]);
    if e.residual <= 0 then
      Replay(r.i + 1, r.finished + 1, sorted[..j] + sorted[j + 1..], r.pipelines[r.finished := e.nodes])
    else
      Replay(r.i + 1, r.finished, sorted[j := e], r.pipelines)
  }

  lemma SkipKeeps(p: Problem, path: map<State, Action>, total: nat, r: Replay)
    requires ValidProblem(p) && Replayable(p, path) && Invariant(p, path, total, r)
    requires Stepping(p, StateOf(r)) && path[StateOf(r)].Skip?
    ensures Invariant(p, path, total, SkipReplay(r))
  {
    hide Sort, Sum, SuffixCap, Times, Nodes, Members, Residuals, Solve, Pruned;
    StepOnTrack(p, path, total, r, SkipReplay(r));
  }

  lemma StartBuilds(p: Problem, r: Replay)
    requires r.i < |p.caps| && Built(p, r) && Opened(p, r) && r.finished < p.target
    ensures Built(p, StartReplay(p, r)) && Opened(p, StartReplay(p, r))
  {
    hide Nodes, Members;
    var nodes := [r.i];
    assert Underway(p, nodes) && Missing(p, nodes) == AfterStart(p.caps[r.i], p.layers);
  }

  lemma StartPlaces(p: Problem, r: Replay)
    requires r.i < |p.caps| && Built(p, r) && r.finished < p.target
    ensures PlacedNodes(StartReplay(p, r)) == PlacedNodes(r) + multiset{r.i}
  {
    hide Built, Nodes, Members;
    var m := AfterStart(p.caps[r.i], p.layers);
    if m <= 0 {
      assert r.pipelines[r.finished] == [] by {
        BuiltEmpty(p, r);
      }
      NodesFill(r.pipelines, r.finished, [r.i]);
    } else {
      MembersConcat(r.open, [Entry(m, [r.i])]);
      MembersCons(Entry(m, [r.i]), []);
      assert [Entry(m, [r.i])] + [] == [Entry(m, [r.i])];
      MembersNone();
    }
  }

  lemma MembersNone()
    ensures Members([]) == multiset{}
  {
  }

  lemma BuiltEmpty(p: Problem, r: Replay)
    requires Built(p, r)
    ensures |r.pipelines| == p.target
    ensures r.finished < p.target ==> r.pipelines[r.finished] == []
  {
  }

  lemma {:induction false} StartKeeps(p: Problem, path: map<State, Action>, total: nat, r: Replay)
    requires ValidProblem(p) && Replayable(p, path) && Invariant(p, path, total, r)
    requires r.finished < p.target && Stepping(p, StateOf(r)) && path[StateOf(r)] == StartAction(p, StateOf(r))
    ensures Invariant(p, path, total, StartReplay(p, r))
  {
    hide Sort, Sum, SuffixCap, Times, Nodes, Members, Residuals, Solve, Pruned, Opened, OpenEntry, AfterStart, PlacedNodes, EachOnce, Full;
    StartBuilds(p, r);
    StartPlaces(p, r);
    PlacedGrows(PlacedNodes(r), PlacedNodes(StartReplay(p, r)), r.i);
    StartStates(p, r);
    StepOnTrack(p, path, total, r, StartReplay(p, r));
  }

  lemma AssignBuilds(p: Problem, r: Replay, j: nat)
    requires r.i < |p.caps| && Built(p, r) && Opened(p, r) && r.finished < p.target && j < |r.open|
    requires EachOnce(PlacedNodes(r), r.i)
    ensures Built(p, AssignReplay(p, r, j)) && Opened(p, AssignReplay(p, r, j))
  {
    hide Members, Nodes, SortEntries, Missing;
    var sorted := SortEntries(r.open);
    SortEntriesMembers(r.open);
    forall q | 0 <= q < |sorted|
      ensures OpenEntry(p, sorted[q])
    {
      assert sorted[q] in r.open;
    }
    var nodes := sorted[j].nodes;
    var last := nodes[|nodes| - 1];
    MembersContain(sorted, j, last);
    assert last in PlacedNodes(r);
    Extend(p, nodes, r.i);
  }

  lemma AssignPlaces(p: Problem, r: Replay, j: nat)
    requires r.i < |p.caps| && Built(p, r) && r.finished < p.target && j < |r.open|
    ensures PlacedNodes(AssignReplay(p, r, j)) == PlacedNodes(r) + multiset{r.i}
  {
    hide Built, Nodes, Members, SortEntries;
    BuiltEmpty(p, r);
    var sorted := SortEntries(r.open);
    SortEntriesMembers(r.open);
    var e := Entry(AfterJoin(p.caps[r.i], sorted[j].residual), sorted[j].nodes + [r.i]);
    if e.residual <= 0 {
      NodesFill(r.pipelines, r.finished, e.nodes);
      MembersDrop(sorted, j);
      assert multiset(e.nodes) == multiset(sorted[j].nodes) + multiset{r.i};
    } else {
      MembersUpdate(sorted, j, e, r.i);
    }
  }

  /** Replaying a join moves to the state that the recorded action leads to. */
  lemma {:induction false} AssignMoves(p: Problem, r: Replay, j: nat)
    requires r.i < |p.caps| && r.finished < |r.pipelines| && j < |r.open| && Canonical(p, StateOf(r)) && j < |StateOf(r).open|
    ensures StateOf(AssignReplay(p, r, j)) == Next(p, StateOf(r), AssignAction(p, StateOf(r), j)) && !AssignAction(p, StateOf(r), j).Skip?
    ensures SortEntries(r.open)[j].residual == StateOf(r).open[j]
  {
    hide Sort, Sum, Residuals, AfterJoin, SortEntries;
    AssignStates(p, r, j, Entry(AfterJoin(p.caps[r.i], SortEntries(r.open)[j].residual), SortEntries(r.open)[j].nodes + [r.i]));
  }

  lemma {:induction false} AssignKeeps(p: Problem, path: map<State, Action>, total: nat, r: Replay, j: nat)
    requires ValidProblem(p) && Replayable(p, path) && Invariant(p, path, total, r)
    requires r.finished < p.target && j < |r.open| && Stepping(p, StateOf(r)) && path[StateOf(r)] == AssignAction(p, StateOf(r), j)
    ensures Invariant(p, path, total, AssignReplay(p, r, j))
    ensures SortEntries(r.open)[j].residual == StateOf(r).open[j]
  {
    hide Sort, Sum, SuffixCap, Times, Nodes, Members, Residuals, Solve, Pruned, Opened, OpenEntry, AfterJoin, PlacedNodes, EachOnce, Full, SortEntries, AssignReplay, Next, AssignAction;
    AssignBuilds(p, r, j);
    AssignPlaces(p, r, j);
    PlacedGrows(PlacedNodes(r), PlacedNodes(AssignReplay(p, r, j)), r.i);
    AssignMoves(p, r, j);
    StepOnTrack(p, path, total, r, AssignReplay(p, r, j));
  }

  /** Pairwise node-disjoint full pipelines, `target` of them. */
  ghost predicate DisjointFull(p: Problem, pipelines: seq<seq<nat>>) {
    && |pipelines| == p.target
    && (forall q :: 0 <= q < |pipelines| ==> Full(p, pipelines[q]))
    && (forall a, b, n :: 0 <= a < b < |pipelines| && n in pipelines[a] ==> n !in pipelines[b])
  }

  lemma {:induction false} AllEmpty(groups: seq<seq<nat>>)
    requires forall q :: 0 <= q < |groups| ==> groups[q] == []
    ensures Nodes(groups) == multiset{}
  {
    if groups != [] {
      AllEmpty(groups[1..]);
    }
  }

  lemma Completed(p: Problem, path: map<State, Action>, total: nat, r: Replay)
    requires ValidProblem(p) && Invariant(p, path, total, r)
    requires r.i == |p.caps| || r.finished == p.target
    ensures DisjointFull(p, r.pipelines) && StageCount(r.pipelines) == total
  {
    hide Sort, SuffixCap, Sum, Times, Nodes;
    FiniteSteps(p, StateOf(r));
    assert r.finished == p.target;
    assert |r.open| == 0;
    assert PlacedNodes(r) == Nodes(r.pipelines);
    NodesCount(r.pipelines);
    forall a, b, n | 0 <= a < b < |r.pipelines| && n in r.pipelines[a]
      ensures n !in r.pipelines[b]
    {
      DistinctGroups(r.pipelines, r.i, a, b, n);
    }
  }

  lemma InvariantSteps(p: Problem, path: map<State, Action>, total: nat, r: Replay)
    requires Invariant(p, path, total, r) && r.i < |p.caps| && r.finished < p.target
    ensures StateOf(r) in path && Canonical(p, StateOf(r)) && Stepping(p, StateOf(r))
    ensures |r.pipelines| == p.target && |StateOf(r).open| == |r.open|
  {
    FiniteSteps(p, StateOf(r));
  }

  /** Rebuilds the pipelines from the recorded actions: no lookup misses, and the total is the optimum. */
  method Backtrack(p: Problem, path: map<State, Action>) returns (pipelines: seq<seq<nat>>)
    requires ValidProblem(p) && Replayable(p, path) && Solve(p, Initial).cost.Fin?
    ensures DisjointFull(p, pipelines)
    ensures StageCount(pipelines) == Solve(p, Initial).cost.n
  {
    hide Sort, Sum, SuffixCap, Times, Nodes, Members, Residuals, Solve, Pruned, SortEntries, DisjointFull, Replayable, StageCount, Invariant, AfterJoin, AfterStart;
    pipelines := seq(p.target, _ => []);
    var open: seq<Entry> := [];
    var i, finished := 0, 0;
    ghost var total := Solve(p, Initial).cost.n;
    InitialInvariant(p, path, pipelines);
    while i < |p.caps| && finished < p.target
      invariant i <= |p.caps| && finished <= p.target
      invariant Invariant(p, path, total, Replay(i, finished, open, pipelines))
    {
      ghost var r := Replay(i, finished, open, pipelines);
      var key := State(i, Sort(Residuals(open)), finished);
      InvariantSteps(p, path, total, r);
      if key !in path {
        break;
      }
      ActionOfStep(p, path, key);
      match path[key] {
        case Assign(j, closed) =>
          AssignKeeps(p, path, total, r, j);
          open := SortEntries(open);
          var residual := AfterJoin(p.caps[i], open[j].residual);
          var nodes := open[j].nodes + [i];
          if residual <= 0 || closed {
            pipelines := pipelines[finished := nodes];
            open := open[..j] + open[j + 1..];
            finished := finished + 1;
          } else {
            open := open[j := Entry(residual, nodes)];
          }
        case Start(residual, closed) =>
          StartKeeps(p, path, total, r);
          if closed {
            pipelines := pipelines[finished := [i]];
            finished := finished + 1;
          } else {
            open := open + [Entry(residual, [i])];
          }
        case _ =>
          SkipKeeps(p, path, total, r);
      }
      i := i + 1;
    }
    Completed(p, path, total, Replay(i, finished, open, pipelines));
  }

  lemma InitialInvariant(p: Problem, path: map<State, Action>, pipelines: seq<seq<nat>>)
    requires ValidProblem(p) && Replayable(p, path) && Solve(p, Initial).cost.Fin?
    requires |pipelines| == p.target && forall q :: 0 <= q < p.target ==> pipelines[q] == []
    ensures Invariant(p, path, Solve(p, Initial).cost.n, Replay(0, 0, [], pipelines))
  {
    hide Solve, Nodes;
    AllEmpty(pipelines);
  }

  lemma ActionOfStep(p: Problem, path: map<State, Action>, s: State)
    requires ValidProblem(p) && Replayable(p, path) && s in path && Stepping(p, s)
    ensures Canonical(p, s)
    ensures var a := path[s];
            a.Skip? || (a.Assign? && a.j < |s.open| && a == AssignAction(p, s, a.j)) || (a.Start? && a == StartAction(p, s))
  {
    SolveRealised(p, s);
  }
}
