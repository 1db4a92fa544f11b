/** The recurrence computes the least number of stages over all labelled plans, whatever it prunes. */
module PipelineExactness {
  import opened SortedLists
  import opened PipelinePlans
  import opened PipelineDp

  /** `view` keeps some open pipelines of `slots` and forgets the others; `open` lists the kept residuals. */
  ghost predicate Keeps(slots: seq<Slot>, view: seq<Slot>, open: seq<int>) {
    && |view| == |slots|
    && (forall l :: 0 <= l < |slots| ==> view[l] == slots[l] || view[l] == Closed)
    && IsSorted(open)
    && multiset(open) == Bag(view)
  }

  /** The state has room for, and the recurrence finds, a completion of at most `n` stages. */
  ghost predicate Completes(p: Problem, s: State, n: nat) {
    Canonical(p, s) && Unpruned(p, s) && AtMost(Solve(p, s).cost, n)
  }

  lemma IndexOf(s: seq<int>, x: int) returns (j: nat)
    requires x in multiset(s)
    ensures j < |s| && s[j] == x
  {
    assert x in s;
    j :| 0 <= j < |s| && s[j] == x;
  }

  /** Option `a` leads from `s` to `s'`, and room is not lost going back. */
  ghost predicate LeadsTo(p: Problem, s: State, a: Action, s': State)
    requires s.i < |p.caps|
  {
    && Canonical(p, s)
    && IsOption(p, s, a)
    && s' == Next(p, s, a)
    && (Unpruned(p, s') ==> Unpruned(p, s))
  }

  /** One option, taken by a state with room, leads to a completion. */
  lemma TakeOption(p: Problem, s: State, a: Action, s': State, n: nat)
    requires s.i < |p.caps| && LeadsTo(p, s, a, s')
    requires Completes(p, s', n)
    ensures Completes(p, s, if a.Skip? then n else n + 1)
  {
    CandidateBound(p, s, a, if a.Skip? then n else n + 1);
  }

  lemma SkipLeads(p: Problem, i: nat, open: seq<int>, finished: nat)
    requires ValidProblem(p) && i < |p.caps| && IsSorted(open)
    ensures LeadsTo(p, State(i, open, finished), Skip, State(i + 1, open, finished))
  {
  }

  lemma StartCloses(p: Problem, i: nat, open: seq<int>, finished: nat)
    requires ValidProblem(p) && i < |p.caps| && IsSorted(open)
    requires AfterStart(p.caps[i], p.layers) <= 0
    requires Unpruned(p, State(i + 1, open, finished + 1))
    ensures LeadsTo(p, State(i, open, finished), Start(0, true), State(i + 1, open, finished + 1))
  {
  }

  lemma StartOpens(p: Problem, i: nat, open: seq<int>, r: int, open': seq<int>, finished: nat)
    requires ValidProblem(p) && i < |p.caps| && IsSorted(open) && IsSorted(open')
    requires r == AfterStart(p.caps[i], p.layers) > 0
    requires multiset(open') == multiset(open) + multiset{r}
    requires Unpruned(p, State(i + 1, open', finished))
    ensures LeadsTo(p, State(i, open, finished), Start(r, false), State(i + 1, open', finished))
  {
    hide Sort;
    SumConcat(open, [r]);
    assert multiset(open + [r]) == multiset(open) + multiset{r};
    SortedUnique(Sort(open + [r]), open');
    SumPermutation(open + [r], open');
    assert Sum([r]) == r;
    assert |open'| == |multiset(open')| == |multiset(open + [r])| == |open| + 1;
  }

  lemma JoinCloses(p: Problem, i: nat, open: seq<int>, j: nat, open': seq<int>, finished: nat)
    requires ValidProblem(p) && i < |p.caps| && IsSorted(open) && IsSorted(open') && j < |open|
    requires AfterJoin(p.caps[i], open[j]) <= 0
    requires multiset(open') == multiset(open) - multiset{open[j]}
    ensures LeadsTo(p, State(i, open, finished), Assign(j, true), State(i + 1, open', finished + 1))
  {
    SumRemove(open, j);
    SortedUnique(Drop(open, j), open');
  }

  lemma JoinStays(p: Problem, i: nat, open: seq<int>, j: nat, r: int, open': seq<int>, finished: nat)
    requires ValidProblem(p) && i < |p.caps| && IsSorted(open) && IsSorted(open') && j < |open|
    requires r == AfterJoin(p.caps[i], open[j]) > 0
    requires multiset(open') == multiset(open) - multiset{open[j]} + multiset{r}
    ensures LeadsTo(p, State(i, open, finished), Assign(j, false), State(i + 1, open', finished))
  {
    hide Sort, Sum, Times;
    SumUpdate(open, j, r);
    SortedUnique(Sort(open[j := r]), open');
    SumPermutation(open[j := r], open');
    assert |open'| == |multiset(open')| == |multiset(open[j := r])| == |open|;
  }

  function AllClosed(n: nat): (r: seq<Slot>)
    ensures |r| == n && forall l :: 0 <= l < n ==> r[l] == Closed
    ensures Bag(r) == multiset{}
  {
    if n == 0 then [] else [Closed] + AllClosed(n - 1)
  }

  /** Undoes a begun pipeline in the kept view. */
  lemma BackOverBegin(p: Problem, i: nat, st: Plan, view': seq<Slot>, open': seq<int>)
    returns (view: seq<Slot>, open: seq<int>, a: Action)
    requires ValidProblem(p) && i < |p.caps|
    requires var st' := Apply(p.caps[i], p.layers, st, Begin);
             Keeps(st'.slots, view', open') && Unpruned(p, State(i + 1, open', st'.finished))
    ensures Keeps(st.slots, view, open)
    ensures LeadsTo(p, State(i, open, st.finished), a, State(i + 1, open', Apply(p.caps[i], p.layers, st, Begin).finished))
  {
    hide LeadsTo, Unpruned, Bag, AfterStart, Sort;
    var r := AfterStart(p.caps[i], p.layers);
    var last := view'[|st.slots|];
    view := ForgetLast(st.slots, if r <= 0 then Closed else Open(r), view', open');
    if r <= 0 {
      open, a := open', Start(0, true);
      StartCloses(p, i, open, st.finished);
    } else if last == Open(r) {
      Cancel(Bag(view), multiset(open'), r);
      open := Removed(open', r);
      a := Start(r, false);
      StartOpens(p, i, open, r, open', st.finished);
    } else {
      open, a := open', Skip;
      SkipLeads(p, i, open, st.finished);
    }
  }

  lemma ForgetLast(slots: seq<Slot>, s: Slot, view': seq<Slot>, open': seq<int>) returns (view: seq<Slot>)
    requires Keeps(slots + [s], view', open')
    ensures |view| == |slots| && forall l :: 0 <= l < |slots| ==> view[l] == slots[l] || view[l] == Closed
    ensures view'[|slots|] == s || view'[|slots|] == Closed
    ensures multiset(open') == Bag(view) + One(view'[|slots|])
    ensures view'[|slots|].Closed? ==> multiset(open') == Bag(view)
  {
    hide Bag;
    var k := |slots|;
    view := view'[..k];
    assert view' == view + [view'[k]];
    BagAppend(view, view'[k]);
    forall l | 0 <= l < |slots|
      ensures view[l] == slots[l] || view[l] == Closed
    {
      assert view'[l] == (slots + [s])[l] || view'[l] == Closed;
    }
    assert Bag(view) + multiset{} == Bag(view);
  }

  lemma Removed(s: seq<int>, x: int) returns (t: seq<int>)
    requires IsSorted(s) && x in multiset(s)
    ensures IsSorted(t) && multiset(t) == multiset(s) - multiset{x}
  {
    var j := IndexOf(s, x);
    t := Drop(s, j);
    SumRemove(s, j);
  }

  /** Undoes a join in the kept view. */
  lemma BackOverJoin(p: Problem, i: nat, st: Plan, l: nat, view': seq<Slot>, open': seq<int>)
    returns (view: seq<Slot>, open: seq<int>, a: Action)
    requires ValidProblem(p) && i < |p.caps| && Legal(st, Join(l))
    requires Keeps(Apply(p.caps[i], p.layers, st, Join(l)).slots, view', open')
    ensures Keeps(st.slots, view, open)
    ensures LeadsTo(p, State(i, open, st.finished), a, State(i + 1, open', Apply(p.caps[i], p.layers, st, Join(l)).finished))
  {
    hide LeadsTo, Unpruned, Bag, AfterJoin, Sort;
    var r0 := st.slots[l].residual;
    var r := AfterJoin(p.caps[i], r0);
    if r <= 0 {
      view, open := Reopen(st.slots, l, Closed, view', open');
      var j := IndexOf(open, r0);
      JoinCloses(p, i, open, j, open', st.finished);
      a := Assign(j, true);
    } else if view'[l] == Open(r) {
      view, open := Reopen(st.slots, l, Open(r), view', open');
      var j := IndexOf(open, r0);
      JoinStays(p, i, open, j, r, open', st.finished);
      a := Assign(j, false);
    } else {
      view, open, a := view', open', Skip;
      SkipLeads(p, i, open, st.finished);
    }
  }

  /** Gives slot `l` back the residual it had before it was changed to `s`. */
  lemma Reopen(slots: seq<Slot>, l: nat, s: Slot, view': seq<Slot>, open': seq<int>) returns (view: seq<Slot>, open: seq<int>)
    requires l < |slots| && slots[l].Open?
    requires Keeps(slots[l := s], view', open') && view'[l] == s
    ensures Keeps(slots, view, open)
    ensures slots[l].residual in multiset(open)
    ensures s.Closed? ==> multiset(open') == multiset(open) - multiset{slots[l].residual}
    ensures s.Open? ==> multiset(open') == multiset(open) - multiset{slots[l].residual} + multiset{s.residual}
  {
    hide Bag, Sort;
    var r0 := slots[l].residual;
    view := view'[l := Open(r0)];
    assert view' == view[l := s];
    if s.Closed? {
      BagClose(view, l);
      BagOpen(view', l, r0);
      open := Sort(open' + [r0]);
    } else {
      BagChange(view, l, s.residual);
      BagChange(view', l, r0);
      open := Swapped(open', s.residual, r0);
    }
    forall k | 0 <= k < |slots|
      ensures view[k] == slots[k] || view[k] == Closed
    {
      assert view'[k] == slots[l := s][k] || view'[k] == Closed;
    }
  }

  lemma Swapped(s: seq<int>, x: int, y: int) returns (t: seq<int>)
    requires x in multiset(s)
    ensures IsSorted(t) && multiset(t) == multiset(s) - multiset{x} + multiset{y}
  {
    var j := IndexOf(s, x);
    SumUpdate(s, j, y);
    t := Sort(s[j := y]);
  }

  /** Every labelled plan is matched: no state it passes through is pruned, and its stages bound the cost. */
  lemma {:induction false} PlanBounds(p: Problem, i: nat, st: Plan, moves: seq<Move>) returns (view: seq<Slot>, open: seq<int>)
    requires ValidProblem(p) && i <= |p.caps|
    requires Closes(p, i, st, moves)
    ensures Keeps(st.slots, view, open)
    ensures Completes(p, State(i, open, st.finished), Used(moves))
    decreases |moves|
  {
    if moves == [] {
      view, open := AllClosed(|st.slots|), [];
    } else {
      var st' := Apply(p.caps[i], p.layers, st, moves[0]);
      var view', open' := PlanBounds(p, i + 1, st', moves[1..]);
      var a;
      match moves[0] {
        case Idle =>
          view, open, a := view', open', Skip;
          SkipLeads(p, i, open, st.finished);
        case Begin =>
          view, open, a := BackOverBegin(p, i, st, view', open');
        case Join(l) =>
          view, open, a := BackOverJoin(p, i, st, l, view', open');
      }
      TakeOption(p, State(i, open, st.finished), a, State(i + 1, open', st'.finished), Used(moves[1..]));
    }
  }

  /** Plan and state agree on the residuals of the open pipelines and on the number of closed ones. */
  ghost predicate Agree(s: State, st: Plan) {
    multiset(s.open) == Bag(st.slots) && s.finished == st.finished
  }

  lemma FollowStart(p: Problem, s: State, st: Plan)
    requires Canonical(p, s) && s.i < |p.caps| && Agree(s, st)
    ensures Agree(StartNext(p, s), Apply(p.caps[s.i], p.layers, st, Begin))
  {
    hide Bag, Sort, Sum;
    var r := AfterStart(p.caps[s.i], p.layers);
    BagAppend(st.slots, if r <= 0 then Closed else Open(r));
    assert Bag(st.slots) + multiset{} == Bag(st.slots);
  }

  lemma FollowAssign(p: Problem, s: State, st: Plan, j: nat) returns (l: nat)
    requires Canonical(p, s) && s.i < |p.caps| && Agree(s, st) && j < |s.open|
    ensures Legal(st, Join(l))
    ensures Agree(AssignNext(p, s, j), Apply(p.caps[s.i], p.layers, st, Join(l)))
  {
    hide Bag, Sort, Sum, AfterJoin;
    l := BagFind(st.slots, s.open[j]);
    var r := AfterJoin(p.caps[s.i], s.open[j]);
    if r <= 0 {
      BagClose(st.slots, l);
      SumRemove(s.open, j);
    } else {
      BagChange(st.slots, l, r);
      SumUpdate(s.open, j, r);
    }
  }

  /** The move that follows an action: assigning joins some pipeline with the residual at that position. */
  lemma Follow(p: Problem, s: State, st: Plan, a: Action) returns (m: Move)
    requires Canonical(p, s) && s.i < |p.caps| && IsOption(p, s, a)
    requires Agree(s, st)
    ensures Legal(st, m) && (m.Idle? <==> a.Skip?)
    ensures Agree(Next(p, s, a), Apply(p.caps[s.i], p.layers, st, m))
  {
    hide Bag, StartNext, AssignNext;
    match a
    case Skip =>
      m := Idle;
    case Start(_, _) =>
      m := Begin;
      FollowStart(p, s, st);
    case Assign(j, _) =>
      var l := FollowAssign(p, s, st, j);
      m := Join(l);
  }

  /** A finite cost is the number of stages of some plan. */
  lemma {:induction false} PlanExists(p: Problem, s: State, st: Plan) returns (moves: seq<Move>)
    requires ValidProblem(p) && Canonical(p, s)
    requires Agree(s, st)
    requires Solve(p, s).cost.Fin?
    ensures Closes(p, s.i, st, moves)
    ensures Used(moves) == Solve(p, s).cost.n
    decreases |p.caps| - s.i
  {
    hide SuffixCap, Sort, Sum, Bag, Apply, Next, AfterStart, AfterJoin;
    if Stepping(p, s) {
      var a := Solve(p, s).action;
      SolveRealised(p, s);
      var m := Follow(p, s, st, a);
      var rest := PlanExists(p, Next(p, s, a), Apply(p.caps[s.i], p.layers, st, m));
      moves := [m] + rest;
      assert moves[1..] == rest;
    } else {
      moves := Idling(|p.caps| - s.i);
      IdlingCloses(p, s.i, st);
    }
  }

  /** `n` is the least number of stages of a plan closing exactly `target` pipelines. */
  ghost predicate LeastStages(p: Problem, n: nat) {
    && (exists moves :: Closes(p, 0, NoPlan, moves) && Used(moves) == n)
    && (forall moves :: Closes(p, 0, NoPlan, moves) ==> n <= Used(moves))
  }

  ghost predicate Feasible(p: Problem) {
    exists moves :: Closes(p, 0, NoPlan, moves)
  }

  /** The recurrence is exact: finite exactly when some plan exists, and then the least number of stages. */
  lemma SolveIsExact(p: Problem)
    requires ValidProblem(p)
    ensures Solve(p, Initial).cost.Fin? <==> Feasible(p)
    ensures Solve(p, Initial).cost.Fin? ==> LeastStages(p, Solve(p, Initial).cost.n)
  {
    forall moves | Closes(p, 0, NoPlan, moves)
      ensures AtMost(Solve(p, Initial).cost, Used(moves))
    {
      PlanMatched(p, moves);
    }
    if Solve(p, Initial).cost.Fin? {
      var moves := PlanExists(p, Initial, NoPlan);
    }
  }

  lemma PlanMatched(p: Problem, moves: seq<Move>)
    requires ValidProblem(p) && Closes(p, 0, NoPlan, moves)
    ensures Completes(p, Initial, Used(moves))
  {
    var view, open := PlanBounds(p, 0, NoPlan, moves);
    assert view == [];
    assert |open| == |multiset(open)| == 0;
    assert open == [];
  }

  lemma {:induction false} TimesIsProduct(n: nat, layers: int)
    ensures Times(n, layers) == n * layers
  {
    if n > 0 {
      TimesIsProduct(n - 1, layers);
      assert n * layers == (n - 1) * layers + layers;
    }
  }

  /** No number of pipelines above `min(nodes, total capacity / layers)` is feasible. */
  lemma FeasibleIsBounded(p: Problem)
    requires ValidProblem(p) && Feasible(p)
    ensures p.target <= |p.caps|
    ensures p.target * p.layers <= SuffixCap(p.caps, 0)
    ensures p.target <= SuffixCap(p.caps, 0) / p.layers
  {
    var moves :| Closes(p, 0, NoPlan, moves);
    PlanMatched(p, moves);
    TimesIsProduct(p.target, p.layers);
    DivBound(p.target, SuffixCap(p.caps, 0), p.layers);
  }

  lemma DivBound(k: nat, total: int, layers: int)
    requires layers > 0 && k * layers <= total
    ensures k <= total / layers
  {
    var q := total / layers;
    MulOrder(q + 1, k, layers);
  }

  lemma MulOrder(a: int, b: int, layers: int)
    requires layers > 0
    ensures a <= b <==> a * layers <= b * layers
  {
  }
}
