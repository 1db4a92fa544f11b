/** The allocator's recurrence over (node, sorted open residuals, finished pipelines). */
module PipelineDp {
  import opened SortedLists
  import opened PipelinePlans

  /** A number of stages, or infinity when no completion was found. */
  datatype Stages = Fin(n: nat) | Inf {
    predicate Less(other: Stages) {
      Fin? && (other.Inf? || n < other.n)
    }

    function Inc(): Stages {
      if Fin? then Fin(n + 1) else Inf
    }
  }

  datatype Action =
    | Skip
    | Assign(j: nat, closed: bool)
    | Start(residual: int, closed: bool)
    | Done
    | Unrecorded

  datatype Choice = Choice(cost: Stages, action: Action)

  datatype State = State(i: nat, open: seq<int>, finished: nat)

  const Initial := State(0, [], 0)

  predicate Canonical(p: Problem, s: State) {
    s.i <= |p.caps| && IsSorted(s.open)
  }

  /** Total plain capacity of the nodes from `i` on. */
  function SuffixCap(caps: seq<Capacity>, i: nat): int
    requires i <= |caps|
    decreases |caps| - i
  {
    if i == |caps| then 0 else caps[i].plain + SuffixCap(caps, i + 1)
  }

  function NewNeeded(p: Problem, s: State): int {
    p.target - s.finished - |s.open|
  }

  /** `n * layers`, by repeated addition. */
  function Times(n: int, layers: int): int
    decreases n
  {
    if n <= 0 then 0 else layers + Times(n - 1, layers)
  }

  /** Too many pipelines already, too little capacity left, or too few nodes left. */
  predicate Pruned(p: Problem, s: State)
    requires s.i <= |p.caps|
  {
    || NewNeeded(p, s) < 0
    || SuffixCap(p.caps, s.i) < Sum(s.open) + Times(NewNeeded(p, s), p.layers)
    || s.finished + |s.open| + (|p.caps| - s.i) < p.target
  }

  function Drop(s: seq<int>, j: nat): (r: seq<int>)
    requires j < |s|
    ensures IsSorted(s) ==> IsSorted(r)
  {
    s[..j] + s[j + 1..]
  }

  function AssignNext(p: Problem, s: State, j: nat): (t: State)
    requires s.i < |p.caps| && IsSorted(s.open) && j < |s.open|
    ensures Canonical(p, t) && t.i == s.i + 1
  {
    var r := AfterJoin(p.caps[s.i], s.open[j]);
    if r <= 0 then State(s.i + 1, Drop(s.open, j), s.finished + 1)
    else State(s.i + 1, Sort(s.open[j := r]), s.finished)
  }

  function AssignAction(p: Problem, s: State, j: nat): Action
    requires s.i < |p.caps| && j < |s.open|
  {
    Assign(j, AfterJoin(p.caps[s.i], s.open[j]) <= 0)
  }

  function StartNext(p: Problem, s: State): (t: State)
    requires s.i < |p.caps| && IsSorted(s.open)
    ensures Canonical(p, t) && t.i == s.i + 1
  {
    var r := AfterStart(p.caps[s.i], p.layers);
    if r <= 0 then State(s.i + 1, s.open, s.finished + 1)
    else State(s.i + 1, Sort(s.open + [r]), s.finished)
  }

  function StartAction(p: Problem, s: State): Action
    requires s.i < |p.caps|
  {
    var r := AfterStart(p.caps[s.i], p.layers);
    if r <= 0 then Start(0, true) else Start(r, false)
  }

  /** The state a recorded action leads to. */
  function Next(p: Problem, s: State, a: Action): (t: State)
    requires s.i < |p.caps| && IsSorted(s.open)
    ensures Canonical(p, t) && t.i == s.i + 1
  {
    if a.Assign? && a.j < |s.open| then AssignNext(p, s, a.j)
    else if a.Start? then StartNext(p, s)
    else State(s.i + 1, s.open, s.finished)
  }

  /** Keeps the earlier candidate on ties. */
  function Better(best: Choice, other: Choice): Choice {
    if other.cost.Less(best.cost) then other else best
  }

  /** Scans the options in order, starting from `first`. */
  function Cheapest(first: Choice, options: seq<Choice>): Choice {
    if options == [] then first
    else Better(Cheapest(first, options[..|options| - 1]), options[|options| - 1])
  }

  predicate AtMost(a: Stages, n: nat) {
    a.Fin? && a.n <= n
  }

  lemma {:induction false} CheapestIsLeast(first: Choice, options: seq<Choice>, n: nat)
    requires AtMost(first.cost, n) || exists k :: 0 <= k < |options| && AtMost(options[k].cost, n)
    ensures AtMost(Cheapest(first, options).cost, n)
  {
    if options != [] {
      var k := |options| - 1;
      if !AtMost(options[k].cost, n) {
        if !AtMost(first.cost, n) {
          var l :| 0 <= l < |options| && AtMost(options[l].cost, n);
          assert options[..k][l] == options[l];
        }
        CheapestIsLeast(first, options[..k], n);
      } else if AtMost(Cheapest(first, options[..k]).cost, n) {
      }
    }
  }

  lemma {:induction false} CheapestIsOption(first: Choice, options: seq<Choice>)
    ensures Cheapest(first, options) == first || Cheapest(first, options) in options
  {
    if options != [] {
      var k := |options| - 1;
      CheapestIsOption(first, options[..k]);
      assert options[k] in options;
    }
  }

  function AssignOptions(p: Problem, s: State): (r: seq<Choice>)
    requires s.i < |p.caps| && IsSorted(s.open)
    ensures |r| == |s.open|
    ensures forall j :: 0 <= j < |r| ==> r[j] == Choice(Solve(p, AssignNext(p, s, j)).cost.Inc(), AssignAction(p, s, j))
    decreases |p.caps| - s.i, 0
  {
    seq(|s.open|, j requires 0 <= j < |s.open| => Choice(Solve(p, AssignNext(p, s, j)).cost.Inc(), AssignAction(p, s, j)))
  }

  function SkipOption(p: Problem, s: State): Choice
    requires s.i < |p.caps| && IsSorted(s.open)
    decreases |p.caps| - s.i, 0
  {
    Choice(Solve(p, State(s.i + 1, s.open, s.finished)).cost, Skip)
  }

  function StartOption(p: Problem, s: State): (r: seq<Choice>)
    requires s.i < |p.caps| && IsSorted(s.open)
    decreases |p.caps| - s.i, 0
  {
    if NewNeeded(p, s) > 0 then [Choice(Solve(p, StartNext(p, s)).cost.Inc(), StartAction(p, s))] else []
  }

  function Solve(p: Problem, s: State): Choice
    requires Canonical(p, s)
    decreases |p.caps| - s.i, 1
  {
    if s.finished == p.target && s.open == [] then Choice(Fin(0), Done)
    else if s.i == |p.caps| || Pruned(p, s) then Choice(Inf, Unrecorded)
    else Cheapest(SkipOption(p, s), AssignOptions(p, s) + StartOption(p, s))
  }

  predicate Stepping(p: Problem, s: State)
    requires s.i <= |p.caps|
  {
    !(s.finished == p.target && s.open == []) && s.i < |p.caps| && !Pruned(p, s)
  }

  /** The actions open to a node. */
  predicate IsOption(p: Problem, s: State, a: Action)
    requires s.i < |p.caps|
  {
    || a.Skip?
    || (a.Assign? && a.j < |s.open| && a == AssignAction(p, s, a.j))
    || (NewNeeded(p, s) > 0 && a == StartAction(p, s))
  }

  function CostOf(p: Problem, s: State, a: Action): Stages
    requires s.i < |p.caps| && IsSorted(s.open) && IsOption(p, s, a)
  {
    if a.Skip? then Solve(p, Next(p, s, a)).cost else Solve(p, Next(p, s, a)).cost.Inc()
  }

  /** The chosen action is one of the options, and its cost is that of the state it leads to. */
  lemma SolveRealised(p: Problem, s: State)
    requires Canonical(p, s) && Stepping(p, s)
    ensures IsOption(p, s, Solve(p, s).action)
    ensures Solve(p, s).cost == CostOf(p, s, Solve(p, s).action)
  {
    hide Sort, Sum, SuffixCap, Times, AfterStart, AfterJoin, Cheapest;
    CheapestIsOption(SkipOption(p, s), AssignOptions(p, s) + StartOption(p, s));
  }

  /** What a completion of exactly `target` pipelines leaves room for: none of the three prunings applies. */
  ghost predicate Unpruned(p: Problem, s: State)
    requires s.i <= |p.caps|
  {
    && NewNeeded(p, s) >= 0
    && SuffixCap(p.caps, s.i) >= Sum(s.open) + Times(NewNeeded(p, s), p.layers)
    && NewNeeded(p, s) <= |p.caps| - s.i
  }

  lemma CandidateBound(p: Problem, s: State, a: Action, n: nat)
    requires Canonical(p, s) && s.i < |p.caps| && Unpruned(p, s) && IsOption(p, s, a)
    requires AtMost(CostOf(p, s, a), n)
    ensures AtMost(Solve(p, s).cost, n)
  {
    var options := AssignOptions(p, s) + StartOption(p, s);
    if a.Assign? {
      assert options[a.j].cost == CostOf(p, s, a);
    } else if a.Start? {
      assert options[|s.open|].cost == CostOf(p, s, a);
    }
    CheapestIsLeast(SkipOption(p, s), options, n);
  }
}
