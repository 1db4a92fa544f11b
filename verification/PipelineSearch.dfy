/** The memoised search: what it returns and what its `path` table holds for the replay. */
module PipelineSearch {
  import opened SortedLists
  import opened PipelinePlans
  import opened PipelineDp

  /** `sums[i]` is the plain capacity of the nodes from `i` on. */
  method SuffixSums(caps: seq<Capacity>) returns (sums: seq<int>)
    ensures |sums| == |caps| + 1
    ensures forall i :: 0 <= i <= |caps| ==> sums[i] == SuffixCap(caps, i)
  {
    sums := seq(|caps| + 1, _ => 0);
    var i := |caps|;
    while i > 0
      invariant 0 <= i <= |caps| && |sums| == |caps| + 1
      invariant forall k :: i <= k <= |caps| ==> sums[k] == SuffixCap(caps, k)
    {
      i := i - 1;
      sums := sums[i := sums[i + 1] + caps[i].plain];
    }
  }

  /** A finite completion can be replayed through `path`: every state on the way has its action recorded. */
  ghost predicate Replayable(p: Problem, path: map<State, Action>) {
    && (Solve(p, Initial).cost.Fin? ==> Initial in path)
    && (forall s :: s in path ==> Canonical(p, s) && path[s] == Solve(p, s).action)
    && (forall s :: s in path && Stepping(p, s) && Solve(p, Next(p, s, path[s])).cost.Fin? ==> Next(p, s, path[s]) in path)
  }

  class Search {
    const p: Problem
    const sums: seq<int>
    var memo: map<State, Stages>
    var path: map<State, Action>

    /** The tables agree with the recurrence, and are closed under the recorded actions. */
    ghost predicate Valid()
      reads this
    {
      && ValidProblem(p)
      && |sums| == |p.caps| + 1
      && (forall i :: 0 <= i <= |p.caps| ==> sums[i] == SuffixCap(p.caps, i))
      && (forall s :: s in memo ==> Canonical(p, s) && memo[s] == Solve(p, s).cost)
      && (forall s :: s in memo && Solve(p, s).cost.Fin? ==> s in path)
      && (forall s :: s in path ==> Canonical(p, s) && path[s] == Solve(p, s).action)
      && (forall s :: s in path && Stepping(p, s) ==> Next(p, s, path[s]) in memo)
    }

    constructor (p: Problem, sums: seq<int>)
      requires ValidProblem(p)
      requires |sums| == |p.caps| + 1
      requires forall i :: 0 <= i <= |p.caps| ==> sums[i] == SuffixCap(p.caps, i)
      ensures Valid() && this.p == p && memo == map[] && path == map[]
    {
      this.p, this.sums, memo, path := p, sums, map[], map[];
    }

    /** Records a computed state. */
    method Record(s: State, c: Choice)
      requires Valid() && Canonical(p, s) && c == Solve(p, s)
      requires c.action.Unrecorded? ==> c.cost.Inf?
      requires Stepping(p, s) ==> Next(p, s, c.action) in memo
      modifies this
      ensures Valid()
      ensures memo == old(memo)[s := c.cost]
    {
      memo := memo[s := c.cost];
      if !c.action.Unrecorded? {
        path := path[s := c.action];
      }
    }

    method Dp(s: State) returns (cost: Stages)
      requires Valid() && Canonical(p, s)
      modifies this
      ensures Valid()
      ensures cost == Solve(p, s).cost
      ensures s in memo && old(memo.Keys) <= memo.Keys
      decreases |p.caps| - s.i, 2
    {
      if s in memo {
        return memo[s];
      }
      if s.finished == p.target && |s.open| == 0 {
        Record(s, Choice(Fin(0), Done));
        return Fin(0);
      }
      if s.i == |p.caps| {
        Record(s, Choice(Inf, Unrecorded));
        return Inf;
      }
      var newNeeded := p.target - s.finished - |s.open|;
      var needOpen := Sum(s.open);
      if newNeeded < 0
         || sums[s.i] < needOpen + Times(newNeeded, p.layers)
         || s.finished + |s.open| + (|p.caps| - s.i) < p.target {
        Record(s, Choice(Inf, Unrecorded));
        return Inf;
      }
      var best := Options(s);
      Record(s, best);
      return best.cost;
    }

    /** Skipping, and assigning to each open pipeline in turn. */
    method Assignments(s: State) returns (best: Choice)
      requires Valid() && Canonical(p, s) && Stepping(p, s)
      modifies this
      ensures Valid() && old(memo.Keys) <= memo.Keys
      ensures best == Cheapest(SkipOption(p, s), AssignOptions(p, s))
      ensures State(s.i + 1, s.open, s.finished) in memo
      ensures forall k :: 0 <= k < |s.open| ==> AssignNext(p, s, k) in memo
      decreases |p.caps| - s.i, 0
    {
      hide Valid, Solve, Sort, Sum, SuffixCap, Times, IsOption, AssignNext, StartNext, Next, Pruned;
      var skip := Dp(State(s.i + 1, s.open, s.finished));
      best := Choice(skip, Skip);
      ghost var first := best;
      ghost var options := AssignOptions(p, s);
      var j := 0;
      while j < |s.open|
        invariant 0 <= j <= |s.open|
        invariant Valid() && old(memo.Keys) <= memo.Keys
        invariant best == Cheapest(first, options[..j])
        invariant State(s.i + 1, s.open, s.finished) in memo
        invariant forall k :: 0 <= k < j ==> AssignNext(p, s, k) in memo
      {
        ghost var before := memo.Keys;
        var cost := Dp(AssignNext(p, s, j));
        assert before <= memo.Keys;
        var candidate := Choice(cost.Inc(), AssignAction(p, s, j));
        CheapestStep(first, options, j, candidate);
        best := Better(best, candidate);
        j := j + 1;
      }
      assert options[..j] == options;
    }

    /** The three options of a node: skip, assign to an open pipeline, start a new one. */
    method Options(s: State) returns (best: Choice)
      requires Valid() && Canonical(p, s) && Stepping(p, s)
      modifies this
      ensures Valid()
      ensures best == Solve(p, s) && IsOption(p, s, best.action)
      ensures Next(p, s, best.action) in memo && old(memo.Keys) <= memo.Keys
      decreases |p.caps| - s.i, 1
    {
      hide Valid, Solve, Sort, Sum, SuffixCap, Times, IsOption, AssignNext, StartNext, Next, Pruned;
      best := Assignments(s);
      ghost var options := AssignOptions(p, s) + StartOption(p, s);
      assert options[..|s.open|] == AssignOptions(p, s);
      if NewNeeded(p, s) > 0 {
        ghost var before := memo.Keys;
        var cost := Dp(StartNext(p, s));
        assert before <= memo.Keys;
        var candidate := Choice(cost.Inc(), StartAction(p, s));
        CheapestStep(SkipOption(p, s), options, |s.open|, candidate);
        assert options[..|s.open| + 1] == options;
        best := Better(best, candidate);
      } else {
        assert options == AssignOptions(p, s);
      }
      SolveUnfolds(p, s);
      SolveRealised(p, s);
      NextOfOption(p, s, best.action);
    }
  }

  lemma CheapestStep(first: Choice, options: seq<Choice>, j: nat, candidate: Choice)
    requires j < |options| && options[j] == candidate
    ensures Cheapest(first, options[..j + 1]) == Better(Cheapest(first, options[..j]), candidate)
  {
    assert options[..j + 1][..j] == options[..j];
  }

  lemma SolveUnfolds(p: Problem, s: State)
    requires Canonical(p, s) && Stepping(p, s)
    ensures Solve(p, s) == Cheapest(SkipOption(p, s), AssignOptions(p, s) + StartOption(p, s))
  {
  }

  lemma NextOfOption(p: Problem, s: State, a: Action)
    requires Canonical(p, s) && s.i < |p.caps| && IsOption(p, s, a)
    ensures a.Skip? || (a.Assign? && a.j < |s.open|) || (a.Start? && NewNeeded(p, s) > 0)
    ensures a.Skip? ==> Next(p, s, a) == State(s.i + 1, s.open, s.finished)
    ensures a.Assign? ==> Next(p, s, a) == AssignNext(p, s, a.j)
    ensures a.Start? ==> Next(p, s, a) == StartNext(p, s)
  {
  }
}
