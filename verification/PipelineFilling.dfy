/** Filling one pipeline in place by water-filling: the workers end up tiling all layers. */
module PipelineFilling {
  import opened Hosts
  import opened SortedLists
  import opened PipelinePlans
  import opened Workers
  import opened WaterFilling
  import opened Sequences

  datatype FillOutcome = NoNodes | BadCapacity | TooLittleCapacity | NegativeRest | NotCovered | Filled

  /** Capacity at a position: the head keeps room for the embedding, the tail for the LM head. */
  function CapAt(nodes: seq<Worker>, i: nat): int
    requires i < |nodes|
  {
    if i == 0 then nodes[i].capacity.withEmbed
    else if i == |nodes| - 1 then nodes[i].capacity.withHead
    else nodes[i].capacity.plain
  }

  function CapsOf(nodes: seq<Worker>, n: nat): (r: seq<int>)
    requires n <= |nodes|
    ensures |r| == n && forall i :: 0 <= i < n ==> r[i] == CapAt(nodes, i)
  {
    if n == 0 then [] else CapsOf(nodes, n - 1) + [CapAt(nodes, n - 1)]
  }

  function PowersOf(nodes: seq<Worker>, n: nat): (r: seq<real>)
    requires n <= |nodes|
    ensures |r| == n && forall i :: 0 <= i < n ==> r[i] == nodes[i].power
  {
    if n == 0 then [] else PowersOf(nodes, n - 1) + [nodes[n - 1].power]
  }

  /** Consecutive ranges of the given sizes; an empty size leaves the worker unassigned. */
  function RangeAt(counts: seq<int>, i: nat): Range
    requires i < |counts|
  {
    if counts[i] <= 0 then Unassigned else Layers(Sum(counts[..i]), Sum(counts[..i + 1]))
  }

  ghost predicate Assigned(nodes: seq<Worker>, counts: seq<int>)
    reads nodes
  {
    |counts| == |nodes| && forall i :: 0 <= i < |nodes| ==> nodes[i].range == RangeAt(counts, i) && nodes[i].Consistent()
  }

  lemma {:induction false} SumPrefixMonotone(counts: seq<int>, i: nat, j: nat)
    requires i <= j <= |counts| && forall k :: 0 <= k < |counts| ==> counts[k] >= 0
    ensures Sum(counts[..i]) <= Sum(counts[..j])
    decreases j
  {
    if i < j {
      SumStep(counts, j - 1);
      SumPrefixMonotone(counts, i, j - 1);
    }
  }

  /** Every layer is hosted by exactly one of the workers. */
  lemma {:induction false} HostedOnce(counts: seq<int>, l: int, n: nat) returns (host: nat)
    requires n <= |counts| && forall k :: 0 <= k < |counts| ==> counts[k] >= 0
    requires 0 <= l < Sum(counts[..n])
    ensures host < n && RangeAt(counts, host).Layers?
    ensures RangeAt(counts, host).start <= l < RangeAt(counts, host).end
    ensures forall i :: 0 <= i < |counts| && RangeAt(counts, i).Layers? && RangeAt(counts, i).start <= l < RangeAt(counts, i).end ==> i == host
    decreases n
  {
    assert n > 0 by {
      assert counts[..0] == [];
    }
    SumStep(counts, n - 1);
    if l >= Sum(counts[..n - 1]) {
      host := n - 1;
      forall i | 0 <= i < |counts| && RangeAt(counts, i).Layers? && RangeAt(counts, i).start <= l < RangeAt(counts, i).end
        ensures i == host
      {
        if i < host {
          SumPrefixMonotone(counts, i + 1, host);
        } else if i > host {
          SumPrefixMonotone(counts, host + 1, i);
        }
      }
    } else {
      host := HostedOnce(counts, l, n - 1);
    }
  }

  /** Rounding down never exceeds the layers when the bisection is fine enough. */
  lemma FloorsFit(caps: seq<int>, powers: seq<real>, layers: int, level: real)
    requires Fillable(caps, powers) && level > 0.0
    requires Total(caps, powers, level) < layers as real + 1.0
    ensures Sum(Floors(caps, Targets(caps, powers, level))) <= layers
  {
    hide Sum, Total, Floors, Targets, Remainders, SumReals;
    var targets := Targets(caps, powers, level);
    var floors := Floors(caps, targets);
    FloorFacts(caps, powers, level);
    TargetsTotal(caps, powers, level);
    RemaindersTotal(targets, floors);
    RealsNonNegative(Remainders(targets, floors));
  }

  lemma {:induction false} RealsNonNegative(s: seq<real>)
    requires forall i :: 0 <= i < |s| ==> s[i] >= 0.0
    ensures SumReals(s) >= 0.0
  {
    if s != [] {
      RealsNonNegative(s[1..]);
    }
  }

  /** The counts are the water-filled shares, rounded, for a level within one bisection step of reaching the layers. */
  ghost predicate WaterFilled(caps: seq<int>, powers: seq<real>, layers: int, steps: nat, level: real, counts: seq<int>)
    requires Fillable(caps, powers)
  {
    && |counts| == |caps|
    && Sum(counts) == layers
    && (exists m: nat :: FirstReaching(caps, powers, layers, steps, level, m))
    && LargestPartsUp(caps, powers, level, counts)
    && forall i :: 0 <= i < |caps| ==> Rounded(caps[i], Share(caps[i], powers[i], level), counts[i])
  }

  ghost predicate AllRoom(nodes: seq<Worker>) {
    forall i :: 0 <= i < |nodes| ==> CapAt(nodes, i) > 0
  }

  method ReadCapacities(nodes: seq<Worker>) returns (ok: bool, caps: seq<int>, powers: seq<real>)
    ensures ok <==> AllRoom(nodes)
    ensures ok ==> caps == CapsOf(nodes, |nodes|) && powers == PowersOf(nodes, |nodes|)
  {
    caps, powers := [], [];
    for i := 0 to |nodes|
      invariant caps == CapsOf(nodes, i) && powers == PowersOf(nodes, i)
      invariant forall k :: 0 <= k < i ==> CapAt(nodes, k) > 0
    {
      var cap := CapAt(nodes, i);
      if cap <= 0 {
        return false, [], [];
      }
      caps := caps + [cap];
      powers := powers + [nodes[i].power];
    }
    ok := true;
  }

  ghost predicate SplitAsFilled(caps: seq<int>, powers: seq<real>, layers: int, steps: nat, counts: seq<int>)
    requires Fillable(caps, powers)
  {
    exists level: real :: level > 0.0 && WaterFilled(caps, powers, layers, steps, level, counts)
  }

  /** At the level the bisection finds, the floors of the shares alone are more than the layers. */
  ghost predicate FloorsExceed(caps: seq<int>, powers: seq<real>, layers: int, steps: nat)
    requires Fillable(caps, powers)
  {
    exists level: real, m: nat ::
      && FirstReaching(caps, powers, layers, steps, level, m)
      && Sum(Floors(caps, Targets(caps, powers, level))) > layers
  }

  /** Floors and rounded counts cannot both come out of the one level that is first to reach the layers. */
  lemma FirstReachingUnique(caps: seq<int>, powers: seq<real>, layers: int, steps: nat, a: real, m: nat, b: real, n: nat)
    requires Fillable(caps, powers)
    requires FirstReaching(caps, powers, layers, steps, a, m) && FirstReaching(caps, powers, layers, steps, b, n)
    ensures a == b
  {
    hide Total, Top, SumPowers, Pow2;
    var unit := Top(caps, powers) / Pow2(steps);
    TopPositive(caps, powers);
    GridOrder(unit, a, m, b, n);
    if m < n {
      TotalSlope(caps, powers, a, b - unit);
    } else if n < m {
      TotalSlope(caps, powers, b, a - unit);
    }
  }

  lemma GridOrder(unit: real, a: real, m: nat, b: real, n: nat)
    requires unit > 0.0 && a == m as real * unit && b == n as real * unit
    ensures m < n ==> a <= b - unit
    ensures n < m ==> b <= a - unit
  {
    assert m < n ==> (n - m - 1) as real * unit >= 0.0;
    assert n < m ==> (m - n - 1) as real * unit >= 0.0;
  }

  /** The numeric part: a rounded water-filled split, which enough bisection steps always find. */
  method SplitLayers(caps: seq<int>, powers: seq<real>, layers: int, steps: nat) returns (split: Split)
    requires Fillable(caps, powers) && 1 <= layers <= Sum(caps)
    ensures split.Counts? ==> SplitAsFilled(caps, powers, layers, steps, split.counts)
    ensures split.NegativeRemaining? <==> FloorsExceed(caps, powers, layers, steps)
    ensures FineEnough(caps, powers, steps) ==> split.Counts?
  {
    hide Sum, Total, Top, Share, FineEnough, LargestPartsUp;
    var level := Bisect(caps, powers, layers, steps);
    ghost var m: nat :| FirstReaching(caps, powers, layers, steps, level, m);
    assert FineEnough(caps, powers, steps) ==> Sum(Floors(caps, Targets(caps, powers, level))) <= layers by {
      if FineEnough(caps, powers, steps) {
        assert FirstReaching(caps, powers, layers, steps, level, m);
        LessThanOneOver(caps, powers, layers, steps, level);
        FloorsFit(caps, powers, layers, level);
      }
    }
    split := Integerize(caps, powers, layers, level);
    if split.Counts? {
      assert WaterFilled(caps, powers, layers, steps, level, split.counts);
      forall other, n: nat | FirstReaching(caps, powers, layers, steps, other, n)
        ensures Sum(Floors(caps, Targets(caps, powers, other))) <= layers
      {
        FirstReachingUnique(caps, powers, layers, steps, level, m, other, n);
      }
    }
  }

  /**
   * No number of bisection steps is enough for all powers: these three workers, largest first, pass
   * the capacity checks and make the adjustment raise over a negative rest.
   */
  lemma {:induction false} UnevenPowersRaise(pipeline: seq<Worker>, steps: nat)
    requires |pipeline| == 3
    requires pipeline[0].capacity == Capacity(11, 10, 10, 9) && pipeline[0].power == 16.0 * Pow2(steps)
    requires pipeline[1].capacity == Capacity(10, 9, 9, 8) && pipeline[1].power == 16.0 * Pow2(steps)
    requires pipeline[2].capacity == Capacity(2, 1, 1, 0) && pipeline[2].power == 1.0
    ensures var nodes := ByCapacity(pipeline);
            var caps, powers := CapsOf(nodes, |nodes|), PowersOf(nodes, |nodes|);
            && nodes == pipeline && AllRoom(nodes) && Sum(caps) >= 10
            && Fillable(caps, powers) && FloorsExceed(caps, powers, 10, steps) && !FineEnough(caps, powers, steps)
  {
    hide Sum, FloorsExceed, FineEnough, ByCapacity;
    DescendingStays(pipeline);
    UnevenSplit(steps);
    SumOfThree([10, 10, 1]);
    assert CapsOf(pipeline, 3) == [10, 10, 1];
    assert PowersOf(pipeline, 3) == [16.0 * Pow2(steps), 16.0 * Pow2(steps), 1.0];
  }

  lemma UnevenSplit(steps: nat)
    ensures var caps, powers := [10, 10, 1], [16.0 * Pow2(steps), 16.0 * Pow2(steps), 1.0];
            Fillable(caps, powers) && FloorsExceed(caps, powers, 10, steps) && !FineEnough(caps, powers, steps)
  {
    Pow2AtLeastOne(steps);
    UnevenTop(Pow2(steps));
    UnevenTotals(Pow2(steps));
    UnevenFloors(Pow2(steps));
    assert FirstReaching([10, 10, 1], [16.0 * Pow2(steps), 16.0 * Pow2(steps), 1.0], 10, steps, 1.0 / Pow2(steps), 1);
  }

  lemma UnevenTop(n: real)
    requires n >= 1.0
    ensures Top([10, 10, 1], [16.0 * n, 16.0 * n, 1.0]) == 1.0
    ensures SumPowers([16.0 * n, 16.0 * n, 1.0]) == 1.0 + 32.0 * n
  {
    var p := 16.0 * n;
    var caps, powers := [10, 10, 1], [p, p, 1.0];
    assert 10.0 / p <= 1.0;
    assert caps[1..] == [10, 1] && powers[1..] == [p, 1.0];
    assert [10, 1][1..] == [1] && [p, 1.0][1..] == [1.0];
    assert Top([1], [1.0]) == 1.0;
    assert Top([10, 1], [p, 1.0]) == 1.0;
    assert SumPowers([1.0]) == 1.0;
    assert SumPowers([p, 1.0]) == p + 1.0;
  }

  lemma UnevenTotals(n: real)
    requires n >= 1.0
    ensures Total([10, 10, 1], [16.0 * n, 16.0 * n, 1.0], 0.0) == 0.0
    ensures Total([10, 10, 1], [16.0 * n, 16.0 * n, 1.0], 1.0 / n) >= 10.0
    ensures 1.0 / n > 0.0 && (1.0 / n) * (16.0 * n) == 16.0
  {
    var p, u := 16.0 * n, 1.0 / n;
    assert u * n == 1.0 && u > 0.0;
    assert u * p == 16.0;
    var caps, powers := [10, 10, 1], [p, p, 1.0];
    assert caps[1..] == [10, 1] && powers[1..] == [p, 1.0];
    assert [10, 1][1..] == [1] && [p, 1.0][1..] == [1.0];
    EmptyAtZero(caps, powers);
    assert Total([1], [1.0], u) == Share(1, 1.0, u) >= 0.0;
    assert Total([10, 1], [p, 1.0], u) >= 10.0;
  }

  lemma UnevenFloors(n: real)
    requires n >= 1.0 && 1.0 / n > 0.0 && (1.0 / n) * (16.0 * n) == 16.0
    ensures Sum(Floors([10, 10, 1], Targets([10, 10, 1], [16.0 * n, 16.0 * n, 1.0], 1.0 / n))) >= 20
  {
    hide Floors, Targets, Sum;
    var p, u := 16.0 * n, 1.0 / n;
    var caps, powers := [10, 10, 1], [p, p, 1.0];
    var floors := Floors(caps, Targets(caps, powers, u));
    assert u * 1.0 == u;
    assert floors[0] == 10 && floors[1] == 10 && floors[2] >= 0;
    SumOfThree(floors);
  }

  lemma SumOfThree(s: seq<int>)
    requires |s| == 3
    ensures Sum(s) == s[0] + s[1] + s[2]
  {
    assert s == [s[0]] + ([s[1]] + [s[2]]);
    SumConcat([s[0]], [s[1]] + [s[2]]);
    SumConcat([s[1]], [s[2]]);
    assert forall x: int :: [x][1..] == [];
    assert forall x: int :: Sum([x]) == x;
  }

  lemma {:induction false} Pow2AtLeastOne(k: nat)
    ensures Pow2(k) >= 1.0
  {
    if k > 0 {
      Pow2AtLeastOne(k - 1);
    }
  }

  lemma SplitCounts(caps: seq<int>, powers: seq<real>, layers: int, steps: nat, counts: seq<int>)
    requires Fillable(caps, powers) && SplitAsFilled(caps, powers, layers, steps, counts)
    ensures |counts| == |caps| && Sum(counts) == layers
    ensures forall i :: 0 <= i < |counts| ==> 0 <= counts[i] <= caps[i]
  {
  }

  /** Applies the counts in stage order; `covered` is the first layer not assigned. */
  method Apply(nodes: seq<Worker>, counts: seq<int>) returns (covered: int)
    requires NoRepeats(nodes) && AllIdle(nodes) && |counts| == |nodes|
    requires forall i :: 0 <= i < |counts| ==> counts[i] >= 0
    modifies nodes
    ensures Assigned(nodes, counts)
    ensures covered == Sum(counts)
  {
    hide Sum;
    covered := 0;
    assert Sum(counts[..0]) == 0 by {
      SumNone(counts);
    }
    for i := 0 to |nodes|
      invariant covered == Sum(counts[..i])
      invariant forall k :: 0 <= k < i ==> nodes[k].range == RangeAt(counts, k) && nodes[k].Consistent()
      invariant forall k :: i <= k < |nodes| ==> nodes[k].range == Unassigned && !nodes[k].active
    {
      SumStep(counts, i);
      if counts[i] > 0 {
        var end := covered + counts[i];
        nodes[i].Allocate(covered, end);
        covered := end;
      }
    }
    assert counts[..|nodes|] == counts;
  }

  /** The whole adjustment: every error has its exact condition, and the coverage check never fails. */
  method AdjustPipelineLayers(pipeline: seq<Worker>, layers: int, steps: nat) returns (outcome: FillOutcome)
    requires NoRepeats(pipeline) && AllConsistent(pipeline)
    requires forall i :: 0 <= i < |pipeline| ==> pipeline[i].power > 0.0
    modifies pipeline
    ensures outcome.NoNodes? <==> pipeline == [] || layers <= 0
    ensures outcome.NoNodes? ==> unchanged(pipeline)
    ensures var nodes := ByCapacity(pipeline);
            !outcome.NoNodes? ==>
              && (outcome.BadCapacity? <==> !AllRoom(nodes))
              && (outcome.TooLittleCapacity? <==> AllRoom(nodes) && Sum(CapsOf(nodes, |nodes|)) < layers)
    ensures var nodes := ByCapacity(pipeline);
            !(outcome.NoNodes? || outcome.BadCapacity? || outcome.TooLittleCapacity?) ==>
              && Fillable(CapsOf(nodes, |nodes|), PowersOf(nodes, |nodes|))
              && (outcome.NegativeRest? <==> FloorsExceed(CapsOf(nodes, |nodes|), PowersOf(nodes, |nodes|), layers, steps))
              && (FineEnough(CapsOf(nodes, |nodes|), PowersOf(nodes, |nodes|), steps) ==> outcome.Filled?)
              && !outcome.NotCovered?
    ensures outcome.Filled? ==>
              var nodes := ByCapacity(pipeline);
              exists counts ::
                && SplitAsFilled(CapsOf(nodes, |nodes|), PowersOf(nodes, |nodes|), layers, steps, counts)
                && Assigned(nodes, counts)
    ensures outcome.BadCapacity? || outcome.TooLittleCapacity? || outcome.NegativeRest? ==> AllIdle(pipeline)
  {
    hide Sum, Total, Top, Share, FineEnough, FloorsExceed, WaterFilled, SplitAsFilled, RangeAt;
    if pipeline == [] || layers <= 0 {
      return NoNodes;
    }
    var nodes := ByCapacity(pipeline);
    ByCapacityOrders(pipeline);
    SameElements(nodes, pipeline);
    ClearAll(nodes);
    var ok, caps, powers := ReadCapacities(nodes);
    if !ok {
      return BadCapacity;
    }
    if Sum(caps) < layers {
      return TooLittleCapacity;
    }
    PowersPositive(nodes, pipeline);
    var split := SplitLayers(caps, powers, layers, steps);
    if split.NegativeRemaining? {
      return NegativeRest;
    }
    SplitCounts(caps, powers, layers, steps, split.counts);
    var covered := Apply(nodes, split.counts);
    if covered != layers {
      return NotCovered;
    }
    outcome := Filled;
  }

  lemma SameElements(a: seq<Worker>, b: seq<Worker>)
    requires Elements(a) == Elements(b)
    ensures forall i :: 0 <= i < |a| ==> a[i] in b
    ensures forall i :: 0 <= i < |b| ==> b[i] in a
  {
    forall i | 0 <= i < |a|
      ensures a[i] in b
    {
      assert a[i] in Elements(a);
    }
    forall i | 0 <= i < |b|
      ensures b[i] in a
    {
      assert b[i] in Elements(b);
    }
  }

  lemma PowersPositive(nodes: seq<Worker>, pipeline: seq<Worker>)
    requires forall i :: 0 <= i < |nodes| ==> nodes[i] in pipeline
    requires forall i :: 0 <= i < |pipeline| ==> pipeline[i].power > 0.0
    ensures forall i :: 0 <= i < |nodes| ==> nodes[i].power > 0.0
  {
  }
}
