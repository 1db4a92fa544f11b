/** The greedy builder and the greedy filler: every pipeline the builder closes, the filler fills. */
module GreedyPipelines {
  import opened Hosts
  import opened SortedLists
  import opened PipelinePlans
  import opened Workers
  import opened PipelineFilling
  import opened Sequences

  /** Every variant can host a layer, and reserving room never adds any. */
  predicate Roomy(c: Capacity) {
    1 <= c.withBoth && c.withBoth <= c.withEmbed <= c.plain && c.withBoth <= c.withHead <= c.plain
  }

  function Base(c: Capacity, head: bool): int {
    if head then c.withEmbed else c.plain
  }

  function TailBase(c: Capacity, head: bool): int {
    if head then c.withBoth else c.withHead
  }

  function Min(a: int, b: int): int {
    if a <= b then a else b
  }

  /** What the builder charges a node when `rest` layers are missing. */
  function Charged(c: Capacity, head: bool, rest: int): int {
    if rest - Base(c, head) <= 0 then TailBase(c, head) else Base(c, head)
  }

  /** The layers the builder still misses after these nodes. */
  function Missing(caps: seq<Capacity>, layers: int): int {
    if caps == [] then layers
    else
      var r := Missing(caps[..|caps| - 1], layers);
      r - Charged(caps[|caps| - 1], |caps| == 1, r)
  }

  /** The builder kept adding nodes until, with the last one, nothing was missing. */
  ghost predicate ClosedBy(caps: seq<Capacity>, layers: int) {
    caps != [] && Missing(caps, layers) <= 0 && forall k :: 0 <= k < |caps| ==> Missing(caps[..k], layers) > 0
  }

  /** What the nodes are charged: plain capacity less the embedding at the head, and less the LM head at a node that would close. */
  ghost predicate Rooms(caps: seq<Capacity>, layers: int, rooms: seq<int>) {
    && |rooms| == |caps|
    && forall k :: 0 <= k < |caps| ==>
         var left := layers - Sum(rooms[..k]);
         rooms[k] == if k == 0 then (if caps[k].withEmbed < left then caps[k].withEmbed else caps[k].withBoth)
                     else if caps[k].plain < left then caps[k].plain else caps[k].withHead
  }

  lemma {:induction false} MissingByRooms(caps: seq<Capacity>, layers: int, rooms: seq<int>, k: nat)
    requires Rooms(caps, layers, rooms) && k <= |caps|
    ensures k <= |rooms| && Missing(caps[..k], layers) == layers - Sum(rooms[..k])
    decreases k
  {
    hide Sum;
    SumNone(rooms);
    if k > 0 {
      MissingByRooms(caps, layers, rooms, k - 1);
      SumStep(rooms, k - 1);
      assert caps[..k][..k - 1] == caps[..k - 1];
    }
  }

  /** Rooms that add up to all layers, and without the last one do not. */
  ghost predicate JustEnough(layers: int, rooms: seq<int>) {
    rooms != [] && Sum(rooms) >= layers && forall k :: 0 <= k < |rooms| ==> Sum(rooms[..k]) < layers
  }

  lemma ClosedWithRooms(caps: seq<Capacity>, layers: int, rooms: seq<int>)
    requires Rooms(caps, layers, rooms)
    ensures ClosedBy(caps, layers) <==> JustEnough(layers, rooms)
  {
    hide Sum, Missing;
    assert |rooms| == |caps|;
    hide Rooms;
    assert caps[..|caps|] == caps && rooms[..|caps|] == rooms;
    forall k | 0 <= k <= |caps|
      ensures Missing(caps[..k], layers) == layers - Sum(rooms[..k])
    {
      MissingByRooms(caps, layers, rooms, k);
    }
  }

  /** The builder closes a pipeline when the rooms of its nodes add up to all layers, and without the last one they do not. */
  lemma ClosedByRooms(caps: seq<Capacity>, layers: int)
    ensures ClosedBy(caps, layers) <==> exists rooms :: Rooms(caps, layers, rooms) && JustEnough(layers, rooms)
  {
    hide ClosedBy, Rooms, JustEnough;
    var rooms := RoomsOf(caps, layers);
    ClosedWithRooms(caps, layers, rooms);
    forall other | Rooms(caps, layers, other)
      ensures ClosedBy(caps, layers) <==> JustEnough(layers, other)
    {
      ClosedWithRooms(caps, layers, other);
    }
  }

  /** The rooms of a line of nodes. */
  lemma {:induction false} RoomsOf(caps: seq<Capacity>, layers: int) returns (rooms: seq<int>)
    ensures Rooms(caps, layers, rooms)
    decreases |caps|
  {
    hide Sum;
    rooms := [];
    if caps != [] {
      var init, c := caps[..|caps| - 1], caps[|caps| - 1];
      var before := RoomsOf(init, layers);
      var left := layers - Sum(before);
      var room := if init == [] then (if c.withEmbed < left then c.withEmbed else c.withBoth) else if c.plain < left then c.plain else c.withHead;
      rooms := before + [room];
      assert rooms[..|init|] == before;
      assert forall k :: 0 <= k < |init| ==> rooms[..k] == before[..k];
    }
  }

  /** What the filler gives a node when `rest` layers are left; nothing below one. */
  function Taken(c: Capacity, head: bool, rest: int): int {
    var a := if Base(c, head) >= rest then Min(TailBase(c, head), rest) else Min(Base(c, head), rest);
    if a <= 0 then 0 else a
  }

  /** The layers the filler has left after these nodes; it stops at none. */
  function Rest(caps: seq<Capacity>, layers: int): int {
    if caps == [] then layers
    else
      var r := Rest(caps[..|caps| - 1], layers);
      if r == 0 then 0 else r - Taken(caps[|caps| - 1], r == layers, r)
  }

  function Given(caps: seq<Capacity>, layers: int): (counts: seq<int>)
    ensures |counts| == |caps|
    ensures forall i :: 0 <= i < |caps| ==> counts[i] == Rest(caps[..i], layers) - Rest(caps[..i + 1], layers) >= 0
  {
    RestFalls(caps, layers);
    seq(|caps|, i requires 0 <= i < |caps| => Rest(caps[..i], layers) - Rest(caps[..i + 1], layers))
  }

  lemma {:induction false} RestFalls(caps: seq<Capacity>, layers: int)
    ensures forall i :: 0 <= i < |caps| ==> Rest(caps[..i + 1], layers) <= Rest(caps[..i], layers)
  {
    forall i | 0 <= i < |caps|
      ensures Rest(caps[..i + 1], layers) <= Rest(caps[..i], layers)
    {
      assert caps[..i + 1][..i] == caps[..i];
    }
  }

  lemma {:induction false} GivenSum(caps: seq<Capacity>, layers: int, n: nat)
    requires n <= |caps|
    ensures Sum(Given(caps, layers)[..n]) == layers - Rest(caps[..n], layers)
    decreases n
  {
    hide Sum, Rest, Given;
    var counts := Given(caps, layers);
    if n == 0 {
      SumNone(counts);
      RestNone(caps, layers);
    } else {
      GivenSum(caps, layers, n - 1);
      SumStep(counts, n - 1);
    }
  }

  function Caps(ws: seq<Worker>): (r: seq<Capacity>)
    ensures |r| == |ws| && forall i :: 0 <= i < |r| ==> r[i] == ws[i].capacity
  {
    seq(|ws|, i requires 0 <= i < |ws| => ws[i].capacity)
  }

  lemma RestNone(caps: seq<Capacity>, layers: int)
    ensures Rest(caps[..0], layers) == layers
  {
  }

  /** What the filler gives node `i`, and where that puts its range. */
  lemma {:induction false} GivenStep(caps: seq<Capacity>, layers: int, i: nat)
    requires i < |caps|
    ensures var r := Rest(caps[..i], layers);
            var a := if r == 0 then 0 else Taken(caps[i], r == layers, r);
            && Rest(caps[..i + 1], layers) == r - a
            && RangeAt(Given(caps, layers), i) == if a <= 0 then Unassigned else Layers(layers - r, layers - r + a)
  {
    hide Sum;
    assert caps[..i + 1][..i] == caps[..i];
    GivenSum(caps, layers, i);
    GivenSum(caps, layers, i + 1);
  }

  /** Assigns layers to the nodes in order, as many as each can host, until all are covered. */
  method AdjustPipelineLayersGreedy(pipeline: seq<Worker>, layers: int) returns (outcome: FillOutcome)
    requires NoRepeats(pipeline) && AllConsistent(pipeline)
    modifies pipeline
    ensures outcome.NoNodes? <==> pipeline == [] || layers <= 0
    ensures outcome.NoNodes? ==> unchanged(pipeline)
    ensures !outcome.NoNodes? ==> Assigned(pipeline, Given(Caps(pipeline), layers))
    ensures !outcome.NoNodes? ==> outcome == if Rest(Caps(pipeline), layers) == 0 then Filled else NotCovered
  {
    hide Sum, Rest, Given, RangeAt;
    if pipeline == [] || layers <= 0 {
      return NoNodes;
    }
    ClearAll(pipeline);
    ghost var caps, counts := Caps(pipeline), Given(Caps(pipeline), layers);
    var start, remaining := 0, layers;
    RestNone(caps, layers);
    for i := 0 to |pipeline|
      invariant remaining == Rest(caps[..i], layers) && start == layers - remaining && 0 <= remaining
      invariant forall k :: 0 <= k < i ==> pipeline[k].range == RangeAt(counts, k) && pipeline[k].Consistent()
      invariant forall k :: i <= k < |pipeline| ==> pipeline[k].range == Unassigned && !pipeline[k].active
    {
      GivenStep(caps, layers, i);
      if remaining != 0 {
        var c, head := pipeline[i].capacity, start == 0;
        var base := Base(c, head);
        var assign := if base >= remaining then Min(TailBase(c, head), remaining) else Min(base, remaining);
        if assign > 0 {
          pipeline[i].Allocate(start, start + assign);
          start, remaining := start + assign, remaining - assign;
        }
      }
    }
    assert caps[..|caps|] == caps;
    outcome := if remaining == 0 then Filled else NotCovered;
  }

  /** The most a node may host at its position: room for the embedding first, for the LM head last. */
  function Limit(caps: seq<Capacity>, i: nat): int
    requires i < |caps|
  {
    if |caps| == 1 then caps[i].withBoth
    else if i == 0 then caps[i].withEmbed
    else if i == |caps| - 1 then caps[i].withHead
    else caps[i].plain
  }

  /** The filler has left what the builder still misses, and nothing once the pipeline closed. */
  lemma {:induction false} FillerFollows(caps: seq<Capacity>, layers: int, k: nat)
    requires layers > 0 && k <= |caps| && forall i :: 0 <= i < |caps| ==> Roomy(caps[i])
    requires forall j :: 0 <= j < k ==> Missing(caps[..j], layers) > 0
    ensures var m := Missing(caps[..k], layers);
            Rest(caps[..k], layers) == (if m <= 0 then 0 else m) && (k > 0 ==> m < layers)
    decreases k
  {
    if k > 0 {
      FillerFollows(caps, layers, k - 1);
      assert caps[..k][..k - 1] == caps[..k - 1];
    } else {
      assert caps[..0] == [];
    }
  }

  /** A pipeline the builder closes is filled: every node gets layers, all of them in all, within its capacity there. */
  lemma {:induction false} ClosedIsFilled(caps: seq<Capacity>, layers: int)
    requires layers > 0 && ClosedBy(caps, layers) && forall i :: 0 <= i < |caps| ==> Roomy(caps[i])
    ensures Rest(caps, layers) == 0 && Sum(Given(caps, layers)) == layers
    ensures forall i :: 0 <= i < |caps| ==> 1 <= Given(caps, layers)[i] <= Limit(caps, i)
  {
    hide Sum, Rest, Given, Limit;
    assert caps[..|caps|] == caps;
    FillerFollows(caps, layers, |caps|);
    GivenSum(caps, layers, |caps|);
    assert Given(caps, layers)[..|caps|] == Given(caps, layers);
    forall i | 0 <= i < |caps|
      ensures 1 <= Given(caps, layers)[i] <= Limit(caps, i)
    {
      GivenWithin(caps, layers, i);
    }
  }

  lemma {:induction false} GivenWithin(caps: seq<Capacity>, layers: int, i: nat)
    requires layers > 0 && ClosedBy(caps, layers) && i < |caps| && forall j :: 0 <= j < |caps| ==> Roomy(caps[j])
    ensures 1 <= Given(caps, layers)[i] <= Limit(caps, i)
  {
    hide Sum, Rest, RangeAt, Given;
    FillerFollows(caps, layers, i);
    GivenStep(caps, layers, i);
    MissingStep(caps, layers, i);
    if i == |caps| - 1 {
      assert caps[..i + 1] == caps;
    }
  }

  lemma {:induction false} MissingStep(caps: seq<Capacity>, layers: int, i: nat)
    requires i < |caps|
    ensures Missing(caps[..i + 1], layers) == Missing(caps[..i], layers) - Charged(caps[i], i == 0, Missing(caps[..i], layers))
    ensures i == 0 ==> Missing(caps[..i], layers) == layers
  {
    assert caps[..i + 1][..i] == caps[..i];
  }

  /** The workers of a pipeline hold consecutive ranges over all layers, each within its capacity there. */
  ghost predicate Serves(p: seq<Worker>, layers: int)
    reads p
  {
    && p != [] && layers > 0
    && (forall i :: 0 <= i < |p| ==> p[i].active && p[i].range.Layers? && 1 <= p[i].range.end - p[i].range.start <= Limit(Caps(p), i))
    && p[0].range.start == 0 && p[|p| - 1].range.end == layers
    && (forall i :: 0 < i < |p| ==> p[i - 1].range.end == p[i].range.start)
  }

  lemma {:induction false} FilledServes(p: seq<Worker>, layers: int)
    requires layers > 0 && ClosedBy(Caps(p), layers) && forall i :: 0 <= i < |p| ==> Roomy(p[i].capacity)
    requires Assigned(p, Given(Caps(p), layers))
    ensures Serves(p, layers)
  {
    hide Sum, Rest, Given, Limit, RangeAt;
    var caps, counts := Caps(p), Given(Caps(p), layers);
    ClosedIsFilled(caps, layers);
    forall i | 0 <= i < |p|
      ensures p[i].active && p[i].range == Layers(Sum(counts[..i]), Sum(counts[..i + 1]))
      ensures p[i].range.end - p[i].range.start == counts[i]
    {
      RangeOf(counts, i);
      SumStep(counts, i);
    }
    SumNone(counts);
    assert counts[..|p|] == counts;
    assert p[0].range == Layers(Sum(counts[..0]), Sum(counts[..0 + 1]));
    var last := |p| - 1;
    assert p[last].range.end == Sum(counts[..last + 1]) && counts[..last + 1] == counts;
    forall i | 0 < i < |p|
      ensures p[i - 1].range.end == p[i].range.start
    {
      var h := i - 1;
      assert p[h].range == Layers(Sum(counts[..h]), Sum(counts[..h + 1])) && counts[..h + 1] == counts[..i];
      assert p[i].range == Layers(Sum(counts[..i]), Sum(counts[..i + 1]));
    }
  }

  lemma RangeOf(counts: seq<int>, i: nat)
    requires i < |counts| && counts[i] > 0
    ensures RangeAt(counts, i) == Layers(Sum(counts[..i]), Sum(counts[..i + 1]))
  {
  }

  function PlainSum(ws: seq<Worker>): int {
    if ws == [] then 0 else PlainSum(ws[..|ws| - 1]) + ws[|ws| - 1].capacity.plain
  }

  /** The last node that could close the pipeline alone and leave enough for another one. */
  method BestFit(available: seq<Worker>, missing: int, capacity: int, layers: int) returns (best: int)
    ensures -1 <= best < |available|
    ensures forall i :: best < i < |available| ==> !ClosesAlone(available[i], missing, capacity, layers)
    ensures best >= 0 ==> ClosesAlone(available[best], missing, capacity, layers)
  {
    best := -1;
    for i := 0 to |available|
      invariant -1 <= best < i
      invariant forall k :: best < k < i ==> !ClosesAlone(available[k], missing, capacity, layers)
      invariant best >= 0 ==> ClosesAlone(available[best], missing, capacity, layers)
    {
      if ClosesAlone(available[i], missing, capacity, layers) {
        best := i;
      }
    }
  }

  predicate ClosesAlone(w: Worker, missing: int, capacity: int, layers: int) {
    w.capacity.withHead >= missing && capacity - w.capacity.withHead >= layers
  }

  /** The same workers, split in two without repetition. */
  ghost predicate Split(whole: seq<Worker>, a: seq<Worker>, b: seq<Worker>) {
    NoRepeats(a + b) && Elements(whole) == Elements(a) + Elements(b)
  }

  lemma SplitMove(whole: seq<Worker>, a: seq<Worker>, b: seq<Worker>, i: nat)
    requires Split(whole, a, b) && i < |b|
    ensures Split(whole, a + [b[i]], b[..i] + b[i + 1..])
  {
    var c, d := a + [b[i]], b[..i] + b[i + 1..];
    forall x, y | 0 <= x < y < |c + d|
      ensures (c + d)[x] != (c + d)[y]
    {
      var at := k => if k < |a| then k else if k == |a| then |a| + i else if k - |a| - 1 < i then k - 1 else k;
      assert (c + d)[x] == (a + b)[at(x)] && (c + d)[y] == (a + b)[at(y)];
    }
    assert b == b[..i] + [b[i]] + b[i + 1..];
  }

  /** The last of the first `n` workers that fits, or -1. */
  function LastFit(ws: seq<Worker>, n: nat, missing: int, capacity: int, layers: int): (r: int)
    requires n <= |ws|
    ensures -1 <= r < n
  {
    if n == 0 then -1
    else if ClosesAlone(ws[n - 1], missing, capacity, layers) then n - 1
    else LastFit(ws, n - 1, missing, capacity, layers)
  }

  lemma {:induction false} LastFitIs(ws: seq<Worker>, n: nat, missing: int, capacity: int, layers: int, best: int)
    requires n <= |ws| && -1 <= best < n && (best >= 0 ==> ClosesAlone(ws[best], missing, capacity, layers))
    requires forall i :: best < i < n ==> !ClosesAlone(ws[i], missing, capacity, layers)
    ensures LastFit(ws, n, missing, capacity, layers) == best
  {
    if best < n - 1 {
      LastFitIs(ws, n - 1, missing, capacity, layers, best);
    }
  }

  /** Where the builder begins: with the best fit when looking ahead pays, else with the first. */
  function HeadIndex(ws: seq<Worker>, layers: int, lookAhead: bool): (at: nat)
    requires ws != []
    ensures at < |ws|
  {
    var capacity := PlainSum(ws);
    var best := LastFit(ws, |ws|, layers, capacity, layers);
    if lookAhead && capacity - layers >= layers + 1 && best >= 0 then best else 0
  }

  /** The order in which the builder takes workers: its head, then the others as they come. */
  function Line(ws: seq<Worker>, layers: int, lookAhead: bool): (r: seq<Worker>)
    ensures |r| == |ws|
  {
    if ws == [] then []
    else
      var at := HeadIndex(ws, layers, lookAhead);
      [ws[at]] + (ws[..at] + ws[at + 1..])
  }

  /**
   * Looking ahead, the line begins with the last worker that has room for all layers beside the LM head
   * and leaves enough for another pipeline, if the total exceeds two pipelines; otherwise with the first.
   */
  lemma HeadOfLine(ws: seq<Worker>, layers: int, lookAhead: bool, plains: seq<int>) returns (at: nat)
    requires ws != [] && |plains| == |ws| && forall i :: 0 <= i < |ws| ==> plains[i] == ws[i].capacity.plain
    ensures at < |ws| && Line(ws, layers, lookAhead) == [ws[at]] + ws[..at] + ws[at + 1..]
    ensures var spare := Sum(plains) - layers;
            if lookAhead && spare > layers && exists i :: 0 <= i < |ws| && layers <= ws[i].capacity.withHead <= spare
            then layers <= ws[at].capacity.withHead <= spare && forall i :: at < i < |ws| ==> !(layers <= ws[i].capacity.withHead <= spare)
            else at == 0
  {
    hide Sum;
    PlainSumIs(ws, plains);
    at := HeadIndex(ws, layers, lookAhead);
    var best := LastFit(ws, |ws|, layers, Sum(plains), layers);
    LastFitFits(ws, |ws|, layers, Sum(plains), layers);
  }

  lemma {:induction false} LastFitFits(ws: seq<Worker>, n: nat, missing: int, capacity: int, layers: int)
    requires n <= |ws|
    ensures var r := LastFit(ws, n, missing, capacity, layers);
            && (r >= 0 ==> ClosesAlone(ws[r], missing, capacity, layers))
            && forall i :: r < i < n ==> !ClosesAlone(ws[i], missing, capacity, layers)
  {
    if n > 0 && !ClosesAlone(ws[n - 1], missing, capacity, layers) {
      LastFitFits(ws, n - 1, missing, capacity, layers);
    }
  }

  lemma {:induction false} PlainSumIs(ws: seq<Worker>, plains: seq<int>)
    requires |plains| == |ws| && forall i :: 0 <= i < |ws| ==> plains[i] == ws[i].capacity.plain
    ensures PlainSum(ws) == Sum(plains)
    decreases |ws|
  {
    if ws != [] {
      PlainSumIs(ws[..|ws| - 1], plains[..|ws| - 1]);
      SumStep(plains, |ws| - 1);
      assert plains[..|ws| - 1 + 1] == plains;
    }
  }

  /** Takes workers in line until no layer is missing or none are left. */
  method BuildPipeline(available0: seq<Worker>, layers: int, lookAhead: bool) returns (pipeline: seq<Worker>, available: seq<Worker>, closed: bool)
    requires NoRepeats(available0)
    ensures Split(available0, pipeline, available) && |pipeline| + |available| == |available0|
    ensures layers > 0 && available0 != [] ==> pipeline != []
    ensures layers > 0 ==> pipeline + available == Line(available0, layers, lookAhead)
    ensures closed <==> layers > 0 && ClosedBy(Caps(pipeline), layers)
    ensures !closed && layers > 0 ==> available == [] && forall k :: 0 <= k <= |pipeline| ==> Missing(Caps(pipeline)[..k], layers) > 0
  {
    hide Split, Missing, PlainSum, Caps, ClosesAlone, Line, HeadIndex;
    pipeline, available := [], available0;
    SplitNone(available0);
    var missing, capacity := layers, PlainSum(available0);
    MissingNone(layers);
    while missing > 0 && available != []
      invariant Split(available0, pipeline, available) && |pipeline| + |available| == |available0|
      invariant missing == Missing(Caps(pipeline), layers)
      invariant forall k :: 0 <= k < |pipeline| ==> Missing(Caps(pipeline)[..k], layers) > 0
      invariant pipeline == [] ==> available == available0 && missing == layers && capacity == PlainSum(available0)
      invariant pipeline != [] ==> layers > 0 && pipeline + available == Line(available0, layers, lookAhead)
      decreases |available|
    {
      var head := pipeline == [];
      var at := NextIndex(available, missing, capacity, layers, lookAhead && head);
      var w := available[at];
      SplitMove(available0, pipeline, available, at);
      CapsMore(pipeline, w);
      Extend(Caps(pipeline), w.capacity, layers);
      LineMoves(available0, layers, lookAhead, pipeline, available, at);
      pipeline, available := pipeline + [w], available[..at] + available[at + 1..];
      var charge := Base(w.capacity, head);
      missing := missing - charge;
      if missing <= 0 {
        missing := missing + charge;
        charge := TailBase(w.capacity, head);
        missing := missing - charge;
      }
      capacity := capacity - charge;
    }
    closed := missing <= 0 && pipeline != [];
    AllOf(Caps(pipeline));
    LineNone(layers, lookAhead);
  }

  lemma AllOf(caps: seq<Capacity>)
    ensures caps[..|caps|] == caps
  {
  }

  lemma LineNone(layers: int, lookAhead: bool)
    ensures [] + [] == Line([], layers, lookAhead)
  {
  }

  /** Taking the head, and then always the first, goes down the line. */
  lemma LineMoves(ws: seq<Worker>, layers: int, lookAhead: bool, p: seq<Worker>, a: seq<Worker>, at: nat)
    requires at < |a| && (if p == [] then a == ws && at == HeadIndex(ws, layers, lookAhead) else at == 0 && p + a == Line(ws, layers, lookAhead))
    ensures (p + [a[at]]) + (a[..at] + a[at + 1..]) == Line(ws, layers, lookAhead)
  {
    hide HeadIndex;
    if p != [] {
      assert a == [a[0]] + a[1..];
    }
  }

  /** The node to take next: the best fit when looking ahead pays, else the first. */
  method NextIndex(available: seq<Worker>, missing: int, capacity: int, layers: int, lookAhead: bool) returns (at: nat)
    requires available != []
    ensures at < |available| && (!lookAhead ==> at == 0)
    ensures missing == layers && capacity == PlainSum(available) ==> at == HeadIndex(available, layers, lookAhead)
  {
    hide ClosesAlone, PlainSum;
    at := 0;
    if lookAhead && capacity - missing >= layers + 1 {
      var best := BestFit(available, missing, capacity, layers);
      LastFitIs(available, |available|, missing, capacity, layers, best);
      if best != -1 {
        at := best;
      }
    }
  }

  lemma CapsMore(p: seq<Worker>, w: Worker)
    ensures Caps(p + [w]) == Caps(p) + [w.capacity]
  {
  }

  lemma MissingNone(layers: int)
    ensures Missing(Caps([]), layers) == layers
  {
  }

  lemma SplitNone(ws: seq<Worker>)
    requires NoRepeats(ws)
    ensures Split(ws, [], ws)
  {
    assert [] + ws == ws;
  }

  lemma {:induction false} Extend(caps: seq<Capacity>, c: Capacity, layers: int)
    ensures Missing(caps + [c], layers) == Missing(caps, layers) - Charged(c, caps == [], Missing(caps, layers))
    ensures (forall k :: 0 <= k < |caps| ==> Missing(caps[..k], layers) > 0) && Missing(caps, layers) > 0 ==>
              forall k :: 0 <= k < |caps + [c]| ==> Missing((caps + [c])[..k], layers) > 0
  {
    assert (caps + [c])[..|caps|] == caps;
    forall k | 0 <= k < |caps|
      ensures (caps + [c])[..k] == caps[..k]
    {
    }
  }

  ghost function Members(ps: seq<seq<Worker>>): set<Worker> {
    set k, w | 0 <= k < |ps| && w in ps[k] :: w
  }

  ghost predicate Apart(ps: seq<seq<Worker>>) {
    forall a, b :: 0 <= a < b < |ps| ==> Elements(ps[a]) !! Elements(ps[b])
  }

  ghost predicate AllServe(ps: seq<seq<Worker>>, layers: int)
    reads Members(ps)
  {
    forall k :: 0 <= k < |ps| ==> (forall w :: w in ps[k] ==> w in Members(ps)) && Serves(ps[k], layers)
  }

  lemma MembersMore(ps: seq<seq<Worker>>, p: seq<Worker>)
    ensures Members(ps + [p]) == Members(ps) + Elements(p)
    ensures Apart(ps) && Elements(p) !! Members(ps) ==> Apart(ps + [p])
  {
    var more := ps + [p];
    forall w
      ensures w in Members(more) <==> w in Members(ps) + Elements(p)
    {
      if w in Members(ps) {
        var k :| 0 <= k < |ps| && w in ps[k];
        assert w in more[k];
      }
      if w in Elements(p) {
        assert w in more[|ps|];
      }
    }
    forall a | 0 <= a < |ps|
      ensures Elements(ps[a]) <= Members(ps)
    {
    }
  }

  lemma ServesMore(ps: seq<seq<Worker>>, p: seq<Worker>, layers: int)
    requires AllServe(ps, layers) && Serves(p, layers)
    ensures AllServe(ps + [p], layers)
  {
    hide Serves;
    MembersMore(ps, p);
  }

  /** Builds a pipeline and fills it; a pipeline that does not close is not filled. */
  method BuildAndFill(available: seq<Worker>, layers: int, lookAhead: bool) returns (pipeline: seq<Worker>, rest: seq<Worker>, closed: bool, failed: bool)
    requires available != [] && NoRepeats(available) && AllIdle(available)
    requires forall i :: 0 <= i < |available| ==> Roomy(available[i].capacity)
    modifies available
    ensures !failed && (closed ==> Serves(pipeline, layers) && |rest| < |available|)
    ensures NoRepeats(rest) && Elements(rest) + Elements(pipeline) == Elements(available) && Elements(rest) !! Elements(pipeline)
    ensures closed ==> AllIdle(rest)
    ensures !closed ==> AllIdle(available)
    ensures closed ==> ClosedBy(Caps(pipeline), layers) && pipeline + rest == Line(available, layers, lookAhead)
    ensures !closed ==> NoneCloses(available, layers, lookAhead)
  {
    hide Serves, Missing, Rest, Given, Line;
    failed := false;
    pipeline, rest, closed := BuildPipeline(available, layers, lookAhead);
    SplitParts(available, pipeline, rest);
    if closed {
      var outcome := AdjustPipelineLayersGreedy(pipeline, layers);
      ClosedIsFilled(Caps(pipeline), layers);
      failed := !outcome.Filled?;
      FilledServes(pipeline, layers);
      forall i | 0 <= i < |rest|
        ensures rest[i].range == Unassigned && !rest[i].active
      {
        assert rest[i] in Elements(rest) && rest[i] in available;
      }
    } else if layers > 0 {
      assert pipeline + rest == pipeline;
      NeverCloses(available, layers, lookAhead, pipeline);
    } else {
      NothingToClose(available, layers, lookAhead);
    }
  }

  lemma NothingToClose(ws: seq<Worker>, layers: int, lookAhead: bool)
    requires layers <= 0
    ensures NoneCloses(ws, layers, lookAhead)
  {
    hide Line;
    forall n | 0 <= n <= |ws|
      ensures !ClosedBy(Caps(Line(ws, layers, lookAhead)[..n]), layers)
    {
      MissingStart(Caps(Line(ws, layers, lookAhead)[..n]), layers);
    }
  }

  lemma MissingStart(caps: seq<Capacity>, layers: int)
    ensures Missing(caps[..0], layers) == layers
  {
  }

  /** No stretch of the line, however long, closes a pipeline. */
  ghost predicate NoneCloses(ws: seq<Worker>, layers: int, lookAhead: bool) {
    forall n :: 0 <= n <= |ws| ==> !ClosedBy(Caps(Line(ws, layers, lookAhead)[..n]), layers)
  }

  lemma NeverCloses(ws: seq<Worker>, layers: int, lookAhead: bool, line: seq<Worker>)
    requires line == Line(ws, layers, lookAhead) && forall k :: 0 <= k <= |line| ==> Missing(Caps(line)[..k], layers) > 0
    ensures NoneCloses(ws, layers, lookAhead)
  {
    hide Missing, Line;
    forall n | 0 <= n <= |ws|
      ensures !ClosedBy(Caps(line[..n]), layers)
    {
      assert Caps(line[..n]) == Caps(line)[..n];
    }
  }

  /** One turn: the head of the line closes a pipeline, and the rest of the line stays available. */
  ghost predicate Takes(ws: seq<Worker>, layers: int, lookAhead: bool, pipeline: seq<Worker>, rest: seq<Worker>) {
    ClosedBy(Caps(pipeline), layers) && pipeline + rest == Line(ws, layers, lookAhead)
  }

  /** The pipelines are built turn by turn from what the turns before left. */
  ghost predicate Built(left: seq<seq<Worker>>, layers: int, lookAhead: bool, pipelines: seq<seq<Worker>>) {
    && |left| == |pipelines| + 1
    && forall k :: 0 <= k < |pipelines| ==> Takes(left[k], layers, lookAhead, pipelines[k], left[k + 1])
  }

  lemma {:induction false} PlainSumMember(ws: seq<Worker>, i: nat)
    requires i < |ws|
    ensures PlainSum(ws) == PlainSum(ws[..i] + ws[i + 1..]) + ws[i].capacity.plain
    decreases |ws|
  {
    var rest, last := ws[..i] + ws[i + 1..], |ws| - 1;
    if i == last {
      assert rest == ws[..last];
    } else {
      PlainSumMember(ws[..last], i);
      assert rest[..|rest| - 1] == ws[..last][..i] + ws[..last][i + 1..] && rest[|rest| - 1] == ws[last];
    }
  }

  /** The line has the capacity of the workers it is made of. */
  lemma LineSum(ws: seq<Worker>, layers: int, lookAhead: bool)
    ensures PlainSum(Line(ws, layers, lookAhead)) == PlainSum(ws)
  {
    hide PlainSum, HeadIndex;
    if ws != [] {
      var at := HeadIndex(ws, layers, lookAhead);
      PlainSumMember(ws, at);
      PlainSumMember(Line(ws, layers, lookAhead), 0);
      assert Line(ws, layers, lookAhead)[..0] + Line(ws, layers, lookAhead)[1..] == ws[..at] + ws[at + 1..];
    }
  }

  /** What the builder charges is never more than the plain capacity, and adding workers only adds capacity. */
  lemma {:induction false} MissingAtLeast(line: seq<Worker>, layers: int, n: nat)
    requires n <= |line| && forall i :: 0 <= i < |line| ==> Roomy(line[i].capacity)
    ensures Missing(Caps(line[..n]), layers) >= layers - PlainSum(line[..n])
    ensures PlainSum(line[..n]) <= PlainSum(line)
    decreases |line|
  {
    if line == [] {
      assert line[..n] == [];
    } else {
      var init := line[..|line| - 1];
      assert Caps(line)[..|init|] == Caps(init);
      if n < |line| {
        MissingAtLeast(init, layers, n);
        assert line[..n] == init[..n];
      } else {
        MissingAtLeast(init, layers, |init|);
        assert line[..n] == line && init[..|init|] == init;
      }
    }
  }

  /** Workers whose plain capacity falls short of all layers close no pipeline: breaking off early misses nothing. */
  lemma TooSmall(ws: seq<Worker>, layers: int, lookAhead: bool)
    requires PlainSum(ws) < layers && forall i :: 0 <= i < |ws| ==> Roomy(ws[i].capacity)
    ensures NoneCloses(ws, layers, lookAhead)
  {
    hide PlainSum, Missing, Roomy, Caps;
    var line := Line(ws, layers, lookAhead);
    LineRoomy(ws, layers, lookAhead);
    LineSum(ws, layers, lookAhead);
    hide Line;
    forall n | 0 <= n <= |ws|
      ensures !ClosedBy(Caps(line[..n]), layers)
    {
      MissingAtLeast(line, layers, n);
    }
  }

  lemma LineRoomy(ws: seq<Worker>, layers: int, lookAhead: bool)
    requires forall i :: 0 <= i < |ws| ==> Roomy(ws[i].capacity)
    ensures forall i :: 0 <= i < |Line(ws, layers, lookAhead)| ==> Roomy(Line(ws, layers, lookAhead)[i].capacity)
  {
    hide HeadIndex, Roomy;
  }

  lemma SplitParts(whole: seq<Worker>, a: seq<Worker>, b: seq<Worker>)
    requires Split(whole, a, b)
    ensures NoRepeats(a) && NoRepeats(b) && Elements(a) !! Elements(b) && Elements(whole) == Elements(a) + Elements(b)
    ensures forall i :: 0 <= i < |a| ==> a[i] in whole
    ensures forall i :: 0 <= i < |b| ==> b[i] in whole
  {
    assert forall i :: 0 <= i < |a| ==> a[i] == (a + b)[i] && a[i] in Elements(a);
    assert forall i :: 0 <= i < |b| ==> b[i] == (a + b)[|a| + i] && b[i] in Elements(b);
    forall w | w in Elements(a)
      ensures w !in Elements(b)
    {
      var i :| 0 <= i < |a| && a[i] == w;
      assert (a + b)[i] == w;
    }
    assert forall w :: w in Elements(whole) ==> w in whole;
  }

  /**
   * Builds pipelines one after the other and fills each, until no more can be built. The filling
   * never fails, the pipelines share no worker, and every other worker stays as it was.
   */
  method AllocateFromStandby(standby: seq<Worker>, layers: int, lookAhead: bool)
    returns (pipelines: seq<seq<Worker>>, failed: bool, ghost left: seq<seq<Worker>>)
    requires NoRepeats(standby) && AllIdle(standby) && forall i :: 0 <= i < |standby| ==> Roomy(standby[i].capacity)
    modifies standby
    ensures !failed && Apart(pipelines) && Members(pipelines) <= Elements(standby) && AllServe(pipelines, layers)
    ensures forall w :: w in Elements(standby) - Members(pipelines) ==> w.range == Unassigned && !w.active
    ensures Built(left, layers, lookAhead, pipelines) && left[0] == standby && NoneCloses(left[|pipelines|], layers, lookAhead)
    ensures Elements(left[|pipelines|]) == Elements(standby) - Members(pipelines)
  {
    hide Serves, Members, Apart, AllServe, PlainSum, Roomy, Takes, NoneCloses, Line, Missing, Caps;
    pipelines, failed := [], false;
    NoPipelines(layers);
    var available := standby;
    left := [standby];
    while available != []
      invariant !failed && NoRepeats(available) && Elements(available) == Elements(standby) - Members(pipelines)
      invariant Apart(pipelines) && Members(pipelines) <= Elements(standby) && AllServe(pipelines, layers)
      invariant AllIdle(available)
      invariant forall i :: 0 <= i < |available| ==> available[i] in standby
      invariant Built(left, layers, lookAhead, pipelines) && left[0] == standby && left[|pipelines|] == available
      decreases |available|
    {
      AllRoomy(standby, available);
      if PlainSum(available) < layers {
        TooSmall(available, layers, lookAhead);
        break;
      }
      var pipeline, rest, closed;
      ghost var before := pipelines;
      pipeline, rest, closed, failed := BuildAndFill(available, layers, lookAhead);
      if !closed {
        break;
      }
      if failed {
        return;
      }
      assert AllServe(before, layers);
      ServesMore(pipelines, pipeline, layers);
      MembersMore(pipelines, pipeline);
      SameWorkers(available, rest);
      OneTurn(left, layers, lookAhead, pipelines, pipeline, rest);
      pipelines, available, left := pipelines + [pipeline], rest, left + [rest];
    }
    IdleElements(available);
    NoWorkers(layers, lookAhead);
  }

  lemma NoWorkers(layers: int, lookAhead: bool)
    ensures NoneCloses([], layers, lookAhead)
  {
  }

  lemma OneTurn(left: seq<seq<Worker>>, layers: int, lookAhead: bool, ps: seq<seq<Worker>>, p: seq<Worker>, rest: seq<Worker>)
    requires Built(left, layers, lookAhead, ps)
    requires ClosedBy(Caps(p), layers) && p + rest == Line(left[|ps|], layers, lookAhead)
    ensures Built(left + [rest], layers, lookAhead, ps + [p])
  {
    hide Line, PlainSum, Missing, Caps, ClosedBy;
    assert Takes(left[|ps|], layers, lookAhead, p, rest);
    hide Takes;
  }

  lemma NoPipelines(layers: int)
    ensures Members([]) == {} && Apart([]) && AllServe([], layers)
  {
  }

  lemma AllRoomy(whole: seq<Worker>, part: seq<Worker>)
    requires (forall i :: 0 <= i < |whole| ==> Roomy(whole[i].capacity)) && Elements(part) <= Elements(whole)
    ensures forall i :: 0 <= i < |part| ==> Roomy(part[i].capacity)
  {
    forall i | 0 <= i < |part|
      ensures Roomy(part[i].capacity)
    {
      assert part[i] in Elements(part);
    }
  }

  lemma SameWorkers(whole: seq<Worker>, part: seq<Worker>)
    requires Elements(part) <= Elements(whole)
    ensures forall i :: 0 <= i < |part| ==> part[i] in whole
  {
    forall i | 0 <= i < |part|
      ensures part[i] in whole
    {
      assert part[i] in Elements(part);
    }
  }

  lemma IdleElements(ws: seq<Worker>)
    requires AllIdle(ws)
    ensures forall w :: w in Elements(ws) ==> w.range == Unassigned && !w.active
  {
  }
}
