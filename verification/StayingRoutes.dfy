/** When a cheapest layer-level route never returns to a node it left, judged from latencies and round-trip times alone. */
module StayingRoutes {
  import opened Hosts
  import opened TurningPoints

  ghost predicate Indices(nodes: seq<Host>, a: seq<nat>) {
    forall k :: 0 <= k < |a| ==> a[k] < |nodes|
  }

  /** Moving to the host of layer `k`, and running it there. */
  function Leg(nodes: seq<Host>, a: seq<nat>, k: nat): Cost
    requires 0 < k < |a| && a[k - 1] < |nodes| && a[k] < |nodes|
  {
    Move(nodes, a[k - 1], a[k]).Plus(nodes[a[k]].latency)
  }

  /** The cost of a route from layer `x`, which is paid already, to layer `z`. */
  ghost function Legs(nodes: seq<Host>, a: seq<nat>, x: nat, z: nat): Cost
    requires x <= z < |a| && Indices(nodes, a)
    decreases z
  {
    if x == z then Fin(0.0) else Legs(nodes, a, x, z - 1).Plus(Leg(nodes, a, z))
  }

  lemma PlusAssoc(a: Cost, b: Cost, c: Cost)
    ensures a.Plus(b).Plus(c) == a.Plus(b.Plus(c))
  {
  }

  lemma {:induction false} CostSplit(nodes: seq<Host>, a: seq<nat>, x: nat, z: nat)
    requires x <= z < |a| && Indices(nodes, a)
    ensures LayerCost(nodes, a[..z + 1]) == LayerCost(nodes, a[..x + 1]).Plus(Legs(nodes, a, x, z))
    decreases z
  {
    hide Move;
    if x < z {
      CostSplit(nodes, a, x, z - 1);
      assert a[..z + 1][..z] == a[..z];
      PlusAssoc(LayerCost(nodes, a[..z]), Move(nodes, a[z - 1], a[z]), nodes[a[z]].latency);
      PlusAssoc(LayerCost(nodes, a[..x + 1]), Legs(nodes, a, x, z - 1), Leg(nodes, a, z));
    }
  }

  lemma {:induction false} LegsSplit(nodes: seq<Host>, a: seq<nat>, x: nat, y: nat, z: nat)
    requires x <= y <= z < |a| && Indices(nodes, a)
    ensures Legs(nodes, a, x, z) == Legs(nodes, a, x, y).Plus(Legs(nodes, a, y, z))
    decreases z
  {
    if y < z {
      LegsSplit(nodes, a, x, y, z - 1);
      PlusAssoc(Legs(nodes, a, x, y), Legs(nodes, a, y, z - 1), Leg(nodes, a, z));
    }
  }

  lemma {:induction false} LegsSame(nodes: seq<Host>, a: seq<nat>, b: seq<nat>, x: nat, z: nat)
    requires x <= z < |a| == |b| && Indices(nodes, a) && Indices(nodes, b) && forall k :: x <= k <= z ==> a[k] == b[k]
    ensures Legs(nodes, a, x, z) == Legs(nodes, b, x, z)
    decreases z
  {
    if x < z {
      LegsSame(nodes, a, b, x, z - 1);
    }
  }

  ghost predicate NonNegative(nodes: seq<Host>) {
    && (forall i :: 0 <= i < |nodes| && nodes[i].latency.Fin? ==> nodes[i].latency.ms >= 0.0)
    && (forall i, j :: 0 <= i < |nodes| && 0 <= j < |nodes| && Move(nodes, i, j).Fin? ==> Move(nodes, i, j).ms >= 0.0)
  }

  /** Leaving a node and coming back costs more than all layers together could save on another node. */
  ghost predicate Sticky(nodes: seq<Host>, layers: nat) {
    forall i, j, p, q :: 0 <= i < |nodes| && 0 <= j < |nodes| && 0 <= p < |nodes| && 0 <= q < |nodes| && j != i && p != i && q != i ==>
      RoundTripDearer(nodes, layers, i, j, p, q)
  }

  predicate RoundTripDearer(nodes: seq<Host>, layers: nat, i: nat, j: nat, p: nat, q: nat)
    requires i < |nodes| && j < |nodes| && p < |nodes| && q < |nodes|
  {
    nodes[i].latency.Fin? && nodes[j].latency.Fin? && Move(nodes, i, p).Fin? && Move(nodes, q, i).Fin? ==>
      layers as real * (nodes[i].latency.ms - nodes[j].latency.ms) < Move(nodes, i, p).ms + Move(nodes, q, i).ms
  }

  /** A shortest return: a node, then only others, then the node again. */
  ghost predicate Returns(a: seq<nat>, x: nat, z: nat) {
    x + 1 < z < |a| && a[x] == a[z] && forall k :: x < k < z ==> a[k] != a[x]
  }

  lemma SomeReturn(a: seq<nat>) returns (x: nat, z: nat)
    requires !NeverReturns(a)
    ensures Returns(a, x, z)
  {
    var from, y, again :| 0 <= from < y < again < |a| && a[from] == a[again] && a[y] != a[from];
    x, z := y - 1, y + 1;
    while a[x] != a[from]
      invariant from <= x < y && forall k :: x < k <= y ==> a[k] != a[from]
      decreases x
    {
      x := x - 1;
    }
    while a[z] != a[from]
      invariant y < z <= again && forall k :: y <= k < z ==> a[k] != a[from]
      decreases again - z
    {
      z := z + 1;
    }
  }

  /** The route that stays on the node instead. */
  ghost function Staying(a: seq<nat>, x: nat, z: nat): (r: seq<nat>)
    requires x <= z < |a|
    ensures |r| == |a| && forall k :: 0 <= k < |a| ==> r[k] == if x <= k <= z then a[x] else a[k]
  {
    seq(|a|, k requires 0 <= k < |a| => if x <= k <= z then a[x] else a[k])
  }

  lemma {:induction false} StayingLegs(nodes: seq<Host>, a: seq<nat>, x: nat, z: nat, lat: real)
    requires x <= z < |a| && Indices(nodes, a) && (forall k :: x <= k <= z ==> a[k] == a[x]) && nodes[a[x]].latency == Fin(lat)
    ensures Legs(nodes, a, x, z) == Fin((z - x) as real * lat)
    decreases z
  {
    if x < z {
      StayingLegs(nodes, a, x, z - 1, lat);
      assert (z - x) as real * lat == (z - 1 - x) as real * lat + lat;
    }
  }

  /** With `n` layers in all, running `m` layers for `cost` elsewhere saves at most `m` parts of the round trip. */
  predicate Saved(n: real, lat: real, m: real, cost: real, trip: real) {
    n * (m * lat - cost) <= m * trip
  }

  /** Between leaving and coming back, each layer saves at most its part of the round trip. */
  lemma {:induction false} SavedBetween(nodes: seq<Host>, layers: nat, a: seq<nat>, x: nat, k: nat, i: nat, p: nat, q: nat, trip: real)
    requires Indices(nodes, a) && x < k < |a| && i < |nodes| && p < |nodes| && q < |nodes| && p != i && q != i
    requires NonNegative(nodes) && Sticky(nodes, layers) && nodes[i].latency.Fin?
    requires Move(nodes, i, p).Fin? && Move(nodes, q, i).Fin? && trip == Move(nodes, i, p).ms + Move(nodes, q, i).ms
    requires (forall m :: x < m <= k ==> a[m] != i) && Legs(nodes, a, x + 1, k).Fin?
    ensures Saved(layers as real, nodes[i].latency.ms, (k - x - 1) as real, Legs(nodes, a, x + 1, k).ms, trip)
    decreases k
  {
    hide Sticky, Move, RoundTripDearer, NonNegative, Saved;
    if k == x + 1 {
      NothingSaved(layers as real, nodes[i].latency.ms, trip);
    } else {
      SavedBetween(nodes, layers, a, x, k - 1, i, p, q, trip);
      NextSaved(nodes, layers, a, x, k, i, p, q, trip, (k - x - 2) as real);
      assert (k - x - 1) as real == (k - x - 2) as real + 1.0;
    }
  }

  lemma NothingSaved(n: real, lat: real, trip: real)
    ensures Saved(n, lat, 0.0, 0.0, trip)
  {
  }

  lemma NextSaved(nodes: seq<Host>, layers: nat, a: seq<nat>, x: nat, k: nat, i: nat, p: nat, q: nat, trip: real, m: real)
    requires Indices(nodes, a) && x + 1 < k < |a| && i < |nodes| && p < |nodes| && q < |nodes| && p != i && q != i && a[k] != i
    requires NonNegative(nodes) && Sticky(nodes, layers) && nodes[i].latency.Fin?
    requires Move(nodes, i, p).Fin? && Move(nodes, q, i).Fin? && trip == Move(nodes, i, p).ms + Move(nodes, q, i).ms
    requires Legs(nodes, a, x + 1, k).Fin? && Legs(nodes, a, x + 1, k - 1).Fin?
    requires Saved(layers as real, nodes[i].latency.ms, m, Legs(nodes, a, x + 1, k - 1).ms, trip)
    ensures Saved(layers as real, nodes[i].latency.ms, m + 1.0, Legs(nodes, a, x + 1, k).ms, trip)
  {
    hide Sticky, Move, Saved;
    var before, here, move := Legs(nodes, a, x + 1, k - 1).ms, nodes[a[k]].latency.ms, Move(nodes, a[k - 1], a[k]).ms;
    Dearer(nodes, layers, i, a[k], p, q);
    Gather(layers as real, nodes[i].latency.ms, before, here, move, m, trip);
  }

  lemma Dearer(nodes: seq<Host>, layers: nat, i: nat, j: nat, p: nat, q: nat)
    requires Sticky(nodes, layers) && i < |nodes| && j < |nodes| && p < |nodes| && q < |nodes| && j != i && p != i && q != i
    ensures RoundTripDearer(nodes, layers, i, j, p, q)
  {
  }

  lemma Gather(n: real, lat: real, before: real, here: real, move: real, m: real, trip: real)
    requires n >= 0.0 && move >= 0.0 && Saved(n, lat, m, before, trip) && n * (lat - here) < trip
    ensures Saved(n, lat, m + 1.0, before + move + here, trip)
  {
    var u, v := m * lat - before, lat - here;
    assert (m + 1.0) * lat - (before + move + here) == u + v - move;
    Times(n, u, v, move);
    assert (m + 1.0) * trip == m * trip + trip;
  }

  lemma Times(n: real, u: real, v: real, move: real)
    requires n >= 0.0 && move >= 0.0
    ensures n * (u + v - move) <= n * u + n * v
  {
    NonNegativeProduct(n, move);
    assert n * (u + v - move) == n * u + n * v - n * move;
  }

  lemma NonNegativeProduct(a: real, b: real)
    requires a >= 0.0 && b >= 0.0
    ensures a * b >= 0.0
  {
  }

  /** Staying is cheaper than leaving and coming back. */
  lemma StayingCheaper(nodes: seq<Host>, layers: nat, a: seq<nat>, x: nat, z: nat)
    requires Indices(nodes, a) && NonNegative(nodes) && Sticky(nodes, layers) && Returns(a, x, z) && z - x - 1 <= layers
    requires Legs(nodes, a, x, z).Fin? && nodes[a[x]].latency.Fin?
    ensures (z - x) as real * nodes[a[x]].latency.ms < Legs(nodes, a, x, z).ms
  {
    hide Sticky, Move, Saved, NonNegative, Legs;
    var i, p, q := a[x], a[x + 1], a[z - 1];
    LegsSplit(nodes, a, x, z - 1, z);
    LegsSplit(nodes, a, x, x + 1, z - 1);
    OneLeg(nodes, a, x);
    OneLeg(nodes, a, z - 1);
    var trip := Move(nodes, i, p).ms + Move(nodes, q, i).ms;
    SavedBetween(nodes, layers, a, x, z - 1, i, p, q, trip);
    Dearer(nodes, layers, i, p, p, q);
    TripNonNegative(nodes, i, p, q);
    Compare(layers as real, nodes[i].latency.ms, nodes[p].latency.ms, Legs(nodes, a, x + 1, z - 1).ms, (z - x - 2) as real, trip);
    assert (z - x) as real == (z - x - 2) as real + 2.0;
  }

  lemma TripNonNegative(nodes: seq<Host>, i: nat, p: nat, q: nat)
    requires NonNegative(nodes) && i < |nodes| && p < |nodes| && q < |nodes| && Move(nodes, i, p).Fin? && Move(nodes, q, i).Fin?
    ensures Move(nodes, i, p).ms + Move(nodes, q, i).ms >= 0.0
  {
  }

  lemma OneLeg(nodes: seq<Host>, a: seq<nat>, x: nat)
    requires x + 1 < |a| && Indices(nodes, a)
    ensures Legs(nodes, a, x, x + 1) == Leg(nodes, a, x + 1)
  {
    assert Legs(nodes, a, x, x) == Fin(0.0);
  }

  lemma Compare(n: real, lat: real, first: real, between: real, m: real, trip: real)
    requires n >= m + 1.0 && m >= 0.0 && trip >= 0.0
    requires n * (lat - first) < trip && Saved(n, lat, m, between, trip)
    ensures (m + 2.0) * lat < first + between + trip + lat
  {
    var d := (lat - first) + (m * lat - between);
    assert n * d == n * (lat - first) + n * (m * lat - between);
    assert (m + 1.0) * trip == m * trip + trip;
    assert n * d < (m + 1.0) * trip;
    NonNegativeProduct(n - (m + 1.0), trip);
    assert n * trip == (m + 1.0) * trip + (n - (m + 1.0)) * trip;
    assert n * (d - trip) < 0.0;
    assert d < trip;
    assert (m + 2.0) * lat == m * lat + 2.0 * lat;
  }

  /** With round trips dearer than what they could save, a cheapest route uses each node for one stretch of layers. */
  lemma StickyNeverReturns(nodes: seq<Host>, layers: nat, path: seq<nat>)
    requires BestRoute(nodes, layers, path) && NonNegative(nodes) && Sticky(nodes, layers)
    ensures NeverReturns(path)
  {
    if !NeverReturns(path) {
      var x, z := SomeReturn(path);
      var stay := Staying(path, x, z);
      StayingAssigned(nodes, path, x, z);
      CheaperStay(nodes, layers, path, x, z);
      assert false;
    }
  }

  lemma StayingAssigned(nodes: seq<Host>, a: seq<nat>, x: nat, z: nat)
    requires Assignment(nodes, a) && Returns(a, x, z)
    ensures Assignment(nodes, Staying(a, x, z))
  {
    assert nodes[a[x]].Hosts(x) && nodes[a[z]].Hosts(z);
  }

  lemma CheaperStay(nodes: seq<Host>, layers: nat, a: seq<nat>, x: nat, z: nat)
    requires |a| == layers && Assignment(nodes, a) && Returns(a, x, z) && LayerCost(nodes, a).Fin? && NonNegative(nodes) && Sticky(nodes, layers)
    ensures LayerCost(nodes, Staying(a, x, z)).Less(LayerCost(nodes, a))
  {
    hide LayerCost, Legs, Sticky, NonNegative;
    var stay, last := Staying(a, x, z), |a| - 1;
    assert a[..last + 1] == a && stay[..last + 1] == stay && stay[..x + 1] == a[..x + 1];
    CostSplit(nodes, a, x, last);
    CostSplit(nodes, stay, x, last);
    LegsSplit(nodes, a, x, z, last);
    LegsSplit(nodes, stay, x, z, last);
    LegsSame(nodes, a, stay, z, last);
    HereFinite(nodes, a, x);
    StayingLegs(nodes, stay, x, z, nodes[a[x]].latency.ms);
    StayingCheaper(nodes, layers, a, x, z);
  }

  lemma HereFinite(nodes: seq<Host>, a: seq<nat>, x: nat)
    requires x < |a| && Indices(nodes, a) && LayerCost(nodes, a[..x + 1]).Fin?
    ensures nodes[a[x]].latency.Fin?
  {
  }

  /** Then trimming leaves every layer on the route hosted by its node. */
  lemma StickyRouteHosted(nodes: seq<Host>, layers: nat, path: seq<nat>, ranges: seq<Range>)
    requires BestRoute(nodes, layers, path) && NonNegative(nodes) && Sticky(nodes, layers) && Trimmed(nodes, path, ranges)
    ensures forall l :: 0 <= l < |path| ==> Covers(ranges[path[l]], l)
  {
    StickyNeverReturns(nodes, layers, path);
    TrimmedRouteHosted(nodes, path, ranges);
  }
}
