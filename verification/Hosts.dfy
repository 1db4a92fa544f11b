/** Nodes as the routers see them: a layer range, a latency, and measured round-trip times. */
module Hosts {

  /** A latency in milliseconds, or infinity for an overloaded node or a missing measurement. */
  datatype Cost = Fin(ms: real) | Inf {
    function Plus(other: Cost): Cost {
      if Fin? && other.Fin? then Fin(ms + other.ms) else Inf
    }

    predicate Less(other: Cost) {
      Fin? && (other.Inf? || ms < other.ms)
    }

    predicate AtMost(other: Cost) {
      other.Inf? || (Fin? && ms <= other.ms)
    }
  }

  datatype Range = Unassigned | Layers(start: int, end: int)

  /** `ready` is the node's own report that it can serve. */
  datatype Host = Host(id: string, range: Range, ready: bool, latency: Cost, rtts: map<string, Cost>) {
    predicate Hosts(layer: int) {
      range.Layers? && range.start <= layer < range.end
    }
  }

  /** Round-trip time from `a` to `b`; the reverse measurement stands in for a missing one. */
  function Rtt(a: Host, b: Host): Cost {
    if a == b then Fin(0.0)
    else if b.id in a.rtts then a.rtts[b.id]
    else if a.id in b.rtts then b.rtts[a.id]
    else Inf
  }

  /** The cost of moving from one stage to the next. */
  function Hop(a: Host, b: Host): Cost {
    if a.id == b.id then Fin(0.0) else Rtt(a, b)
  }

  /** `t` is the measured round-trip time: the first host's own measurement, or the other's when it has none. */
  ghost predicate Measured(a: Host, b: Host, t: real) {
    if b.id in a.rtts then a.rtts[b.id] == Fin(t) else a.id in b.rtts && b.rtts[a.id] == Fin(t)
  }

  predicate Ranged(nodes: seq<Host>, i: nat) {
    i < |nodes| && nodes[i].range.Layers?
  }

  /** Every assigned range is non-empty. */
  predicate ValidRanges(nodes: seq<Host>) {
    forall i :: 0 <= i < |nodes| && nodes[i].range.Layers? ==> nodes[i].range.start < nodes[i].range.end
  }

  /** By start layer, then end layer. */
  predicate Before(a: Range, b: Range)
    requires a.Layers? && b.Layers?
  {
    a.start < b.start || (a.start == b.start && a.end <= b.end)
  }

  ghost predicate ByRange(nodes: seq<Host>, s: seq<nat>) {
    && (forall k :: 0 <= k < |s| ==> Ranged(nodes, s[k]))
    && (forall a, b :: 0 <= a < b < |s| ==> s[a] != s[b] && Before(nodes[s[a]].range, nodes[s[b]].range))
  }

  lemma InsertKeepsOrder(nodes: seq<Host>, s: seq<nat>, at: nat, i: nat)
    requires ByRange(nodes, s) && at <= |s| && Ranged(nodes, i) && i !in s
    requires forall k :: 0 <= k < at ==> Before(nodes[s[k]].range, nodes[i].range)
    requires at < |s| ==> !Before(nodes[s[at]].range, nodes[i].range)
    ensures ByRange(nodes, s[..at] + [i] + s[at..])
    ensures forall x: nat :: x in s[..at] + [i] + s[at..] <==> x == i || x in s
  {
    var r := s[..at] + [i] + s[at..];
    assert s == s[..at] + s[at..];
    forall k | at <= k < |s|
      ensures Before(nodes[i].range, nodes[s[k]].range)
    {
    }
    forall a, b | 0 <= a < b < |r|
      ensures r[a] != r[b] && Before(nodes[r[a]].range, nodes[r[b]].range)
    {
      var a0 := if a < at then a else a - 1;
      var b0 := if b < at then b else b - 1;
      assert a != at ==> r[a] == s[a0];
      assert b != at ==> r[b] == s[b0];
    }
  }

  /** The picked nodes ordered by range. */
  method SortByRange(nodes: seq<Host>, picks: seq<nat>) returns (order: seq<nat>)
    requires forall k :: 0 <= k < |picks| ==> Ranged(nodes, picks[k])
    requires forall a, b :: 0 <= a < b < |picks| ==> picks[a] != picks[b]
    ensures ByRange(nodes, order)
    ensures forall i: nat :: i in order <==> i in picks
  {
    order := [];
    for n := 0 to |picks|
      invariant ByRange(nodes, order)
      invariant forall x: nat :: x in order <==> x in picks[..n]
    {
      var i, at := picks[n], 0;
      while at < |order| && Before(nodes[order[at]].range, nodes[i].range)
        invariant at <= |order|
        invariant forall k :: 0 <= k < at ==> Before(nodes[order[k]].range, nodes[i].range)
      {
        at := at + 1;
      }
      InsertKeepsOrder(nodes, order, at, i);
      order := order[..at] + [i] + order[at..];
    }
  }
}
