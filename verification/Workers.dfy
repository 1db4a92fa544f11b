/** Worker nodes as the allocator sees them: fixed capacities, a layer range and a registry state. */
module Workers {
  import opened Hosts
  import opened PipelinePlans
  import opened Sequences

  class Worker {
    const capacity: Capacity
    const power: real
    var range: Range
    /** ACTIVE in the registry; STANDBY otherwise. */
    var active: bool

    constructor (capacity: Capacity, power: real)
      ensures this.capacity == capacity && this.power == power
      ensures range == Unassigned && !active
    {
      this.capacity, this.power, range, active := capacity, power, Unassigned, false;
    }

    /** A worker serves exactly when it holds layers. */
    predicate Consistent()
      reads this
    {
      active <==> range.Layers?
    }

    /** Gives a STANDBY worker a non-empty range and activates it. */
    method Allocate(start: int, end: int)
      requires start < end && !active
      modifies this
      ensures range == Layers(start, end) && active
    {
      range := Layers(start, end);
      active := true;
    }

    /**
     * Clears the range of an ACTIVE worker and sends it to STANDBY; without a range nothing happens.
     * Raises exactly for a worker that holds layers but is not ACTIVE, and leaves it as it was.
     */
    method Deallocate() returns (raised: bool)
      modifies this
      ensures raised <==> old(range).Layers? && !old(active)
      ensures range == if raised then old(range) else Unassigned
      ensures active == (old(active) && old(range).Unassigned?)
    {
      if range.Unassigned? {
        return false;
      }
      if !active {
        return true;
      }
      active := false;
      range := Unassigned;
      raised := false;
    }
  }

  ghost predicate AllConsistent(nodes: seq<Worker>)
    reads nodes
  {
    forall i :: 0 <= i < |nodes| ==> nodes[i].Consistent()
  }

  ghost predicate AllIdle(nodes: seq<Worker>)
    reads nodes
  {
    forall i :: 0 <= i < |nodes| ==> nodes[i].range == Unassigned && !nodes[i].active
  }

  function Elements(s: seq<Worker>): set<Worker> {
    set x | x in s
  }

  lemma ElementsCons(w: Worker, s: seq<Worker>)
    ensures Elements([w] + s) == {w} + Elements(s)
  {
  }

  function InsertByCapacity(w: Worker, s: seq<Worker>): (r: seq<Worker>)
    ensures |r| == |s| + 1
    ensures Elements(r) == Elements(s) + {w}
  {
    if s == [] || s[0].capacity.plain <= w.capacity.plain then
      ElementsCons(w, s);
      [w] + s
    else
      ElementsCons(s[0], s[1..]);
      ElementsCons(s[0], InsertByCapacity(w, s[1..]));
      assert s == [s[0]] + s[1..];
      [s[0]] + InsertByCapacity(w, s[1..])
  }

  /** Stable sort by plain capacity, largest first. */
  function ByCapacity(s: seq<Worker>): (r: seq<Worker>)
    ensures |r| == |s|
    ensures Elements(r) == Elements(s)
  {
    if s == [] then
      []
    else
      ElementsCons(s[0], s[1..]);
      assert s == [s[0]] + s[1..];
      InsertByCapacity(s[0], ByCapacity(s[1..]))
  }

  predicate Descending(s: seq<Worker>) {
    forall i, j :: 0 <= i < j < |s| ==> s[i].capacity.plain >= s[j].capacity.plain
  }

  lemma {:induction false} InsertKeepsOrder(w: Worker, s: seq<Worker>)
    requires Descending(s)
    ensures Descending(InsertByCapacity(w, s))
  {
    if !(s == [] || s[0].capacity.plain <= w.capacity.plain) {
      var rest := InsertByCapacity(w, s[1..]);
      InsertKeepsOrder(w, s[1..]);
      forall j | 0 <= j < |rest|
        ensures s[0].capacity.plain >= rest[j].capacity.plain
      {
        assert rest[j] in Elements(rest);
        assert rest[j] == w || rest[j] in s[1..];
      }
    }
  }

  lemma {:induction false} InsertOnce(w: Worker, s: seq<Worker>)
    requires NoRepeats(s) && w !in Elements(s)
    ensures NoRepeats(InsertByCapacity(w, s))
  {
    if !(s == [] || s[0].capacity.plain <= w.capacity.plain) {
      var rest := InsertByCapacity(w, s[1..]);
      assert s == [s[0]] + s[1..];
      ElementsCons(s[0], s[1..]);
      InsertOnce(w, s[1..]);
      forall j | 0 <= j < |rest|
        ensures s[0] != rest[j]
      {
        assert rest[j] in Elements(rest);
        assert rest[j] == w || rest[j] in s[1..];
      }
    }
  }

  /** The sort is a permutation, largest capacity first. */
  lemma {:induction false} ByCapacityOrders(s: seq<Worker>)
    ensures Descending(ByCapacity(s))
    ensures NoRepeats(s) ==> NoRepeats(ByCapacity(s))
  {
    if s != [] {
      ByCapacityOrders(s[1..]);
      InsertKeepsOrder(s[0], ByCapacity(s[1..]));
      if NoRepeats(s) {
        assert s[0] !in Elements(s[1..]);
        InsertOnce(s[0], ByCapacity(s[1..]));
      }
    }
  }

  /** Sorting leaves workers that already come largest first as they are. */
  lemma {:induction false} DescendingStays(s: seq<Worker>)
    requires Descending(s)
    ensures ByCapacity(s) == s
  {
    if s != [] {
      DescendingStays(s[1..]);
      assert s == [s[0]] + s[1..];
    }
  }

  /** Clears the ranges of all given workers. */
  method ClearAll(nodes: seq<Worker>)
    requires NoRepeats(nodes) && AllConsistent(nodes)
    modifies nodes
    ensures AllIdle(nodes)
  {
    for i := 0 to |nodes|
      invariant forall k :: 0 <= k < i ==> nodes[k].range == Unassigned && !nodes[k].active
      invariant forall k :: i <= k < |nodes| ==> nodes[k].Consistent()
    {
      var raised := nodes[i].Deallocate();
    }
  }
}
