/**
 * What the dynamic-programming allocator optimises, stated without its states, pruning or sorting:
 * a labelled plan decides for every node whether it idles, begins a pipeline or joins an open one.
 */
module PipelinePlans {
  import opened SortedLists

  /** Decoder-layer capacity of a node: plain, with the input embedding, with the LM head, with both. */
  datatype Capacity = Capacity(plain: int, withEmbed: int, withHead: int, withBoth: int)

  /** The nodes in registry order, the number of layers, and the number of pipelines wanted. */
  datatype Problem = Problem(caps: seq<Capacity>, layers: int, target: nat)

  predicate ValidProblem(p: Problem) {
    && p.layers > 0
    && forall i :: 0 <= i < |p.caps| ==>
                     0 <= p.caps[i].plain && p.caps[i].withEmbed <= p.caps[i].plain && p.caps[i].withHead <= p.caps[i].plain
  }

  /** Layers still missing after a node begins a pipeline; none or less closes it. */
  function AfterStart(c: Capacity, layers: int): int {
    layers - c.withEmbed
  }

  /** Layers still missing after a node joins: the LM head is charged once the plain capacity suffices. */
  function AfterJoin(c: Capacity, residual: int): int {
    if residual - c.plain <= 0 then residual - c.withHead else residual - c.plain
  }

  datatype Slot = Open(residual: int) | Closed

  datatype Move = Idle | Begin | Join(pipe: nat)

  /** Pipelines are labelled in the order they begin; `finished` counts the closed ones. */
  datatype Plan = Plan(slots: seq<Slot>, finished: nat)

  predicate Legal(st: Plan, m: Move) {
    m.Join? ==> m.pipe < |st.slots| && st.slots[m.pipe].Open?
  }

  function Apply(c: Capacity, layers: int, st: Plan, m: Move): Plan
    requires Legal(st, m)
  {
    match m
    case Idle => st
    case Begin =>
      var r := AfterStart(c, layers);
      if r <= 0 then Plan(st.slots + [Closed], st.finished + 1) else Plan(st.slots + [Open(r)], st.finished)
    case Join(l) =>
      var r := AfterJoin(c, st.slots[l].residual);
      if r <= 0 then Plan(st.slots[l := Closed], st.finished + 1) else Plan(st.slots[l := Open(r)], st.finished)
  }

  /** From `st`, the moves of nodes `i..` are legal and exactly `target` pipelines are closed at the end. */
  ghost predicate Closes(p: Problem, i: nat, st: Plan, moves: seq<Move>)
    decreases |moves|
  {
    if moves == [] then
      i == |p.caps| && st.finished == p.target
    else
      && i < |p.caps|
      && Legal(st, moves[0])
      && Closes(p, i + 1, Apply(p.caps[i], p.layers, st, moves[0]), moves[1..])
  }

  /** Number of stages, that is of nodes that do not idle. */
  function Used(moves: seq<Move>): nat {
    if moves == [] then 0 else (if moves[0].Idle? then 0 else 1) + Used(moves[1..])
  }

  const NoPlan := Plan([], 0)

  /** The residuals of the open pipelines, forgetting labels. */
  function Bag(slots: seq<Slot>): multiset<int> {
    if slots == [] then
      multiset{}
    else
      Bag(slots[1..]) + One(slots[0])
  }

  function One(s: Slot): multiset<int> {
    if s.Open? then multiset{s.residual} else multiset{}
  }

  lemma BagHead(slots: seq<Slot>)
    requires slots != []
    ensures Bag(slots) == Bag(slots[1..]) + One(slots[0])
  {
  }

  lemma {:induction false} BagUpdate(slots: seq<Slot>, l: nat, s: Slot)
    requires l < |slots|
    ensures Bag(slots[l := s]) + One(slots[l]) == Bag(slots) + One(s)
  {
    hide Bag, One;
    var t := slots[l := s];
    BagHead(slots);
    BagHead(t);
    if l == 0 {
      assert t[1..] == slots[1..];
    } else {
      assert t[1..] == slots[1..][l - 1 := s];
      BagUpdate(slots[1..], l - 1, s);
      Shift(Bag(t[1..]), One(slots[l]), Bag(slots[1..]), One(s), One(slots[0]));
    }
  }

  lemma Shift(a: multiset<int>, x: multiset<int>, b: multiset<int>, y: multiset<int>, c: multiset<int>)
    requires a + x == b + y
    ensures (a + c) + x == (b + c) + y
  {
    assert (a + c) + x == (a + x) + c;
    assert (b + c) + y == (b + y) + c;
  }

  lemma {:induction false} BagAppend(slots: seq<Slot>, s: Slot)
    ensures Bag(slots + [s]) == Bag(slots) + One(s)
  {
    if slots == [] {
      assert slots + [s] == [s];
      assert [s][1..] == [];
      assert Bag([s]) == Bag([]) + One(s);
    } else {
      assert (slots + [s])[1..] == slots[1..] + [s];
      BagAppend(slots[1..], s);
    }
  }

  lemma {:induction false} BagFind(slots: seq<Slot>, r: int) returns (l: nat)
    requires r in Bag(slots)
    ensures l < |slots| && slots[l] == Open(r)
  {
    if slots[0] == Open(r) {
      l := 0;
    } else {
      l := BagFind(slots[1..], r);
      l := l + 1;
    }
  }

  /** Changing a slot from open at `r` to closed, or back. */
  lemma BagClose(slots: seq<Slot>, l: nat)
    requires l < |slots| && slots[l].Open?
    ensures slots[l].residual in Bag(slots)
    ensures Bag(slots[l := Closed]) == Bag(slots) - multiset{slots[l].residual}
  {
    BagUpdate(slots, l, Closed);
    assert Bag(slots) + multiset{} == Bag(slots);
    Cancel(Bag(slots[l := Closed]), Bag(slots), slots[l].residual);
  }

  lemma BagOpen(slots: seq<Slot>, l: nat, r: int)
    requires l < |slots| && slots[l].Closed?
    ensures Bag(slots[l := Open(r)]) == Bag(slots) + multiset{r}
  {
    BagUpdate(slots, l, Open(r));
  }

  /** Changing the residual of an open slot. */
  lemma BagChange(slots: seq<Slot>, l: nat, r: int)
    requires l < |slots| && slots[l].Open?
    ensures slots[l].residual in Bag(slots)
    ensures Bag(slots[l := Open(r)]) == Bag(slots) - multiset{slots[l].residual} + multiset{r}
  {
    BagUpdate(slots, l, Open(r));
    BagClose(slots, l);
    Exchange(Bag(slots[l := Open(r)]), Bag(slots), slots[l].residual, r);
  }

  function Idling(n: nat): (moves: seq<Move>)
    ensures |moves| == n
  {
    if n == 0 then [] else [Idle] + Idling(n - 1)
  }

  lemma {:induction false} IdlingCloses(p: Problem, i: nat, st: Plan)
    requires i <= |p.caps| && st.finished == p.target
    ensures Closes(p, i, st, Idling(|p.caps| - i))
    ensures Used(Idling(|p.caps| - i)) == 0
    decreases |p.caps| - i
  {
    if i < |p.caps| {
      IdlingCloses(p, i + 1, st);
      assert Idling(|p.caps| - i)[1..] == Idling(|p.caps| - (i + 1));
    }
  }
}
