/** Sorted integer lists: the canonical form the pipeline search uses for its open residuals. */
module SortedLists {

  predicate IsSorted(s: seq<int>) {
    forall i, j :: 0 <= i < j < |s| ==> s[i] <= s[j]
  }

  /** Sums a list of residuals. */
  function Sum(s: seq<int>): int {
    if s == [] then 0 else s[0] + Sum(s[1..])
  }

  function Insert(x: int, s: seq<int>): (r: seq<int>)
    requires IsSorted(s)
    ensures |r| == |s| + 1
    ensures forall k :: 0 <= k < |r| ==> r[k] == x || r[k] in s
    ensures IsSorted(r)
    ensures multiset(r) == multiset(s) + multiset{x}
  {
    if s == [] || x <= s[0] then
      SortedCons(x, s);
      [x] + s
    else
      DropFirst(s);
      SortedTail(s);
      var t := Insert(x, s[1..]);
      SortedCons(s[0], t);
      InFront(s, t, x);
      [s[0]] + t
  }

  lemma InFront(s: seq<int>, t: seq<int>, x: int)
    requires s != [] && multiset(t) == multiset(s[1..]) + multiset{x}
    ensures multiset([s[0]] + t) == multiset(s) + multiset{x}
  {
    DropFirst(s);
    assert multiset(s) == multiset(s[1..]) + multiset{s[0]};
  }

  lemma SortedCons(x: int, s: seq<int>)
    requires IsSorted(s) && forall k :: 0 <= k < |s| ==> x <= s[k]
    ensures IsSorted([x] + s)
    ensures multiset([x] + s) == multiset(s) + multiset{x}
  {
  }

  lemma SortedTail(s: seq<int>)
    requires IsSorted(s) && s != []
    ensures IsSorted(s[1..])
  {
  }

  /** Stands for `list.sort()` on a list of integers. */
  function Sort(s: seq<int>): (r: seq<int>)
    ensures IsSorted(r)
    ensures multiset(r) == multiset(s)
    ensures |r| == |s|
  {
    if s == [] then
      []
    else
      assert s == [s[0]] + s[1..];
      Insert(s[0], Sort(s[1..]))
  }

  /** The least element of a sorted list comes first. */
  lemma FirstIsLeast(s: seq<int>, t: seq<int>)
    requires IsSorted(s) && s != []
    requires multiset(s) == multiset(t)
    ensures forall k :: 0 <= k < |t| ==> s[0] <= t[k]
    ensures s[0] in t
  {
    assert s[0] in multiset(s);
    forall k | 0 <= k < |t|
      ensures s[0] <= t[k]
    {
      assert t[k] in multiset(t);
      assert t[k] in s;
    }
  }

  lemma DropFirst(s: seq<int>)
    requires s != []
    ensures multiset(s[1..]) == multiset(s) - multiset{s[0]}
  {
    assert s == [s[0]] + s[1..];
  }

  /** A sorted list is determined by its elements with their multiplicities. */
  lemma {:induction false} SortedUnique(s: seq<int>, t: seq<int>)
    requires IsSorted(s) && IsSorted(t)
    requires multiset(s) == multiset(t)
    ensures s == t
    decreases |s|
  {
    hide IsSorted;
    assert |s| == |multiset(s)| == |multiset(t)| == |t|;
    if s != [] {
      FirstIsLeast(s, t);
      FirstIsLeast(t, s);
      assert s[0] == t[0];
      DropFirst(s);
      DropFirst(t);
      SortedTail(s);
      SortedTail(t);
      SortedUnique(s[1..], t[1..]);
      assert s == [s[0]] + s[1..] && t == [t[0]] + t[1..];
    }
  }

  lemma {:induction false} SumConcat(s: seq<int>, t: seq<int>)
    ensures Sum(s + t) == Sum(s) + Sum(t)
  {
    if s == [] {
      assert s + t == t;
    } else {
      assert (s + t)[1..] == s[1..] + t;
      SumConcat(s[1..], t);
    }
  }

  lemma SumStep(counts: seq<int>, i: nat)
    requires i < |counts|
    ensures Sum(counts[..i + 1]) == Sum(counts[..i]) + counts[i]
  {
    assert counts[..i + 1] == counts[..i] + [counts[i]];
    SumConcat(counts[..i], [counts[i]]);
    assert Sum([counts[i]]) == counts[i];
  }

  lemma SumNone(counts: seq<int>)
    ensures Sum(counts[..0]) == 0
  {
  }

  lemma {:induction false} SumRemove(s: seq<int>, j: nat)
    requires j < |s|
    ensures Sum(s[..j] + s[j + 1..]) == Sum(s) - s[j]
    ensures multiset(s[..j] + s[j + 1..]) == multiset(s) - multiset{s[j]}
  {
    assert s == s[..j] + ([s[j]] + s[j + 1..]);
    SumConcat(s[..j], [s[j]] + s[j + 1..]);
    SumConcat([s[j]], s[j + 1..]);
    SumConcat(s[..j], s[j + 1..]);
  }

  lemma {:induction false} SumUpdate(s: seq<int>, j: nat, x: int)
    requires j < |s|
    ensures Sum(s[j := x]) == Sum(s) - s[j] + x
    ensures multiset(s[j := x]) == multiset(s) - multiset{s[j]} + multiset{x}
  {
    var t := s[j := x];
    assert t[..j] == s[..j] && t[j + 1..] == s[j + 1..];
    SumRemove(s, j);
    SumRemove(t, j);
  }

  /** The sum does not depend on the order. */
  lemma {:induction false} SumPermutation(s: seq<int>, t: seq<int>)
    requires multiset(s) == multiset(t)
    ensures Sum(s) == Sum(t)
  {
    assert |s| == |multiset(s)| == |multiset(t)| == |t|;
    if s != [] {
      assert s[0] in multiset(t);
      var j :| 0 <= j < |t| && t[j] == s[0];
      SumRemove(t, j);
      assert s == [s[0]] + s[1..];
      assert multiset(s[1..]) == multiset(s) - multiset{s[0]};
      SumPermutation(s[1..], t[..j] + t[j + 1..]);
    }
  }

  lemma Cancel(a: multiset<int>, b: multiset<int>, x: int)
    requires a + multiset{x} == b
    ensures x in b && a == b - multiset{x}
  {
    assert (a + multiset{x}) - multiset{x} == a;
  }

  lemma Exchange(a: multiset<int>, b: multiset<int>, x: int, y: int)
    requires a + multiset{x} == b + multiset{y} && x in b
    ensures a == b - multiset{x} + multiset{y}
  {
    Cancel(a, b + multiset{y}, x);
    assert b + multiset{y} - multiset{x} == b - multiset{x} + multiset{y};
  }
}
