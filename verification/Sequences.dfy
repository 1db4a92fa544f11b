/** Sequences without repetition, their elements, and totals. */
module Sequences {
  ghost predicate NoRepeats<T>(s: seq<T>) {
    forall a, b :: 0 <= a < b < |s| ==> s[a] != s[b]
  }

  function SetOf<T(==)>(s: seq<T>): set<T> {
    set x | x in s
  }

  function SumReals(s: seq<real>): real {
    if s == [] then 0.0 else s[0] + SumReals(s[1..])
  }

  lemma {:induction false} SumRealsLast(s: seq<real>)
    requires s != []
    ensures SumReals(s) == SumReals(s[..|s| - 1]) + s[|s| - 1]
  {
    if |s| > 1 {
      SumRealsLast(s[1..]);
      assert s[1..][..|s| - 2] == s[..|s| - 1][1..];
    }
  }
}
