/** Numbers, sets and sequences, shared by all components. */
module Basics {

  function Max(a: int, b: int): int { if a > b then a else b }

  function Min(a: int, b: int): int { if a < b then a else b }

  predicate NoRepeats<T(==)>(xs: seq<T>) {
    forall i, j :: 0 <= i < j < |xs| ==> xs[i] != xs[j]
  }

  ghost function Member<T>(s: set<T>): (x: T)
    requires |s| != 0
    ensures x in s
  {
    var x :| x in s;
    x
  }

  /** An upper bound of the set that is no less than `least`. */
  ghost function UpperBound(s: set<int>, least: int): (r: int)
    ensures r >= least && forall x :: x in s ==> x <= r
  {
    if |s| == 0 then least
    else
      var x := Member(s);
      assert s == {x} + (s - {x});
      var rest := UpperBound(s - {x}, least);
      if x > rest then x else rest
  }
}
