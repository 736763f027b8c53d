/** Filtering a list, as the JavaScript and Go sources both do. */
module Sequences {

  predicate Distinct<T(==)>(s: seq<T>) {
    forall i, j :: 0 <= i < j < |s| ==> s[i] != s[j]
  }

  function Filter<T>(keep: T -> bool, s: seq<T>): seq<T> {
    if s == [] then [] else (if keep(s[0]) then [s[0]] else []) + Filter(keep, s[1..])
  }

  lemma {:induction false} FilterExactly<T>(keep: T -> bool, s: seq<T>)
    ensures forall x :: x in Filter(keep, s) <==> x in s && keep(x)
  {
    if s != [] {
      FilterExactly(keep, s[1..]);
      assert s == [s[0]] + s[1..];
    }
  }

  lemma FilterEmpty<T>(keep: T -> bool, s: seq<T>)
    ensures Filter(keep, s) == [] <==> forall x :: x in s ==> !keep(x)
  {
    FilterExactly(keep, s);
    if Filter(keep, s) != [] {
      assert Filter(keep, s)[0] in Filter(keep, s);
    }
  }

  lemma {:induction false} FilterJoin<T>(keep: T -> bool, a: seq<T>, b: seq<T>)
    ensures Filter(keep, a + b) == Filter(keep, a) + Filter(keep, b)
  {
    if a == [] {
      assert a + b == b;
    } else {
      var first, rest := if keep(a[0]) then [a[0]] else [], Filter(keep, a[1..]);
      FilterJoin(keep, a[1..], b);
      assert (a + b)[1..] == a[1..] + b && (a + b)[0] == a[0];
      assert Filter(keep, a) == first + rest && Filter(keep, a + b) == first + (rest + Filter(keep, b));
    }
  }
}
