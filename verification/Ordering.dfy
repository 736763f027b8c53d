/** Go's order on strings, and the in-place insertion sort of github/types.go.

    A string here is a sequence of Unicode scalar values.  Go compares the UTF-8
    bytes; `Utf8OrderAgrees` in module Utf8 shows that this is the same order. */
module Ordering {

  predicate Less(a: string, b: string) {
    b != [] && (a == [] || a[0] < b[0] || (a[0] == b[0] && Less(a[1..], b[1..])))
  }

  predicate AtMost(a: string, b: string) {
    !Less(b, a)
  }

  lemma {:induction false} LessTrans(a: string, b: string, c: string)
    requires Less(a, b) && Less(b, c)
    ensures Less(a, c)
  {
    if a != [] && a[0] == b[0] == c[0] {
      LessTrans(a[1..], b[1..], c[1..]);
    }
  }

  lemma {:induction false} LessIrreflexive(a: string)
    ensures !Less(a, a)
  {
    if a != [] {
      LessIrreflexive(a[1..]);
    }
  }

  lemma {:induction false} LessTotal(a: string, b: string)
    ensures Less(a, b) || a == b || Less(b, a)
  {
    if a != [] && b != [] && a[0] == b[0] {
      LessTotal(a[1..], b[1..]);
      assert a == [a[0]] + a[1..] && b == [b[0]] + b[1..];
    }
  }

  lemma AtMostTrans(a: string, b: string, c: string)
    requires AtMost(a, b) && AtMost(b, c)
    ensures AtMost(a, c)
  {
    if Less(c, a) {
      LessTotal(a, b);
      if a == b {
      } else {
        LessTrans(c, a, b);
      }
    }
  }

  predicate Ascending(s: seq<string>) {
    forall i, j :: 0 <= i < j < |s| ==> Less(s[i], s[j])
  }

  predicate Sorted(s: seq<string>) {
    forall i, j :: 0 <= i < j < |s| ==> AtMost(s[i], s[j])
  }

  function Elements<T>(s: seq<T>): set<T> {
    set x | x in s
  }

  /** Two strictly ascending sequences over the same strings are the same sequence. */
  lemma {:induction false} AscendingUnique(a: seq<string>, b: seq<string>)
    requires Ascending(a) && Ascending(b)
    requires Elements(a) == Elements(b)
    ensures a == b
  {
    assert a != [] ==> a[0] in Elements(b);
    assert b != [] ==> b[0] in Elements(a);
    if a != [] && b != [] {
      if a[0] != b[0] {
        LessTotal(a[0], b[0]);
        var i :| 0 <= i < |a| && a[i] == b[0];
        var j :| 0 <= j < |b| && b[j] == a[0];
        LessTrans(a[0], b[0], a[0]);
        LessIrreflexive(a[0]);
      }
      LessIrreflexive(a[0]);
      assert Elements(a[1..]) == Elements(a) - {a[0]} by {
        assert a == [a[0]] + a[1..];
      }
      assert Elements(b[1..]) == Elements(b) - {b[0]} by {
        assert b == [b[0]] + b[1..];
      }
      AscendingUnique(a[1..], b[1..]);
      assert a == [a[0]] + a[1..] && b == [b[0]] + b[1..];
    }
  }

  lemma AscendingCons(x: string, s: seq<string>)
    requires Ascending(s) && forall k :: k in s ==> Less(x, k)
    ensures Ascending([x] + s)
  {
  }

  lemma BelowFirst(x: string, s: seq<string>)
    requires Ascending(s) && s != [] && (x == s[0] || Less(x, s[0]))
    ensures forall k :: k in s[1..] ==> Less(x, k)
  {
    forall k | k in s[1..] ensures Less(x, k) {
      var i :| 0 < i < |s| && s[i] == k;
      if x != s[0] {
        LessTrans(x, s[0], s[i]);
      }
    }
  }

  /** `x` put where it belongs in an ascending sequence that lacks it. */
  function InsertKey(x: string, s: seq<string>): (r: seq<string>)
    requires Ascending(s) && x !in s
    ensures Ascending(r) && Elements(r) == Elements(s) + {x}
  {
    if s == [] then [x]
    else
      assert s == [s[0]] + s[1..];
      LessTotal(x, s[0]);
      if Less(x, s[0]) then
        BelowFirst(x, s);
        AscendingCons(x, s);
        [x] + s
      else
        BelowFirst(s[0], s);
        var t := InsertKey(x, s[1..]);
        assert forall k :: k in t ==> k in Elements(t);
        AscendingCons(s[0], t);
        [s[0]] + t
  }

  /** The ascending listing of a set of keys; `AscendingUnique` makes it the only one. */
  ghost function SortedKeys(keys: set<string>): (r: seq<string>)
    ensures Ascending(r) && Elements(r) == keys
    ensures forall i :: 0 <= i < |r| ==> r[i] in keys
  {
    if keys == {} then []
    else
      var x :| x in keys;
      InsertKey(x, SortedKeys(keys - {x}))
  }

  lemma IndexOfKey(keys: set<string>, key: string) returns (i: nat)
    requires key in keys
    ensures i < |SortedKeys(keys)| && SortedKeys(keys)[i] == key
  {
    assert key in Elements(SortedKeys(keys));
    i :| 0 <= i < |SortedKeys(keys)| && SortedKeys(keys)[i] == key;
  }

  lemma SortedKeysUnique(s: seq<string>)
    requires Ascending(s)
    ensures s == SortedKeys(Elements(s))
  {
    AscendingUnique(s, SortedKeys(Elements(s)));
  }

  /** A sorted sequence without repetitions is strictly ascending. */
  lemma SortedDistinctIsAscending(s: seq<string>)
    requires Sorted(s)
    requires forall i, j :: 0 <= i < j < |s| ==> s[i] != s[j]
    ensures Ascending(s)
  {
    forall i, j | 0 <= i < j < |s| ensures Less(s[i], s[j]) {
      LessTotal(s[i], s[j]);
    }
  }

  // ----- sortStrings, github/types.go -----

  /** The first `n` strings are sorted when position `j` is left out, and `s[j]` is below those after it. */
  predicate SortedButFor(s: seq<string>, n: nat, j: nat) {
    && j < n <= |s|
    && (forall a, b :: 0 <= a < b < n && a != j && b != j ==> AtMost(s[a], s[b]))
    && (forall b :: j < b < n ==> AtMost(s[j], s[b]))
  }

  predicate SortedUpTo(s: seq<string>, n: nat) {
    n <= |s| && forall a, b :: 0 <= a < b < n ==> AtMost(s[a], s[b])
  }

  function SwapBefore(s: seq<string>, j: nat): seq<string>
    requires 0 < j < |s|
  {
    s[j - 1 := s[j]][j := s[j - 1]]
  }

  lemma SwapDown(s: seq<string>, n: nat, j: nat)
    requires j > 0 && SortedButFor(s, n, j) && Less(s[j], s[j - 1])
    ensures SortedButFor(SwapBefore(s, j), n, j - 1)
    ensures multiset(SwapBefore(s, j)) == multiset(s)
  {
    if Less(s[j - 1], s[j]) {
      LessTrans(s[j], s[j - 1], s[j]);
      LessIrreflexive(s[j]);
    }
  }

  lemma SettledIsSorted(s: seq<string>, n: nat, j: nat)
    requires SortedButFor(s, n, j) && (j == 0 || AtMost(s[j - 1], s[j]))
    ensures SortedUpTo(s, n)
  {
    forall a, b | 0 <= a < b < n ensures AtMost(s[a], s[b]) {
      if b == j && a < j - 1 {
        AtMostTrans(s[a], s[j - 1], s[j]);
      }
    }
  }

  /** The inner loop: moves position `i` down to its place among the sorted strings before it. */
  method SinkIntoPlace(a: array<string>, i: nat)
    requires i < a.Length && SortedUpTo(a[..], i)
    modifies a
    ensures SortedUpTo(a[..], i + 1)
    ensures multiset(a[..]) == multiset(old(a[..]))
  {
    var j := i;
    while j > 0 && Less(a[j], a[j - 1])
      invariant 0 <= j <= i
      invariant SortedButFor(a[..], i + 1, j)
      invariant multiset(a[..]) == multiset(old(a[..]))
    {
      ghost var before := a[..];
      a[j - 1], a[j] := a[j], a[j - 1];
      assert a[..] == SwapBefore(before, j);
      SwapDown(before, i + 1, j);
      j := j - 1;
    }
    SettledIsSorted(a[..], i + 1, j);
  }

  method SortStrings(a: array<string>)
    modifies a
    ensures Sorted(a[..])
    ensures multiset(a[..]) == multiset(old(a[..]))
  {
    var i := 1;
    while i < a.Length
      invariant 1 <= i && (i <= a.Length || a.Length == 0)
      invariant i <= a.Length ==> SortedUpTo(a[..], i)
      invariant multiset(a[..]) == multiset(old(a[..]))
    {
      SinkIntoPlace(a, i);
      i := i + 1;
    }
  }

  /** Sorting any listing of a set without repetitions gives the set's one ascending listing. */
  lemma SortedListing(s: seq<string>, t: seq<string>, keys: set<string>)
    requires forall i, j :: 0 <= i < j < |s| ==> s[i] != s[j]
    requires Elements(s) == keys
    requires Sorted(t) && multiset(t) == multiset(s)
    ensures t == SortedKeys(keys)
  {
    assert forall x :: x in t <==> x in multiset(t);
    assert forall x :: x in s <==> x in multiset(s);
    assert Elements(t) == keys;
    DistinctMultiset(s);
    DistinctFromMultiset(t);
    SortedDistinctIsAscending(t);
    SortedKeysUnique(t);
  }

  lemma {:induction false} DistinctMultiset(s: seq<string>)
    requires forall i, j :: 0 <= i < j < |s| ==> s[i] != s[j]
    ensures forall x :: multiset(s)[x] <= 1
  {
    if s != [] {
      DistinctMultiset(s[1..]);
      assert s == [s[0]] + s[1..];
      assert s[0] !in s[1..];
    }
  }

  lemma DistinctFromMultiset(t: seq<string>)
    requires forall x :: multiset(t)[x] <= 1
    ensures forall i, j :: 0 <= i < j < |t| ==> t[i] != t[j]
  {
    forall i, j | 0 <= i < j < |t| ensures t[i] != t[j] {
      assert t == t[..j] + t[j..];
      assert t[..j][i] == t[i] && t[j..][0] == t[j];
      assert multiset(t) == multiset(t[..j]) + multiset(t[j..]);
      assert t[i] in multiset(t[..j]) && t[j] in multiset(t[j..]);
      assert t[i] == t[j] ==> multiset(t)[t[i]] >= 2;
    }
  }

  /** Collects a map's keys in whatever order the map yields them. */
  method ListKeys<V>(m: map<string, V>) returns (keys: array<string>)
    ensures fresh(keys)
    ensures Elements(keys[..]) == m.Keys
    ensures forall i, j :: 0 <= i < j < keys.Length ==> keys[i] != keys[j]
  {
    var left := m.Keys;
    var listed: seq<string> := [];
    while left != {}
      invariant left <= m.Keys
      invariant Elements(listed) == m.Keys - left
      invariant forall i, j :: 0 <= i < j < |listed| ==> listed[i] != listed[j]
      decreases left
    {
      var key :| key in left;
      assert key !in Elements(listed);
      assert Elements(listed + [key]) == Elements(listed) + {key};
      listed := listed + [key];
      left := left - {key};
    }
    keys := new string[|listed|](i requires 0 <= i < |listed| => listed[i]);
    assert keys[..] == listed;
  }

  /** The collect-then-sort that precedes every deterministic walk over a map. */
  method ListSortedKeys<V>(m: map<string, V>) returns (keys: array<string>)
    ensures fresh(keys)
    ensures keys[..] == SortedKeys(m.Keys)
  {
    keys := ListKeys(m);
    ghost var listed := keys[..];
    SortStrings(keys);
    SortedListing(listed, keys[..], m.Keys);
  }
}
