/** Sorting by UTF-8 bytes, as Go does, sorts by code point. */
module Utf8 {
  import opened Ordering

  function Continuation(n: nat): nat {
    0x80 + n % 64
  }

  function Bytes(c: char): seq<nat> {
    var n := c as int;
    if n < 0x80 then [n]
    else if n < 0x800 then [0xC0 + n / 64, Continuation(n)]
    else if n < 0x10000 then [0xE0 + n / 64 / 64, Continuation(n / 64), Continuation(n)]
    else [0xF0 + n / 64 / 64 / 64, Continuation(n / 64 / 64), Continuation(n / 64), Continuation(n)]
  }

  function Encode(s: string): seq<nat> {
    if s == [] then [] else Bytes(s[0]) + Encode(s[1..])
  }

  predicate ByteLess(a: seq<nat>, b: seq<nat>) {
    b != [] && (a == [] || a[0] < b[0] || (a[0] == b[0] && ByteLess(a[1..], b[1..])))
  }

  lemma {:induction false} SamePrefix(p: seq<nat>, a: seq<nat>, b: seq<nat>)
    ensures ByteLess(p + a, p + b) <==> ByteLess(a, b)
  {
    if p == [] {
      assert p + a == a && p + b == b;
    } else {
      SamePrefix(p[1..], a, b);
      assert (p + a)[1..] == p[1..] + a && (p + b)[1..] == p[1..] + b;
    }
  }

  /** The first byte at which two sequences differ decides, whatever follows. */
  lemma DecidedAt(a: seq<nat>, b: seq<nat>, k: nat)
    requires DiffersAt(a, b, k)
    ensures ByteLess(a, b) && !ByteLess(b, a)
  {
    SamePrefix(a[..k], a[k..], b[k..]);
    SamePrefix(a[..k], b[k..], a[k..]);
    assert a == a[..k] + a[k..] && b == a[..k] + b[k..];
  }

  lemma SixBits(m: nat, n: nat)
    requires m < n
    ensures m / 64 < n / 64 || (m / 64 == n / 64 && Continuation(m) < Continuation(n))
  {
  }

  predicate DiffersAt(a: seq<nat>, b: seq<nat>, k: nat) {
    k < |a| && k < |b| && a[..k] == b[..k] && a[k] < b[k]
  }

  lemma SameLengthOrder(c: char, d: char) returns (k: nat)
    requires c < d && |Bytes(c)| == |Bytes(d)|
    ensures DiffersAt(Bytes(c), Bytes(d), k)
  {
    var m, n := c as int, d as int;
    SixBits(m, n);
    k := |Bytes(c)| - 1;
    if m / 64 < n / 64 && k > 0 {
      SixBits(m / 64, n / 64);
      k := k - 1;
      if m / 64 / 64 < n / 64 / 64 && k > 0 {
        SixBits(m / 64 / 64, n / 64 / 64);
        k := if m / 64 / 64 / 64 < n / 64 / 64 / 64 then 0 else k - 1;
      }
    }
  }

  /** The encodings of two characters first differ where their order is decided. */
  lemma CharacterOrder(c: char, d: char) returns (k: nat)
    requires c < d
    ensures DiffersAt(Bytes(c), Bytes(d), k)
  {
    if |Bytes(c)| < |Bytes(d)| {
      k := 0;
    } else {
      k := SameLengthOrder(c, d);
    }
  }

  /** The order `sort.Strings` uses (UTF-8 bytes) is the order `Less` uses (code points). */
  lemma {:induction false} Utf8OrderAgrees(a: string, b: string)
    ensures ByteLess(Encode(a), Encode(b)) <==> Less(a, b)
  {
    if a != [] && b != [] {
      if a[0] == b[0] {
        Utf8OrderAgrees(a[1..], b[1..]);
        SamePrefix(Bytes(a[0]), Encode(a[1..]), Encode(b[1..]));
      } else {
        var lo, hi := if a[0] < b[0] then a else b, if a[0] < b[0] then b else a;
        var k := CharacterOrder(lo[0], hi[0]);
        assert Encode(lo)[..k] == Bytes(lo[0])[..k] && Encode(hi)[..k] == Bytes(hi[0])[..k];
        DecidedAt(Encode(lo), Encode(hi), k);
      }
    }
  }
}
