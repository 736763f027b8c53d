/** s3/s3.go: the escaping behind SigV4's canonical request.
    A Go string is a sequence of bytes; here each byte is a character below 256. */
module Escaping {
  import opened Decimal
  import opened Ordering
  import opened Text

  predicate Octets(s: string) {
    forall i :: 0 <= i < |s| ==> s[i] as int < 256
  }

  /** The unreserved characters of RFC 3986, section 2.3. */
  predicate Unreserved(c: char) {
    'a' <= c <= 'z' || 'A' <= c <= 'Z' || '0' <= c <= '9' || c == '-' || c == '.' || c == '_' || c == '~'
  }

  function UpperHex(n: nat): char
    requires n < 16
  {
    if n < 10 then '0' + n as char else 'A' + (n - 10) as char
  }

  function Percent(c: char): string {
    ['%', UpperHex(c as int / 16 % 16), UpperHex(c as int % 16)]
  }

  // ----- Two passes and one -----

  /** url.QueryEscape on one byte. */
  function QueryEscapeByte(c: char): string {
    if Unreserved(c) then [c] else if c == ' ' then "+" else Percent(c)
  }

  function QueryEscape(s: string): string {
    if s == "" then "" else QueryEscapeByte(s[0]) + QueryEscape(s[1..])
  }

  /** strings.ReplaceAll(s, "+", "%20"). */
  function ReplacePlus(s: string): string {
    if s == "" then ""
    else if s[0] == '+' then "%20" + ReplacePlus(s[1..])
    else [s[0]] + ReplacePlus(s[1..])
  }

  function Rfc3986Escape(value: string): string {
    ReplacePlus(QueryEscape(value))
  }

  /** Percent-encoding as RFC 3986, section 2.1, has it: everything but the unreserved characters. */
  function EncodeByte(c: char): string {
    if Unreserved(c) then [c] else Percent(c)
  }

  function PercentEncode(s: string): string {
    if s == "" then "" else EncodeByte(s[0]) + PercentEncode(s[1..])
  }

  lemma {:induction false} ReplacePlusJoin(a: string, b: string)
    ensures ReplacePlus(a + b) == ReplacePlus(a) + ReplacePlus(b)
  {
    if a == "" {
      assert a + b == b;
    } else {
      ReplacePlusJoin(a[1..], b);
      assert (a + b)[1..] == a[1..] + b;
      Concatenated(if a[0] == '+' then "%20" else [a[0]], ReplacePlus(a[1..]), ReplacePlus(b));
    }
  }

  lemma ReplacePlusByte(c: char)
    ensures ReplacePlus(QueryEscapeByte(c)) == EncodeByte(c)
  {
    var e := QueryEscapeByte(c);
    if |e| == 1 {
      assert e[1..] == "";
      assert c == ' ' ==> Percent(c) == "%20";
    } else {
      assert e[1..][1..][1..] == "";
      assert e[1..] == [e[1], e[2]] && e[1..][1..] == [e[2]];
      assert ReplacePlus([e[2]]) == [e[2]] + ReplacePlus("");
    }
  }

  /** The two passes of rfc3986Escape are one pass of percent-encoding. */
  lemma {:induction false} TwoPassesAreOne(s: string)
    ensures Rfc3986Escape(s) == PercentEncode(s)
  {
    if s != "" {
      ReplacePlusByte(s[0]);
      ReplacePlusJoin(QueryEscapeByte(s[0]), QueryEscape(s[1..]));
      TwoPassesAreOne(s[1..]);
    }
  }

  // ----- Decoding -----

  /** url.PathUnescape, and url.QueryUnescape when a plus stands for a space. */
  function Unescape(s: string, plus: char): Option<string> {
    if s == "" then Some("")
    else if s[0] == '%' then
      if |s| < 3 || HexValue(s[1]).None? || HexValue(s[2]).None? then None
      else
        match Unescape(s[3..], plus)
        case None => None
        case Some(rest) => Some([(HexValue(s[1]).value * 16 + HexValue(s[2]).value) as char] + rest)
    else
      match Unescape(s[1..], plus)
      case None => None
      case Some(rest) => Some([if s[0] == '+' then plus else s[0]] + rest)
  }

  function PathUnescape(s: string): Option<string> {
    Unescape(s, '+')
  }

  function QueryUnescape(s: string): Option<string> {
    Unescape(s, ' ')
  }

  lemma HexRead(n: nat)
    requires n < 16
    ensures HexValue(UpperHex(n)) == Some(n)
  {
  }

  lemma UnescapePercent(c: char, rest: string, plus: char)
    requires c as int < 256 && Unescape(rest, plus).Some?
    ensures Unescape(Percent(c) + rest, plus) == Some([c] + Unescape(rest, plus).value)
  {
    var s := Percent(c) + rest;
    HexRead(c as int / 16 % 16);
    HexRead(c as int % 16);
    assert c as int / 16 % 16 * 16 + c as int % 16 == c as int;
    assert s[1] == Percent(c)[1] && s[2] == Percent(c)[2] && s[3..] == rest;
  }

  lemma UnescapePlain(c: char, rest: string, plus: char)
    requires c != '%' && Unescape(rest, plus).Some?
    ensures Unescape([c] + rest, plus) == Some([if c == '+' then plus else c] + Unescape(rest, plus).value)
  {
    assert ([c] + rest)[1..] == rest;
  }

  /** Percent-decoding undoes percent-encoding, whatever a plus means. */
  lemma {:induction false} DecodeEncode(s: string, plus: char)
    requires Octets(s)
    ensures Unescape(PercentEncode(s), plus) == Some(s)
  {
    if s != "" {
      DecodeEncode(s[1..], plus);
      if Unreserved(s[0]) {
        UnescapePlain(s[0], PercentEncode(s[1..]), plus);
      } else {
        UnescapePercent(s[0], PercentEncode(s[1..]), plus);
      }
      assert s == [s[0]] + s[1..];
    }
  }

  /** QueryUnescape undoes QueryEscape, the form the query takes on the wire. */
  lemma {:induction false} QueryRoundTrip(s: string)
    requires Octets(s)
    ensures QueryUnescape(QueryEscape(s)) == Some(s)
  {
    if s != "" {
      QueryRoundTrip(s[1..]);
      if Unreserved(s[0]) || s[0] == ' ' {
        UnescapePlain(if s[0] == ' ' then '+' else s[0], QueryEscape(s[1..]), ' ');
      } else {
        UnescapePercent(s[0], QueryEscape(s[1..]), ' ');
      }
      assert s == [s[0]] + s[1..];
    }
  }

  lemma {:induction false} UnescapeJoin(a: string, b: string, plus: char)
    requires Unescape(a, plus).Some? && Unescape(b, plus).Some?
    ensures Unescape(a + b, plus) == Some(Unescape(a, plus).value + Unescape(b, plus).value)
    decreases |a|
  {
    if a == "" {
      assert a + b == b && "" + Unescape(b, plus).value == Unescape(b, plus).value;
    } else {
      var step := if a[0] == '%' then 3 else 1;
      UnescapeJoin(a[step..], b, plus);
      assert (a + b)[step..] == a[step..] + b;
      Concatenated([Unescape(a, plus).value[0]], Unescape(a[step..], plus).value, Unescape(b, plus).value);
    }
  }

  lemma {:induction false} EscapedHasOnly(s: string)
    ensures forall c :: c in PercentEncode(s) ==> Unreserved(c) || c == '%'
  {
    if s != "" {
      EscapedHasOnly(s[1..]);
    }
  }

  lemma {:induction false} QueryEscapeHasOnly(s: string)
    ensures forall c :: c in QueryEscape(s) ==> Unreserved(c) || c == '%' || c == '+'
  {
    if s != "" {
      QueryEscapeHasOnly(s[1..]);
    }
  }

  // ----- Encoding and order -----

  /** At the first difference the smaller text has an unreserved byte and the larger an escaped one. */
  predicate Misordered(x: string, y: string) {
    x != "" && y != ""
    && if x[0] == y[0] then Misordered(x[1..], y[1..]) else Unreserved(x[0]) && !Unreserved(y[0])
  }

  lemma LessAfter(prefix: string, x: string, y: string)
    ensures Less(prefix + x, prefix + y) <==> Less(x, y)
  {
    if prefix == "" {
      assert prefix + x == x && prefix + y == y;
    } else {
      LessAfter(prefix[1..], x, y);
      assert (prefix + x)[1..] == prefix[1..] + x && (prefix + y)[1..] == prefix[1..] + y;
    }
  }

  lemma UpperHexOrder(m: nat, n: nat)
    requires m < 16 && n < 16
    ensures UpperHex(m) < UpperHex(n) <==> m < n
    ensures UpperHex(m) == UpperHex(n) <==> m == n
  {
  }

  lemma EscapedByteOrder(c: char, d: char, s: string, t: string)
    requires c < d && d as int < 256
    ensures Less(Percent(c) + s, Percent(d) + t) && !Less(Percent(d) + t, Percent(c) + s)
  {
    var x, y := Percent(c) + s, Percent(d) + t;
    UpperHexOrder(c as int / 16, d as int / 16);
    UpperHexOrder(c as int % 16, d as int % 16);
    assert x[1..][0] == UpperHex(c as int / 16) && y[1..][0] == UpperHex(d as int / 16);
    assert x[1..][1..][0] == UpperHex(c as int % 16) && y[1..][1..][0] == UpperHex(d as int % 16);
    if Less(y, x) {
      LessTrans(x, y, x);
      LessIrreflexive(x);
    }
  }

  /** Sorting raw names sorts the encoded ones except where a pair is misordered, and there it is
      exactly wrong. */
  lemma {:induction false} EncodedOrderExactly(x: string, y: string)
    requires Octets(x) && Octets(y) && Less(x, y)
    ensures Less(PercentEncode(x), PercentEncode(y)) <==> !Misordered(x, y)
    ensures Less(PercentEncode(y), PercentEncode(x)) <==> Misordered(x, y)
  {
    if x == "" {
    } else if x[0] == y[0] {
      EncodedOrderExactly(x[1..], y[1..]);
      LessAfter(EncodeByte(x[0]), PercentEncode(x[1..]), PercentEncode(y[1..]));
      LessAfter(EncodeByte(x[0]), PercentEncode(y[1..]), PercentEncode(x[1..]));
    } else if !Unreserved(x[0]) && !Unreserved(y[0]) {
      EscapedByteOrder(x[0], y[0], PercentEncode(x[1..]), PercentEncode(y[1..]));
    }
  }

  lemma MisorderedExample()
    ensures Less("a", "|") && Less(PercentEncode("|"), PercentEncode("a"))
  {
    assert Misordered("a", "|");
    EncodedOrderExactly("a", "|");
  }

  /** Names made of unreserved bytes are their own encoding, so no two of them are misordered. */
  lemma {:induction false} UnreservedNames(x: string, y: string)
    requires forall i :: 0 <= i < |y| ==> Unreserved(y[i])
    ensures PercentEncode(y) == y && !Misordered(x, y)
  {
    if y != "" {
      UnreservedNames(if x == "" then "" else x[1..], y[1..]);
      assert y == [y[0]] + y[1..];
    }
  }
}
