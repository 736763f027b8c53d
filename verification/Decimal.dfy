/** strconv.ParseInt and strconv.FormatInt in base 10. */
module Decimal {
  datatype Option<+T> = None | Some(value: T)

  const MIN_INT64 := -0x8000_0000_0000_0000
  const MAX_INT64 := 0x7fff_ffff_ffff_ffff

  predicate IsDigit(c: char) {
    '0' <= c <= '9'
  }

  predicate AllDigits(s: string) {
    forall i :: 0 <= i < |s| ==> IsDigit(s[i])
  }

  function Digit(n: nat): char
    requires n < 10
  {
    '0' + n as char
  }

  function Natural(n: nat): (s: string)
    ensures s != "" && AllDigits(s)
    ensures s[0] == '0' ==> n == 0 && |s| == 1
  {
    if n < 10 then [Digit(n)] else Natural(n / 10) + [Digit(n % 10)]
  }

  function FormatInt(n: int): string {
    if n < 0 then "-" + Natural(-n) else Natural(n)
  }

  function Value(s: string): nat
    requires AllDigits(s)
  {
    if s == "" then 0 else 10 * Value(s[..|s| - 1]) + (s[|s| - 1] as int - '0' as int)
  }

  function HexValue(c: char): (n: Option<nat>)
    ensures n.Some? ==> n.value < 16
  {
    if '0' <= c <= '9' then Some(c as int - '0' as int)
    else if 'a' <= c <= 'f' then Some(c as int - 'a' as int + 10)
    else if 'A' <= c <= 'F' then Some(c as int - 'A' as int + 10)
    else None
  }

  /** One optional sign, at least one digit, and a value that fits in 64 bits. */
  function ParseInt(s: string): Option<int> {
    var negative := s != "" && s[0] == '-';
    var digits := if s != "" && (s[0] == '-' || s[0] == '+') then s[1..] else s;
    if digits == "" || !AllDigits(digits) then None
    else
      var n: int := if negative then 0 - Value(digits) else Value(digits);
      if MIN_INT64 <= n <= MAX_INT64 then Some(n) else None
  }

  lemma {:induction false} ValueOfNatural(n: nat)
    ensures Value(Natural(n)) == n
  {
    if n >= 10 {
      ValueOfNatural(n / 10);
      var s := Natural(n);
      assert s[..|s| - 1] == Natural(n / 10);
      assert s[|s| - 1] == Digit(n % 10);
    }
  }

  lemma ParseNatural(n: nat)
    ensures ParseInt(Natural(n)) == if n <= MAX_INT64 then Some(n) else None
    ensures ParseInt("-" + Natural(n)) == if n <= MAX_INT64 + 1 then Some(0 - n) else None
  {
    var s := Natural(n);
    ValueOfNatural(n);
    assert IsDigit(s[0]);
    assert ("-" + s)[1..] == s;
  }

  /** Parsing undoes formatting on the whole 64-bit range. */
  lemma ParseFormat(n: int)
    ensures ParseInt(FormatInt(n)) == if MIN_INT64 <= n <= MAX_INT64 then Some(n) else None
  {
    ParseNatural(if n < 0 then -n else n);
  }

  lemma FormatIntInjective(m: int, n: int)
    requires FormatInt(m) == FormatInt(n)
    ensures m == n
  {
    var a, b := Natural(if m < 0 then -m else m), Natural(if n < 0 then -n else n);
    ValueOfNatural(if m < 0 then -m else m);
    ValueOfNatural(if n < 0 then -n else n);
    assert IsDigit(a[0]) && IsDigit(b[0]);
    if m < 0 {
      assert a == FormatInt(m)[1..] && b == FormatInt(n)[1..];
    }
  }
}
