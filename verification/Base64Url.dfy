/** base64.RawURLEncoding: the alphabet of section 5 of RFC 4648, without padding. */
module Base64Url {

  predicate IsSextet(c: char) {
    'A' <= c <= 'Z' || 'a' <= c <= 'z' || '0' <= c <= '9' || c == '-' || c == '_'
  }

  function Digit64(n: nat): (c: char)
    requires n < 64
    ensures IsSextet(c)
  {
    if n < 26 then 'A' + n as char
    else if n < 52 then 'a' + (n - 26) as char
    else if n < 62 then '0' + (n - 52) as char
    else if n == 62 then '-' else '_'
  }

  predicate IsBytes(b: seq<nat>) {
    forall i :: 0 <= i < |b| ==> b[i] < 256
  }

  /** Three bytes make four characters; one or two left over make two or three. */
  function Encode(b: seq<nat>): (s: string)
    requires IsBytes(b)
    ensures |s| == (|b| * 4 + 2) / 3 && forall i :: 0 <= i < |s| ==> IsSextet(s[i])
  {
    if |b| == 0 then ""
    else if |b| == 1 then [Digit64(b[0] / 4), Digit64(b[0] % 4 * 16)]
    else if |b| == 2 then [Digit64(b[0] / 4), Digit64(b[0] % 4 * 16 + b[1] / 16), Digit64(b[1] % 16 * 4)]
    else
      [Digit64(b[0] / 4), Digit64(b[0] % 4 * 16 + b[1] / 16), Digit64(b[1] % 16 * 4 + b[2] / 64), Digit64(b[2] % 64)]
      + Encode(b[3..])
  }
}
