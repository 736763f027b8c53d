/** JSON text (RFC 8259): ordered syntax trees, the compact printer both
    encoding/json and foundryoperator use, and a parser for sections 2 to 7. */
module Json {
  import opened Decimal

  /** Members keep the order, and the repetitions, in which they are written. */
  datatype Tree =
    | TNull
    | TBool(b: bool)
    | TNum(token: string)
    | TStr(s: string)
    | TArr(items: seq<Tree>)
    | TObj(members: seq<Member>)

  datatype Member = Member(key: string, value: Tree)

  /** `HtmlSafe` is json.Marshal's default, which also escapes `<`, `>`, `&`, U+2028 and U+2029. */
  datatype Style = Plain | HtmlSafe

  type Parsed<T> = Option<(T, string)>

  // ----- Printing -----

  function HexDigit(n: nat): char
    requires n < 16
  {
    if n < 10 then '0' + n as char else 'a' + (n - 10) as char
  }

  function Hex4(n: nat): string
    requires n < 0x10000
  {
    [HexDigit(n / 16 / 16 / 16), HexDigit(n / 16 / 16 % 16), HexDigit(n / 16 % 16), HexDigit(n % 16)]
  }

  predicate HtmlSensitive(c: char) {
    c == '<' || c == '>' || c == '&' || c == '\U{2028}' || c == '\U{2029}'
  }

  function Escape(c: char, style: Style): string {
    if c == '"' || c == '\\' then ['\\', c]
    else if c == '\U{8}' then "\\b"
    else if c == '\U{c}' then "\\f"
    else if c == '\n' then "\\n"
    else if c == '\r' then "\\r"
    else if c == '\t' then "\\t"
    else if c < ' ' || (style == HtmlSafe && HtmlSensitive(c)) then "\\u" + Hex4(c as int)
    else [c]
  }

  function EscapeAll(s: string, style: Style): string {
    if s == "" then "" else Escape(s[0], style) + EscapeAll(s[1..], style)
  }

  function Quote(s: string, style: Style): string {
    "\"" + EscapeAll(s, style) + "\""
  }

  function Render(t: Tree, style: Style): string {
    match t
    case TNull => "null"
    case TBool(b) => if b then "true" else "false"
    case TNum(token) => token
    case TStr(s) => Quote(s, style)
    case TArr(items) => "[" + RenderItems(items, style) + "]"
    case TObj(members) => "{" + RenderMembers(members, style) + "}"
  }

  function RenderItems(items: seq<Tree>, style: Style): string {
    if items == [] then ""
    else if |items| == 1 then Render(items[0], style)
    else Render(items[0], style) + "," + RenderItems(items[1..], style)
  }

  function RenderMember(m: Member, style: Style): string {
    Quote(m.key, style) + ":" + Render(m.value, style)
  }

  function RenderMembers(members: seq<Member>, style: Style): string {
    if members == [] then ""
    else if |members| == 1 then RenderMember(members[0], style)
    else RenderMember(members[0], style) + "," + RenderMembers(members[1..], style)
  }

  // ----- Numbers: section 6 -----

  /** How many leading characters are digits. */
  function Digits(s: string): (n: nat)
    ensures n <= |s|
  {
    if s != "" && IsDigit(s[0]) then 1 + Digits(s[1..]) else 0
  }

  /** The length of the integer part at the front of `s`: `0`, or digits with no leading zero. */
  function IntPart(s: string): (n: Option<nat>)
    ensures n.Some? ==> 0 < n.value <= |s|
  {
    if s == "" || !IsDigit(s[0]) then None
    else if s[0] == '0' then Some(1)
    else Some(Digits(s))
  }

  function FractionPart(s: string): (n: Option<nat>)
    ensures n.Some? ==> n.value <= |s|
  {
    if s == "" || s[0] != '.' then Some(0)
    else if Digits(s[1..]) == 0 then None
    else Some(1 + Digits(s[1..]))
  }

  function ExponentPart(s: string): (n: Option<nat>)
    ensures n.Some? ==> n.value <= |s|
  {
    if s == "" || (s[0] != 'e' && s[0] != 'E') then Some(0)
    else
      var sign := if |s| > 1 && (s[1] == '+' || s[1] == '-') then 2 else 1;
      if Digits(s[sign..]) == 0 then None else Some(sign + Digits(s[sign..]))
  }

  /** The length of the sign and the integer part at the front of `s`. */
  function IntegerLength(s: string): (n: Option<nat>)
    ensures n.Some? ==> 0 < n.value <= |s|
  {
    var minus := if s != "" && s[0] == '-' then 1 else 0;
    match IntPart(s[minus..])
    case None => None
    case Some(whole) => Some(minus + whole)
  }

  function MantissaLength(s: string): (n: Option<nat>)
    ensures n.Some? ==> 0 < n.value <= |s|
  {
    match IntegerLength(s)
    case None => None
    case Some(whole) =>
      match FractionPart(s[whole..])
      case None => None
      case Some(fraction) => Some(whole + fraction)
  }

  /** The length of the number at the front of `s`. */
  function NumberLength(s: string): (n: Option<nat>)
    ensures n.Some? ==> 0 < n.value <= |s|
  {
    match MantissaLength(s)
    case None => None
    case Some(mantissa) =>
      match ExponentPart(s[mantissa..])
      case None => None
      case Some(exponent) => Some(mantissa + exponent)
  }

  predicate ValidNumber(token: string) {
    NumberLength(token) == Some(|token|)
  }

  // ----- Strings: section 7 -----

  function CodeUnit(s: string): (n: Option<nat>)
    ensures n.Some? ==> |s| >= 4 && n.value < 0x10000
  {
    if |s| < 4 then None
    else
      match (HexValue(s[0]), HexValue(s[1]), HexValue(s[2]), HexValue(s[3]))
      case (Some(a), Some(b), Some(c), Some(d)) => Some(a * 4096 + b * 256 + c * 16 + d)
      case _ => None
  }

  const REPLACEMENT: char := '\U{FFFD}'

  /** `s` follows a `\u`.  A surrogate pair is one character; an unpaired surrogate,
      which RFC 8259 leaves open, becomes U+FFFD as encoding/json has it. */
  function UnicodeEscape(s: string): (r: Parsed<char>)
    ensures r.Some? ==> |r.value.1| < |s|
  {
    match CodeUnit(s)
    case None => None
    case Some(n) =>
      if n < 0xD800 || 0xE000 <= n then Some((n as char, s[4..]))
      else if n < 0xDC00 && |s| >= 6 && s[4] == '\\' && s[5] == 'u' && CodeUnit(s[6..]).Some?
           && 0xDC00 <= CodeUnit(s[6..]).value < 0xE000 then
        Some(((0x10000 + (n - 0xD800) * 0x400 + (CodeUnit(s[6..]).value - 0xDC00)) as char, s[10..]))
      else Some((REPLACEMENT, s[4..]))
  }

  /** The next character of a string body. */
  function ParseChar(s: string): (r: Parsed<char>)
    ensures r.Some? ==> |r.value.1| < |s|
  {
    if s == "" || s[0] == '"' || s[0] < ' ' then None
    else if s[0] != '\\' then Some((s[0], s[1..]))
    else if |s| == 1 then None
    else
      var rest := s[2..];
      match s[1]
      case '"' => Some(('"', rest))
      case '\\' => Some(('\\', rest))
      case '/' => Some(('/', rest))
      case 'b' => Some(('\U{8}', rest))
      case 'f' => Some(('\U{c}', rest))
      case 'n' => Some(('\n', rest))
      case 'r' => Some(('\r', rest))
      case 't' => Some(('\t', rest))
      case 'u' => UnicodeEscape(rest)
      case _ => None
  }

  /** `s` follows the opening quotation mark. */
  function ParseString(s: string): (r: Parsed<string>)
    ensures r.Some? ==> |r.value.1| < |s|
    decreases |s|
  {
    if s != "" && s[0] == '"' then Some(("", s[1..]))
    else
      match ParseChar(s)
      case None => None
      case Some((c, rest)) =>
        match ParseString(rest)
        case None => None
        case Some((tail, end)) => Some(([c] + tail, end))
  }

  // ----- Values: sections 2 to 5 -----

  predicate IsSpace(c: char) {
    c == ' ' || c == '\t' || c == '\n' || c == '\r'
  }

  function SkipSpace(s: string): (r: string)
    ensures |r| <= |s|
  {
    if s != "" && IsSpace(s[0]) then SkipSpace(s[1..]) else s
  }

  /** A literal name or a number. */
  function ParseWord(s: string): (r: Parsed<Tree>)
    ensures r.Some? ==> |r.value.1| < |s|
  {
    if "null" <= s then Some((TNull, s[4..]))
    else if "true" <= s then Some((TBool(true), s[4..]))
    else if "false" <= s then Some((TBool(false), s[5..]))
    else
      match NumberLength(s)
      case None => None
      case Some(n) => Some((TNum(s[..n]), s[n..]))
  }

  function ParseValue(text: string): (r: Parsed<Tree>)
    ensures r.Some? ==> |r.value.1| < |text|
    decreases |text|, 0
  {
    var s := SkipSpace(text);
    if s == "" then None
    else if s[0] == '"' then
      match ParseString(s[1..])
      case None => None
      case Some((v, rest)) => Some((TStr(v), rest))
    else if s[0] == '[' then
      var inner := SkipSpace(s[1..]);
      if inner != "" && inner[0] == ']' then Some((TArr([]), inner[1..]))
      else
        match ParseItems(inner)
        case None => None
        case Some((items, rest)) => Some((TArr(items), rest))
    else if s[0] == '{' then
      var inner := SkipSpace(s[1..]);
      if inner != "" && inner[0] == '}' then Some((TObj([]), inner[1..]))
      else
        match ParseMembers(inner)
        case None => None
        case Some((members, rest)) => Some((TObj(members), rest))
    else ParseWord(s)
  }

  /** One or more items and the closing bracket. */
  function ParseItems(s: string): (r: Parsed<seq<Tree>>)
    ensures r.Some? ==> |r.value.1| < |s|
    decreases |s|, 1
  {
    match ParseValue(s)
    case None => None
    case Some((item, after)) =>
      var rest := SkipSpace(after);
      if rest != "" && rest[0] == ']' then Some(([item], rest[1..]))
      else if rest != "" && rest[0] == ',' then
        match ParseItems(rest[1..])
        case None => None
        case Some((items, end)) => Some(([item] + items, end))
      else None
  }

  function ParseMember(text: string): (r: Parsed<Member>)
    ensures r.Some? ==> |r.value.1| < |text|
    decreases |text|, 1
  {
    var s := SkipSpace(text);
    if s == "" || s[0] != '"' then None
    else
      match ParseString(s[1..])
      case None => None
      case Some((key, after)) =>
        var rest := SkipSpace(after);
        if rest == "" || rest[0] != ':' then None
        else
          match ParseValue(rest[1..])
          case None => None
          case Some((value, end)) => Some((Member(key, value), end))
  }

  /** One or more members and the closing brace. */
  function ParseMembers(s: string): (r: Parsed<seq<Member>>)
    ensures r.Some? ==> |r.value.1| < |s|
    decreases |s|, 2
  {
    match ParseMember(s)
    case None => None
    case Some((member, after)) =>
      var rest := SkipSpace(after);
      if rest != "" && rest[0] == '}' then Some(([member], rest[1..]))
      else if rest != "" && rest[0] == ',' then
        match ParseMembers(rest[1..])
        case None => None
        case Some((members, end)) => Some(([member] + members, end))
      else None
  }

  /** A whole text: one value and nothing but white space after it. */
  function Parse(text: string): Option<Tree> {
    match ParseValue(text)
    case None => None
    case Some((t, rest)) => if SkipSpace(rest) == "" then Some(t) else None
  }

  // ----- The parser undoes the printer -----

  predicate ValidNumbers(t: Tree) {
    match t
    case TNum(token) => ValidNumber(token)
    case TArr(items) => forall i :: 0 <= i < |items| ==> ValidNumbers(items[i])
    case TObj(members) => forall i :: 0 <= i < |members| ==> ValidNumbers(members[i].value)
    case _ => true
  }

  /** What may follow a value inside a text, or nothing at all. */
  predicate Delimited(rest: string) {
    rest == "" || rest[0] == ',' || rest[0] == ']' || rest[0] == '}'
  }

  lemma CharRoundTrip(c: char, style: Style, rest: string)
    ensures ParseChar(Escape(c, style) + rest) == Some((c, rest))
    ensures Escape(c, style) + rest != "" && (Escape(c, style) + rest)[0] != '"'
  {
    var text := Escape(c, style) + rest;
    if |Escape(c, style)| == 6 {
      var n := c as int;
      assert text[2..] == Hex4(n) + rest && text[1] == 'u';
      HexRoundTrip(n, rest);
    } else if |Escape(c, style)| == 2 {
      assert text[2..] == rest;
    } else {
      assert text[1..] == rest;
    }
  }

  lemma HexInverse(d: nat)
    requires d < 16
    ensures HexValue(HexDigit(d)) == Some(d)
  {
  }

  lemma HexRoundTrip(n: nat, rest: string)
    requires n < 0x10000
    ensures CodeUnit(Hex4(n) + rest) == Some(n)
    ensures (Hex4(n) + rest)[4..] == rest
  {
    var text := Hex4(n) + rest;
    HexInverse(n / 16 / 16 / 16);
    HexInverse(n / 16 / 16 % 16);
    HexInverse(n / 16 % 16);
    HexInverse(n % 16);
    assert text[0] == Hex4(n)[0] && text[1] == Hex4(n)[1] && text[2] == Hex4(n)[2] && text[3] == Hex4(n)[3];
  }

  lemma StringStep(c: char, style: Style, tail: string, s: string, rest: string)
    requires ParseString(tail) == Some((s, rest))
    ensures ParseString(Escape(c, style) + tail) == Some(([c] + s, rest))
  {
    CharRoundTrip(c, style, tail);
  }

  lemma {:induction false} StringRoundTrip(s: string, style: Style, rest: string)
    ensures ParseString(EscapeAll(s, style) + "\"" + rest) == Some((s, rest))
  {
    var text := EscapeAll(s, style) + "\"" + rest;
    if s == "" {
      assert text[1..] == rest;
    } else {
      var tail := EscapeAll(s[1..], style) + "\"" + rest;
      assert text == Escape(s[0], style) + tail;
      StringRoundTrip(s[1..], style, rest);
      StringStep(s[0], style, tail, s[1..], rest);
      assert s == [s[0]] + s[1..];
    }
  }

  lemma {:induction false} DigitsStop(s: string, rest: string)
    requires rest == "" || !IsDigit(rest[0])
    ensures Digits(s + rest) == Digits(s)
  {
    if s == "" {
      assert s + rest == rest;
    } else {
      DigitsStop(s[1..], rest);
      assert (s + rest)[1..] == s[1..] + rest;
    }
  }

  /** A delimiter ends a number: it changes no part of the count. */
  lemma PartsStop(s: string, rest: string)
    requires Delimited(rest)
    ensures IntPart(s + rest) == IntPart(s)
    ensures FractionPart(s + rest) == FractionPart(s)
  {
    DigitsStop(s, rest);
    if s == "" {
      assert s + rest == rest;
    } else {
      assert (s + rest)[1..] == s[1..] + rest;
      DigitsStop(s[1..], rest);
    }
  }

  lemma ExponentStop(s: string, rest: string)
    requires Delimited(rest)
    ensures ExponentPart(s + rest) == ExponentPart(s)
  {
    if s == "" {
      assert s + rest == rest;
    } else {
      var sign := if |s| > 1 && (s[1] == '+' || s[1] == '-') then 2 else 1;
      assert (s + rest)[sign..] == s[sign..] + rest;
      DigitsStop(s[sign..], rest);
    }
  }

  /** Suffixes of a token and of the text it begins differ by what follows the token. */
  lemma SuffixOfText(token: string, rest: string, i: nat)
    requires i <= |token|
    ensures (token + rest)[i..] == token[i..] + rest
  {
  }

  lemma MantissaStop(token: string, rest: string)
    requires Delimited(rest) && IntegerLength(token).Some?
    ensures IntegerLength(token + rest) == IntegerLength(token)
    ensures MantissaLength(token + rest) == MantissaLength(token)
  {
    var minus := if token[0] == '-' then 1 else 0;
    SuffixOfText(token, rest, minus);
    PartsStop(token[minus..], rest);
    var whole := IntegerLength(token).value;
    SuffixOfText(token, rest, whole);
    PartsStop(token[whole..], rest);
  }

  lemma NumberRoundTrip(token: string, rest: string)
    requires ValidNumber(token) && Delimited(rest)
    ensures NumberLength(token + rest) == Some(|token|)
  {
    MantissaStop(token, rest);
    var mantissa := MantissaLength(token).value;
    SuffixOfText(token, rest, mantissa);
    ExponentStop(token[mantissa..], rest);
  }

  lemma NumberFirst(token: string)
    requires ValidNumber(token)
    ensures token != "" && (token[0] == '-' || IsDigit(token[0]))
  {
  }

  /** No value begins with white space, a closing bracket or a closing brace. */
  lemma FirstCharacter(t: Tree, style: Style)
    requires ValidNumbers(t)
    ensures Render(t, style) != ""
    ensures var c := Render(t, style)[0]; !IsSpace(c) && c != ']' && c != '}'
  {
    if t.TNum? {
      NumberFirst(t.token);
    }
  }

  /** Text that a container's opening bracket may be followed by. */
  predicate Starts(s: string, close: char) {
    s != "" && !IsSpace(s[0]) && s[0] != close
  }

  lemma ArrayText(body: string, items: seq<Tree>, rest: string)
    requires Starts(body, ']') && ParseItems(body) == Some((items, rest))
    ensures ParseValue("[" + body) == Some((TArr(items), rest))
  {
    var s := "[" + body;
    assert s[0] == '[' && s[1..] == body;
    assert SkipSpace(s) == s && SkipSpace(body) == body;
  }

  lemma ObjectText(body: string, members: seq<Member>, rest: string)
    requires Starts(body, '}') && ParseMembers(body) == Some((members, rest))
    ensures ParseValue("{" + body) == Some((TObj(members), rest))
  {
    var s := "{" + body;
    assert s[0] == '{' && s[1..] == body;
    assert SkipSpace(s) == s && SkipSpace(body) == body;
  }

  lemma EmptyContainers(rest: string)
    ensures ParseValue("[]" + rest) == Some((TArr([]), rest))
    ensures ParseValue("{}" + rest) == Some((TObj([]), rest))
  {
    var a, o := "[]" + rest, "{}" + rest;
    assert a[0] == '[' && a[1..] == "]" + rest && a[1..][1..] == rest;
    assert o[0] == '{' && o[1..] == "}" + rest && o[1..][1..] == rest;
    assert SkipSpace(a) == a && SkipSpace(o) == o;
    assert SkipSpace(a[1..]) == a[1..] && SkipSpace(o[1..]) == o[1..];
  }

  lemma LastItem(text: string, item: Tree, rest: string)
    requires ParseValue(text) == Some((item, "]" + rest))
    ensures ParseItems(text) == Some(([item], rest))
  {
    var after := "]" + rest;
    assert SkipSpace(after) == after && after[1..] == rest;
  }

  lemma NextItem(text: string, item: Tree, tail: string, items: seq<Tree>, rest: string)
    requires ParseValue(text) == Some((item, "," + tail))
    requires ParseItems(tail) == Some((items, rest))
    ensures ParseItems(text) == Some(([item] + items, rest))
  {
    var after := "," + tail;
    assert SkipSpace(after) == after && after[1..] == tail;
  }

  lemma LastMember(text: string, member: Member, rest: string)
    requires ParseMember(text) == Some((member, "}" + rest))
    ensures ParseMembers(text) == Some(([member], rest))
  {
    var after := "}" + rest;
    assert SkipSpace(after) == after && after[1..] == rest;
  }

  lemma NextMember(text: string, member: Member, tail: string, members: seq<Member>, rest: string)
    requires ParseMember(text) == Some((member, "," + tail))
    requires ParseMembers(tail) == Some((members, rest))
    ensures ParseMembers(text) == Some(([member] + members, rest))
  {
    var after := "," + tail;
    assert SkipSpace(after) == after && after[1..] == tail;
  }

  lemma WordText(text: string)
    requires text != "" && !IsSpace(text[0])
    requires text[0] != '"' && text[0] != '[' && text[0] != '{'
    ensures ParseValue(text) == ParseWord(text)
  {
    assert SkipSpace(text) == text;
  }

  lemma LiteralText(t: Tree, style: Style, rest: string)
    requires t.TNull? || t.TBool?
    ensures ParseValue(Render(t, style) + rest) == Some((t, rest))
  {
    var word := Render(t, style);
    var text := word + rest;
    WordText(text);
    assert word <= text && text[|word|..] == rest;
  }

  lemma NumberWord(text: string, n: nat)
    requires text != "" && (text[0] == '-' || IsDigit(text[0]))
    requires NumberLength(text) == Some(n)
    ensures ParseWord(text) == Some((TNum(text[..n]), text[n..]))
  {
  }

  lemma NumberText(token: string, rest: string)
    requires ValidNumber(token) && Delimited(rest)
    ensures ParseValue(token + rest) == Some((TNum(token), rest))
  {
    var text := token + rest;
    assert text[..|token|] == token && text[|token|..] == rest;
    NumberFirst(token);
    WordText(text);
    NumberRoundTrip(token, rest);
    NumberWord(text, |token|);
  }

  lemma ScalarRoundTrip(t: Tree, style: Style, rest: string)
    requires !t.TArr? && !t.TObj? && ValidNumbers(t) && Delimited(rest)
    ensures ParseValue(Render(t, style) + rest) == Some((t, rest))
  {
    match t
    case TNum(token) =>
      NumberText(token, rest);
    case TStr(s) =>
      KeyText(s, style, rest);
      assert SkipSpace(Quote(s, style) + rest) == Quote(s, style) + rest;
    case _ =>
      LiteralText(t, style, rest);
  }

  lemma Enclosed(open: string, inner: string, close: string, rest: string)
    ensures open + inner + close + rest == open + (inner + close + rest)
  {
  }

  lemma ArrayRoundTrip(items: seq<Tree>, style: Style, rest: string)
    requires items != [] && ValidNumbers(items[0])
    requires ParseItems(RenderItems(items, style) + "]" + rest) == Some((items, rest))
    ensures ParseValue(Render(TArr(items), style) + rest) == Some((TArr(items), rest))
  {
    var body := RenderItems(items, style) + "]" + rest;
    assert Starts(body, ']') by {
      FirstCharacter(items[0], style);
      assert body[0] == Render(items[0], style)[0];
    }
    ArrayText(body, items, rest);
    Enclosed("[", RenderItems(items, style), "]", rest);
  }

  lemma MembersStart(members: seq<Member>, style: Style)
    requires members != []
    ensures RenderMembers(members, style) != "" && RenderMembers(members, style)[0] == '"'
  {
    assert RenderMember(members[0], style)[0] == '"';
  }

  lemma ObjectRoundTrip(members: seq<Member>, style: Style, rest: string)
    requires members != []
    requires ParseMembers(RenderMembers(members, style) + "}" + rest) == Some((members, rest))
    ensures ParseValue(Render(TObj(members), style) + rest) == Some((TObj(members), rest))
  {
    var inner := RenderMembers(members, style);
    MembersStart(members, style);
    ObjectText(inner + "}" + rest, members, rest);
    Enclosed("{", inner, "}", rest);
  }

  lemma {:induction false} ValueRoundTrip(t: Tree, style: Style, rest: string)
    requires ValidNumbers(t) && Delimited(rest)
    ensures ParseValue(Render(t, style) + rest) == Some((t, rest))
    decreases t, 0
  {
    if t.TArr? && t.items != [] {
      ItemsRoundTrip(t.items, style, rest);
      ArrayRoundTrip(t.items, style, rest);
    } else if t.TObj? && t.members != [] {
      MembersRoundTrip(t.members, style, rest);
      ObjectRoundTrip(t.members, style, rest);
    } else if t.TArr? || t.TObj? {
      EmptyContainers(rest);
      assert Render(t, style) == if t.TArr? then "[]" else "{}";
    } else {
      ScalarRoundTrip(t, style, rest);
    }
  }

  lemma Reassociate(first: string, others: string, close: string, rest: string)
    ensures first + "," + others + close + rest == first + ("," + (others + close + rest))
  {
  }

  lemma ItemsStep(items: seq<Tree>, style: Style, rest: string)
    requires |items| > 1
    requires var tail := RenderItems(items[1..], style) + "]" + rest;
      && ParseValue(Render(items[0], style) + ("," + tail)) == Some((items[0], "," + tail))
      && ParseItems(tail) == Some((items[1..], rest))
    ensures ParseItems(RenderItems(items, style) + "]" + rest) == Some((items, rest))
  {
    var tail := RenderItems(items[1..], style) + "]" + rest;
    var text := Render(items[0], style) + ("," + tail);
    Reassociate(Render(items[0], style), RenderItems(items[1..], style), "]", rest);
    NextItem(text, items[0], tail, items[1..], rest);
    assert items == [items[0]] + items[1..];
  }

  lemma {:induction false} ItemsRoundTrip(items: seq<Tree>, style: Style, rest: string)
    requires items != []
    requires forall i :: 0 <= i < |items| ==> ValidNumbers(items[i])
    ensures ParseItems(RenderItems(items, style) + "]" + rest) == Some((items, rest))
    decreases items, 1
  {
    if |items| == 1 {
      var text := Render(items[0], style) + ("]" + rest);
      ValueRoundTrip(items[0], style, "]" + rest);
      LastItem(text, items[0], rest);
      assert RenderItems(items, style) + "]" + rest == text;
      assert items == [items[0]];
    } else {
      ValueRoundTrip(items[0], style, "," + (RenderItems(items[1..], style) + "]" + rest));
      ItemsRoundTrip(items[1..], style, rest);
      ItemsStep(items, style, rest);
    }
  }

  lemma KeyText(key: string, style: Style, after: string)
    ensures ParseString((Quote(key, style) + after)[1..]) == Some((key, after))
    ensures (Quote(key, style) + after)[0] == '"'
  {
    assert (Quote(key, style) + after)[1..] == EscapeAll(key, style) + "\"" + after;
    StringRoundTrip(key, style, after);
  }

  lemma MemberRoundTrip(m: Member, style: Style, rest: string)
    requires ValidNumbers(m.value) && Delimited(rest)
    ensures ParseMember(RenderMember(m, style) + rest) == Some((m, rest))
    decreases m, 0
  {
    var afterColon := Render(m.value, style) + rest;
    var text := Quote(m.key, style) + (":" + afterColon);
    RenderedMember(m, style, rest);
    KeyText(m.key, style, ":" + afterColon);
    ValueRoundTrip(m.value, style, rest);
    MemberText(text, m, afterColon, rest);
  }

  lemma RenderedMember(m: Member, style: Style, rest: string)
    ensures RenderMember(m, style) + rest == Quote(m.key, style) + (":" + (Render(m.value, style) + rest))
  {
  }

  lemma MemberText(text: string, m: Member, afterColon: string, rest: string)
    requires text != "" && text[0] == '"'
    requires ParseString(text[1..]) == Some((m.key, ":" + afterColon))
    requires ParseValue(afterColon) == Some((m.value, rest))
    ensures ParseMember(text) == Some((m, rest))
  {
    var after := ":" + afterColon;
    assert SkipSpace(after) == after && after[1..] == afterColon;
    assert SkipSpace(text) == text;
  }

  lemma MembersStep(members: seq<Member>, style: Style, rest: string)
    requires |members| > 1
    requires var tail := RenderMembers(members[1..], style) + "}" + rest;
      && ParseMember(RenderMember(members[0], style) + ("," + tail)) == Some((members[0], "," + tail))
      && ParseMembers(tail) == Some((members[1..], rest))
    ensures ParseMembers(RenderMembers(members, style) + "}" + rest) == Some((members, rest))
  {
    var tail := RenderMembers(members[1..], style) + "}" + rest;
    var text := RenderMember(members[0], style) + ("," + tail);
    Reassociate(RenderMember(members[0], style), RenderMembers(members[1..], style), "}", rest);
    NextMember(text, members[0], tail, members[1..], rest);
    assert members == [members[0]] + members[1..];
  }

  lemma MembersLast(member: Member, style: Style, rest: string)
    requires ParseMember(RenderMember(member, style) + ("}" + rest)) == Some((member, "}" + rest))
    ensures ParseMembers(RenderMembers([member], style) + "}" + rest) == Some(([member], rest))
  {
    var text := RenderMember(member, style) + ("}" + rest);
    LastMember(text, member, rest);
    assert RenderMembers([member], style) + "}" + rest == text;
  }

  lemma {:induction false} MembersRoundTrip(members: seq<Member>, style: Style, rest: string)
    requires members != []
    requires forall i :: 0 <= i < |members| ==> ValidNumbers(members[i].value)
    ensures ParseMembers(RenderMembers(members, style) + "}" + rest) == Some((members, rest))
    decreases members, 1
  {
    if |members| == 1 {
      MemberRoundTrip(members[0], style, "}" + rest);
      MembersLast(members[0], style, rest);
      assert members == [members[0]];
    } else {
      MemberRoundTrip(members[0], style, "," + (RenderMembers(members[1..], style) + "}" + rest));
      MembersRoundTrip(members[1..], style, rest);
      MembersStep(members, style, rest);
    }
  }

  /** Whatever is printed parses back to exactly the tree, with nothing left over. */
  lemma ParseRender(t: Tree, style: Style)
    requires ValidNumbers(t)
    ensures Parse(Render(t, style)) == Some(t)
  {
    assert Render(t, style) + "" == Render(t, style);
    ValueRoundTrip(t, style, "");
  }

  /** The decimal form of an integer is a JSON number. */
  lemma FormatIntIsNumber(n: int)
    ensures ValidNumber(FormatInt(n))
  {
    var s := Natural(if n < 0 then -n else n);
    AllDigitsCounted(s);
    var token := FormatInt(n);
    assert token[if n < 0 then 1 else 0..] == s;
    assert token[|token|..] == "";
  }

  lemma {:induction false} AllDigitsCounted(s: string)
    requires AllDigits(s)
    ensures Digits(s) == |s|
  {
    if s != "" {
      AllDigitsCounted(s[1..]);
    }
  }
}
