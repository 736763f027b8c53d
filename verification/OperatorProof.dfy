/** foundryoperator.Sign: the nonce, the proof record, and the text that is signed. */
module OperatorProof {
  import opened CanonicalJson
  import opened Decimal
  import opened Json
  import opened Ordering
  import Base64Url
  import Strings = Text
  import Utf8

  // ----- Nonces -----

  /** ValidNonce, with strings.Trim over the nonce alphabet. */
  predicate ValidNonce(nonce: string) {
    22 <= |nonce| <= 128 && Strings.Trim(Base64Url.IsSextet, nonce) == ""
  }

  /** Trimming leaves nothing exactly when every character, not only the outer ones, is in the alphabet. */
  lemma ValidNonceExactly(nonce: string)
    ensures ValidNonce(nonce) <==>
      22 <= |nonce| <= 128 && forall i :: 0 <= i < |nonce| ==> Base64Url.IsSextet(nonce[i])
  {
    Strings.TrimExactly(Base64Url.IsSextet, nonce);
  }

  /** RandomNonce on the 24 bytes it draws: always a nonce that Sign accepts. */
  function RandomNonce(raw: seq<nat>): (nonce: string)
    requires |raw| == 24 && Base64Url.IsBytes(raw)
    ensures |nonce| == 32 && ValidNonce(nonce)
  {
    ValidNonceExactly(Base64Url.Encode(raw));
    Base64Url.Encode(raw)
  }

  // ----- The proof record -----

  datatype Proof = Proof(
    protocol: string, principalKid: string, nonce: string, issuedAt: string, expiresAt: string, verb: string,
    path: string, query: string, bodySha256: string)

  function Field(name: string, value: string): Member {
    Member(name, TStr(value))
  }

  /** The struct's fields in their declared order; an empty query is left out. */
  function ProofMembers(p: Proof): seq<Member> {
    [Field("protocol", p.protocol), Field("principalKid", p.principalKid), Field("nonce", p.nonce),
     Field("issuedAt", p.issuedAt), Field("expiresAt", p.expiresAt), Field("method", p.verb),
     Field("normalizedPath", p.path)]
    + (if p.query != "" then [Field("normalizedQuery", p.query)] else [])
    + [Field("bodySha256", p.bodySha256)]
  }

  /** A name's place among the declared ones, told by its length and first letter. */
  function Slot(name: string): int {
    if name == "" then -1
    else if |name| == 8 && name[0] == 'p' then 0
    else if |name| == 12 then 1
    else if |name| == 5 then 2
    else if |name| == 8 && name[0] == 'i' then 3
    else if |name| == 9 then 4
    else if |name| == 6 then 5
    else if |name| == 14 then 6
    else if |name| == 15 then 7
    else if |name| == 10 then 8
    else -1
  }

  lemma Slots()
    ensures Slot("protocol") == 0 && Slot("principalKid") == 1 && Slot("nonce") == 2 && Slot("issuedAt") == 3
    ensures Slot("expiresAt") == 4 && Slot("method") == 5 && Slot("normalizedPath") == 6
    ensures Slot("normalizedQuery") == 7 && Slot("bodySha256") == 8
  {
  }

  predicate Slotted(members: seq<Member>) {
    forall i, j :: 0 <= i < j < |members| ==> Slot(members[i].key) < Slot(members[j].key)
  }

  lemma MembersSlotted(p: Proof)
    ensures Slotted(ProofMembers(p))
    ensures p.query == "" ==> forall i :: 0 <= i < |ProofMembers(p)| ==> Slot(ProofMembers(p)[i].key) != 7
  {
    Slots();
    var slots := if p.query != "" then [0, 1, 2, 3, 4, 5, 6, 7, 8] else [0, 1, 2, 3, 4, 5, 6, 8];
    forall i | 0 <= i < |ProofMembers(p)| ensures Slot(ProofMembers(p)[i].key) == slots[i] {
    }
  }

  /** A field written once is the one read back for its name. */
  lemma {:induction false} FieldRead(members: seq<Member>, m: Member)
    requires Slotted(members) && m in members
    ensures m.key in DenoteMembers(members) && DenoteMembers(members)[m.key] == Denote(m.value)
  {
    assert members == [members[0]] + members[1..];
    if m == members[0] {
      forall k | k in Keys(members[1..]) ensures k != m.key {
        var i :| 0 <= i < |members[1..]| && members[1..][i].key == k;
        assert Slot(members[0].key) < Slot(members[i + 1].key);
      }
      assert m.key !in Elements(Keys(members[1..]));
    } else {
      FieldRead(members[1..], m);
    }
  }

  /** The value the record stands for, after encoding/json has applied names and omitempty. */
  function ProofValue(p: Proof): CanonicalJson.Value {
    Denote(TObj(ProofMembers(p)))
  }

  function TextOf(fields: map<string, CanonicalJson.Value>, name: string): string {
    if name in fields && fields[name].Text? then fields[name].s else ""
  }

  lemma OneField(members: seq<Member>, name: string, value: string)
    requires Slotted(members) && Field(name, value) in members
    ensures TextOf(DenoteMembers(members), name) == value
  {
    FieldRead(members, Field(name, value));
  }

  lemma HeaderFields(p: Proof)
    ensures var f := ProofValue(p).fields;
      && TextOf(f, "protocol") == p.protocol && TextOf(f, "principalKid") == p.principalKid && TextOf(f, "nonce") == p.nonce
      && TextOf(f, "issuedAt") == p.issuedAt
  {
    MembersSlotted(p);
    var members := ProofMembers(p);
    OneField(members, "protocol", p.protocol);
    OneField(members, "principalKid", p.principalKid);
    OneField(members, "nonce", p.nonce);
    OneField(members, "issuedAt", p.issuedAt);
  }

  lemma RequestFields(p: Proof)
    ensures var f := ProofValue(p).fields;
      && TextOf(f, "expiresAt") == p.expiresAt && TextOf(f, "method") == p.verb && TextOf(f, "normalizedPath") == p.path
      && TextOf(f, "bodySha256") == p.bodySha256
  {
    MembersSlotted(p);
    var members := ProofMembers(p);
    OneField(members, "expiresAt", p.expiresAt);
    OneField(members, "method", p.verb);
    OneField(members, "normalizedPath", p.path);
    OneField(members, "bodySha256", p.bodySha256);
  }

  lemma NameAbsent(members: seq<Member>, name: string)
    requires Slot(name) == 7 && forall i :: 0 <= i < |members| ==> Slot(members[i].key) != 7
    ensures name !in DenoteMembers(members)
  {
  }

  /** An absent query and an empty one are the same. */
  lemma QueryField(p: Proof)
    ensures TextOf(ProofValue(p).fields, "normalizedQuery") == p.query
  {
    MembersSlotted(p);
    Slots();
    var members := ProofMembers(p);
    if p.query != "" {
      OneField(members, "normalizedQuery", p.query);
    } else {
      NameAbsent(members, "normalizedQuery");
    }
  }

  predicate AllTexts(members: seq<Member>) {
    forall i :: 0 <= i < |members| ==> members[i].value.TStr?
  }

  lemma MembersAreTexts(p: Proof)
    ensures AllTexts(ProofMembers(p))
  {
  }

  lemma {:induction false} TextsDenoted(members: seq<Member>)
    requires AllTexts(members)
    ensures forall k :: k in DenoteMembers(members) ==> DenoteMembers(members)[k].Text?
  {
    if members != [] {
      TextsDenoted(members[1..]);
    }
  }

  /** Every field is a text, so a proof can always be printed. */
  lemma TextsOnly(p: Proof)
    ensures Printable(ProofValue(p)) && ValidNumbers(TObj(ProofMembers(p)))
  {
    MembersAreTexts(p);
    TextsDenoted(ProofMembers(p));
    var fields := DenoteMembers(ProofMembers(p));
    assert ProofValue(p) == Object(fields);
    forall k | k in fields ensures Printable(fields[k]) {
    }
  }

  /** The bytes that are signed. */
  ghost function ProofText(p: Proof): string {
    CanonicalText(ProofValue(p))
  }

  /** Two proofs with the same signed text agree in every field. */
  lemma ProofTextInjective(p: Proof, q: Proof)
    requires ProofText(p) == ProofText(q)
    ensures p == q
  {
    TextsOnly(p);
    TextsOnly(q);
    CanonicalTextInjective(ProofValue(p), ProofValue(q));
    HeaderFields(p);
    HeaderFields(q);
    RequestFields(p);
    RequestFields(q);
    QueryField(p);
    QueryField(q);
  }

  /** canonicalMarshal of a proof: json.Marshal, a decoder that keeps numbers as tokens, and the
      canonical printer. */
  method MarshalProof(p: Proof) returns (text: string)
    ensures text == ProofText(p)
  {
    var raw := Render(TObj(ProofMembers(p)), HtmlSafe);
    TextsOnly(p);
    ParseRender(TObj(ProofMembers(p)), HtmlSafe);
    var marshalled := CanonicalMarshal(Denote(Parse(raw).value));
    text := marshalled.value;
  }

  // ----- Sign -----

  predicate PrincipalCharacter(c: char) {
    'A' <= c <= 'Z' || 'a' <= c <= 'z' || '0' <= c <= '9' || c == '.' || c == '_' || c == ':' || c == '-'
  }

  /** PrincipalKIDPattern. */
  predicate ValidPrincipal(kid: string) {
    && 1 <= |kid| <= 128 && (forall i :: 0 <= i < |kid| ==> PrincipalCharacter(kid[i]))
    && kid[0] != '.' && kid[0] != '_' && kid[0] != ':' && kid[0] != '-'
  }

  /** Hashing, signing and the clock's text form, taken as they are. */
  datatype Primitives = Primitives(
    sha256: string -> string,
    sign: (string, seq<nat>) -> string,
    format: int -> string)

  datatype Request = Request(verb: string, path: string, query: string, body: string)

  const PROTOCOL := "FOUNDRY-OPERATOR-V1"
  const SECOND := 1_000_000_000
  const MINUTE := 60 * SECOND

  /** What a proof says of a request: the record is back-dated by a second and lives for a minute. */
  function ProofOf(kid: string, nonce: string, request: Request, now: int, c: Primitives): Proof {
    Proof(PROTOCOL, kid, nonce, c.format(now - SECOND), c.format(now + MINUTE), request.verb, request.path, request.query,
          c.sha256(request.body))
  }

  lemma {:induction false} EncodedBytes(s: string)
    ensures Base64Url.IsBytes(Utf8.Encode(s))
  {
    if s != "" {
      EncodedBytes(s[1..]);
      var n := s[0] as int;
      assert n < 0x110000;
    }
  }

  /** Sign with a nonce source that may fail; None is an error. */
  method Sign(key: string, keyIsWhole: bool, kid: string, request: Request, now: int, nonce: Option<string>,
              c: Primitives)
    returns (headers: Option<(string, string)>)
    ensures headers.Some? <==> ValidPrincipal(kid) && keyIsWhole && nonce.Some? && ValidNonce(nonce.value)
    ensures headers.Some? ==>
      var bytes := Utf8.Encode(ProofText(ProofOf(kid, nonce.value, request, now, c)));
      && Base64Url.IsBytes(bytes) && headers.value == (Base64Url.Encode(bytes), c.sign(key, bytes))
  {
    if !ValidPrincipal(kid) {
      return None;
    }
    if !keyIsWhole {
      return None;
    }
    if nonce.None? || !ValidNonce(nonce.value) {
      return None;
    }
    var text := MarshalProof(ProofOf(kid, nonce.value, request, now, c));
    var bytes := Utf8.Encode(text);
    EncodedBytes(text);
    headers := Some((Base64Url.Encode(bytes), c.sign(key, bytes)));
  }

  lemma SameBytesSameText(a: string, b: string)
    requires Utf8.Encode(a) == Utf8.Encode(b)
    ensures a == b
  {
    Utf8.Utf8OrderAgrees(a, b);
    Utf8.Utf8OrderAgrees(b, a);
    Utf8.Utf8OrderAgrees(a, a);
    LessIrreflexive(a);
    LessTotal(a, b);
  }

  /** One signed byte string stands for one proof: principal, nonce, times, request line and body hash. */
  lemma SignedBytesDetermine(p: Proof, q: Proof)
    requires Utf8.Encode(ProofText(p)) == Utf8.Encode(ProofText(q))
    ensures p == q
  {
    SameBytesSameText(ProofText(p), ProofText(q));
    ProofTextInjective(p, q);
  }
}
