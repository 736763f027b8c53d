/** s3/s3.go: what a request's signature covers. */
module Signing {
  import opened Decimal
  import opened Escaping
  import opened ObjectUrl
  import opened Ordering
  import opened Query
  import opened Sequences
  import opened Text

  /** strings.TrimSpace. */
  function TrimSpace(s: string): string {
    Trim(IsWhiteSpace, s)
  }

  // ----- The canonical request -----

  /** Header names are lower-case here; net/http looks them up whatever their case. */
  type Headers = map<string, string>

  function Get(headers: Headers, name: string): string {
    if name in headers then headers[name] else ""
  }

  /** The host is taken from the URL, every other value from the headers. */
  function Signed(headers: Headers, host: string, name: string): string {
    TrimSpace(if name == "host" then host else Get(headers, name))
  }

  function HeaderLine(headers: Headers, host: string, name: string): string {
    name + ":" + Signed(headers, host, name)
  }

  function HeaderLines(names: seq<string>, headers: Headers, host: string): seq<string> {
    seq(|names|, i requires 0 <= i < |names| => HeaderLine(headers, host, names[i]))
  }

  /** The names a request signs. */
  function SignedNames(headers: Headers, session: bool): set<string> {
    {"host", "x-amz-content-sha256", "x-amz-date"}
    + (if session then {"x-amz-security-token"} else {})
    + (if Get(headers, "range") != "" then {"range"} else {})
    + (if Get(headers, "content-type") != "" then {"content-type"} else {})
  }

  /** The same names in the order the code lists them. */
  function NameList(headers: Headers, session: bool): seq<string> {
    ["host", "x-amz-content-sha256", "x-amz-date"]
    + (if session then ["x-amz-security-token"] else [])
    + (if Get(headers, "range") != "" then ["range"] else [])
    + (if Get(headers, "content-type") != "" then ["content-type"] else [])
  }

  lemma OptionalName(list: seq<string>, names: set<string>, name: string, present: bool)
    requires Distinct(list) && Elements(list) == names && name !in names
    ensures Distinct(list + if present then [name] else [])
    ensures Elements(list + if present then [name] else []) == names + if present then {name} else {}
  {
    if !present {
      assert list + [] == list;
    }
  }

  lemma NamesListed(headers: Headers, session: bool)
    ensures Elements(NameList(headers, session)) == SignedNames(headers, session)
    ensures Distinct(NameList(headers, session))
  {
    var host, sha, date := "host", "x-amz-content-sha256", "x-amz-date";
    var token, range, content := "x-amz-security-token", "range", "content-type";
    assert |host| == 4 && |range| == 5 && |date| == 10 && |content| == 12 && |sha| == |token| == 20;
    assert sha[6] != token[6];
    SixNames(host, sha, date, token, range, content, session, Get(headers, range) != "", Get(headers, content) != "");
  }

  lemma SixNames(a: string, b: string, c: string, d: string, e: string, f: string, p: bool, q: bool, r: bool)
    requires a != b && b != c && a != c && d !in {a, b, c} && e !in {a, b, c, d} && f !in {a, b, c, d, e}
    ensures var list := [a, b, c] + (if p then [d] else []) + (if q then [e] else []) + (if r then [f] else []);
      var names := {a, b, c} + (if p then {d} else {}) + (if q then {e} else {}) + (if r then {f} else {});
      Distinct(list) && Elements(list) == names
  {
    ThreeNames(a, b, c);
    var list, names := [a, b, c], {a, b, c};
    OptionalName(list, names, d, p);
    list, names := list + (if p then [d] else []), names + if p then {d} else {};
    OptionalName(list, names, e, q);
    list, names := list + (if q then [e] else []), names + if q then {e} else {};
    OptionalName(list, names, f, r);
  }

  lemma ThreeNames(a: string, b: string, c: string)
    requires a != b && b != c && a != c
    ensures Distinct([a, b, c]) && Elements([a, b, c]) == {a, b, c}
  {
  }

  datatype Parts = Parts(verb: string, path: string, query: string, names: seq<string>, headers: Headers,
                         host: string, payload: string)

  function Lines(p: Parts): seq<string> {
    [p.verb, p.path, p.query] + HeaderLines(p.names, p.headers, p.host) + ["", Join(p.names, ";"), p.payload]
  }

  function Canonical(p: Parts): string {
    Join(Lines(p), "\n")
  }

  function Terminated(lines: seq<string>): string {
    if lines == [] then "" else lines[0] + "\n" + Terminated(lines[1..])
  }

  lemma TerminatedSnoc(lines: seq<string>, line: string)
    ensures Terminated(lines + [line]) == Terminated(lines) + (line + "\n")
  {
    if lines != [] {
      TerminatedSnoc(lines[1..], line);
      assert (lines + [line])[1..] == lines[1..] + [line];
      Concatenated(lines[0] + "\n", Terminated(lines[1..]), line + "\n");
    }
  }

  lemma {:induction false} JoinTerminated(lines: seq<string>, tail: seq<string>)
    requires tail != []
    ensures Join(lines + tail, "\n") == Terminated(lines) + Join(tail, "\n")
  {
    if lines == [] {
      assert lines + tail == tail;
    } else {
      JoinTerminated(lines[1..], tail);
      assert (lines + tail)[1..] == lines[1..] + tail;
      Concatenated(lines[0] + "\n", Terminated(lines[1..]), Join(tail, "\n"));
    }
  }

  /** Six texts joined by newlines, the fourth a block of terminated lines, are all the lines joined. */
  lemma BlockOfLines(first: seq<string>, block: seq<string>, names: string, payload: string)
    ensures Join(first + [Terminated(block), names, payload], "\n")
         == Join(first + block + ["", names, payload], "\n")
  {
    var tail := ["", names, payload];
    JoinTerminated(first, [Terminated(block), names, payload]);
    assert first + block + tail == first + (block + tail);
    JoinTerminated(first, block + tail);
    JoinTerminated(block, tail);
    assert [Terminated(block), names, payload][1..] == tail[1..];
    assert Join(tail, "\n") == "\n" + Join(tail[1..], "\n");
    Concatenated(Terminated(block), "\n", Join(tail[1..], "\n"));
  }

  lemma SixTexts(p: Parts)
    ensures Join([p.verb, p.path, p.query] + [Terminated(HeaderLines(p.names, p.headers, p.host)),
                                              Join(p.names, ";"), p.payload], "\n") == Canonical(p)
  {
    BlockOfLines([p.verb, p.path, p.query], HeaderLines(p.names, p.headers, p.host), Join(p.names, ";"), p.payload);
  }

  /** The headers sign sets before it signs. */
  function Stamped(headers: Headers, token: string, date: string, payload: string): Headers {
    var stamped := headers["x-amz-date" := date]["x-amz-content-sha256" := payload];
    if token != "" then stamped["x-amz-security-token" := token] else stamped
  }

  /** Distinct names, in ascending order. */
  method SortedArray(list: seq<string>, ghost keys: set<string>) returns (names: array<string>)
    requires Elements(list) == keys && Distinct(list)
    ensures fresh(names) && names[..] == SortedKeys(keys)
  {
    names := new string[|list|](i requires 0 <= i < |list| => list[i]);
    assert names[..] == list;
    SortStrings(names);
    SortedListing(list, names[..], keys);
  }

  class Request {
    const verb: string
    const path: string
    const rawPath: string
    const rawQuery: string
    const host: string
    var headers: Headers

    /** signedRequestWithContentType up to the signature: the URL of a key with its encoded query. */
    constructor (verb: string, location: Location, rawQuery: string, headers: Headers)
      ensures this.verb == verb && this.path == location.path && this.rawPath == location.rawPath
      ensures this.rawQuery == rawQuery && this.host == location.host && this.headers == headers
    {
      this.verb, this.path, this.rawPath, this.host := verb, location.path, location.rawPath, location.host;
      this.rawQuery, this.headers := rawQuery, headers;
    }

    method ListNames(session: bool) returns (list: seq<string>)
      ensures list == NameList(headers, session)
    {
      list := ["host", "x-amz-content-sha256", "x-amz-date"];
      if session {
        list := list + ["x-amz-security-token"];
      }
      if Get(headers, "range") != "" {
        list := list + ["range"];
      }
      if Get(headers, "content-type") != "" {
        list := list + ["content-type"];
      }
    }

    method HeaderNames(session: bool) returns (names: array<string>)
      ensures fresh(names) && names[..] == SortedKeys(SignedNames(headers, session))
    {
      var list := ListNames(session);
      NamesListed(headers, session);
      names := SortedArray(list, SignedNames(headers, session));
    }

    method CanonicalHeaders(names: seq<string>) returns (text: string)
      ensures text == Terminated(HeaderLines(names, headers, host))
    {
      text := "";
      for i := 0 to |names|
        invariant text == Terminated(HeaderLines(names[..i], headers, host))
      {
        var value := Get(headers, names[i]);
        if names[i] == "host" {
          value := host;
        }
        text := text + (names[i] + ":" + TrimSpace(value) + "\n");
        TerminatedSnoc(HeaderLines(names[..i], headers, host), HeaderLine(headers, host, names[i]));
        assert HeaderLines(names[..i + 1], headers, host)
            == HeaderLines(names[..i], headers, host) + [HeaderLine(headers, host, names[i])];
      }
      assert names[..|names|] == names;
    }

    method CanonicalRequest(session: bool, payload: string, default: string) returns (text: string, ghost signed: Parts)
      ensures signed == Parts(verb, EscapedPath(path, rawPath, default), CanonicalQuery(ParseQuery(rawQuery)),
                              SortedKeys(SignedNames(headers, session)), headers, host, payload)
      ensures text == Canonical(Parts(verb, EscapedPath(path, rawPath, default), CanonicalQuery(ParseQuery(rawQuery)),
                                      SortedKeys(SignedNames(headers, session)), headers, host, payload))
    {
      var names := HeaderNames(session);
      var signedHeaders := Join(names[..], ";");
      var block := CanonicalHeaders(names[..]);
      var query := CanonicalQueryString(ParseQuery(rawQuery));
      var escaped := EscapedPath(path, rawPath, default);
      text := Join([verb, escaped, query] + [block, signedHeaders, payload], "\n");
      signed := Parts(verb, escaped, query, names[..], headers, host, payload);
      SixTexts(signed);
    }

    /** sign: the headers it sets are set first, the authorization header last, and the text that is
        signed is the canonical request of the headers in between. */
    method Sign(token: string, date: string, payload: string, default: string, authorization: string -> string)
      returns (canonical: string, ghost signed: Parts)
      modifies this`headers
      ensures signed.headers == Stamped(old(headers), token, date, payload)
      ensures headers == signed.headers["authorization" := authorization(canonical)]
      ensures canonical == Canonical(signed)
      ensures signed.names == SortedKeys(SignedNames(signed.headers, token != ""))
      ensures signed.verb == verb && signed.host == host && signed.payload == payload
      ensures signed.path == EscapedPath(path, rawPath, default)
      ensures signed.query == CanonicalQuery(ParseQuery(rawQuery))
    {
      headers := headers["x-amz-date" := date]["x-amz-content-sha256" := payload];
      if token != "" {
        headers := headers["x-amz-security-token" := token];
      }
      canonical, signed := CanonicalRequest(token != "", payload, default);
      headers := headers["authorization" := authorization(canonical)];
    }
  }

  // ----- What the signed text determines -----

  predicate OneLine(s: string) {
    '\n' !in s
  }

  /** What net/http itself demands of a request: no newline in the method or in a header, and
      header names free of colons. */
  predicate WellFormed(p: Parts) {
    && OneLine(p.verb) && OneLine(p.path) && OneLine(p.query) && OneLine(p.payload) && OneLine(p.host)
    && (forall i :: 0 <= i < |p.names| ==> OneLine(p.names[i]) && ':' !in p.names[i])
    && (forall k :: k in p.headers ==> OneLine(p.headers[k]))
  }

  lemma {:induction false} JoinOneLine(names: seq<string>)
    requires forall i :: 0 <= i < |names| ==> OneLine(names[i])
    ensures OneLine(Join(names, ";"))
  {
    if |names| > 1 {
      JoinOneLine(names[1..]);
    }
  }

  lemma LinesAreLines(p: Parts)
    requires WellFormed(p)
    ensures Split(Canonical(p), '\n') == Lines(p)
  {
    JoinOneLine(p.names);
    forall i | 0 <= i < |p.names| ensures OneLine(HeaderLine(p.headers, p.host, p.names[i])) {
      var name := p.names[i];
      TrimExactly(IsWhiteSpace, if name == "host" then p.host else Get(p.headers, name));
    }
    assert "\n" == ['\n'];
    SplitJoin(Lines(p), '\n');
  }

  lemma SameHeader(p: Parts, q: Parts, i: nat)
    requires WellFormed(p) && WellFormed(q) && i < |p.names| == |q.names|
    requires HeaderLine(p.headers, p.host, p.names[i]) == HeaderLine(q.headers, q.host, q.names[i])
    ensures p.names[i] == q.names[i]
    ensures Signed(p.headers, p.host, p.names[i]) == Signed(q.headers, q.host, p.names[i])
  {
    assert ":" == [':'];
    CutEqual(p.names[i], q.names[i], ':', Signed(p.headers, p.host, p.names[i]), Signed(q.headers, q.host, q.names[i]));
  }

  lemma SameBlocks<T>(a: seq<T>, b: seq<T>, first: seq<T>, second: seq<T>, x: seq<T>, y: seq<T>)
    requires |first| == |second| && |x| == |y| && first + a + x == second + b + y
    ensures first == second && a == b && x == y
  {
    var s, t := first + a + x, second + b + y;
    assert |a| == |b|;
    assert first == s[..|first|] && second == t[..|first|];
    assert a == s[|first|..|first| + |a|] && b == t[|first|..|first| + |a|];
    assert x == s[|first| + |a|..] && y == t[|first| + |a|..];
  }

  /** One canonical request belongs to one method, path, query, payload hash, list of signed
      headers, and value of each of them. */
  lemma SignedDetermines(p: Parts, q: Parts)
    requires WellFormed(p) && WellFormed(q) && Canonical(p) == Canonical(q)
    ensures p.verb == q.verb && p.path == q.path && p.query == q.query && p.payload == q.payload
    ensures p.names == q.names
    ensures forall i :: 0 <= i < |p.names| ==>
      Signed(p.headers, p.host, p.names[i]) == Signed(q.headers, q.host, p.names[i])
  {
    LinesAreLines(p);
    LinesAreLines(q);
    var first, second := [p.verb, p.path, p.query], [q.verb, q.path, q.query];
    var a, b := HeaderLines(p.names, p.headers, p.host), HeaderLines(q.names, q.headers, q.host);
    var x, y := ["", Join(p.names, ";"), p.payload], ["", Join(q.names, ";"), q.payload];
    SameBlocks(a, b, first, second, x, y);
    assert p.verb == first[0] && p.path == first[1] && p.query == first[2] && p.payload == x[2];
    assert q.verb == second[0] && q.path == second[1] && q.query == second[2] && q.payload == y[2];
    forall i | 0 <= i < |p.names|
      ensures p.names[i] == q.names[i]
      ensures Signed(p.headers, p.host, p.names[i]) == Signed(q.headers, q.host, p.names[i])
    {
      assert a[i] == b[i];
      SameHeader(p, q, i);
    }
  }

  /** The request a client builds for a key: what it signs is the path that goes on the wire, which
      decodes to the object's path, and a query with exactly the values that were set. */
  lemma SignedRequestIsSent(path: string, query: Values, default: string)
    requires Octets(path) && path != "" && OctetValues(query)
    ensures EscapedPath(path, EscapedSegments(path), default) == EscapedSegments(path)
    ensures PathUnescape(EscapedSegments(path)) == Some(path)
    ensures ParseQuery(WireQuery(query)) == WithoutEmpty(query)
    ensures CanonicalQuery(ParseQuery(WireQuery(query))) == CanonicalQuery(query)
  {
    PathRoundTrip(path, default);
    SignedIsSent(query);
  }

  lemma ContentTypeSigned(headers: Headers, session: bool)
    requires Get(headers, "content-type") != ""
    ensures "content-type" in SortedKeys(SignedNames(headers, session))
  {
    var names := SignedNames(headers, session);
    assert "content-type" in Elements(SortedKeys(names));
  }

  lemma StampedKeepsContentType(headers: Headers, token: string, date: string, payload: string)
    ensures Get(Stamped(headers, token, date, payload), "content-type") == Get(headers, "content-type")
  {
    var sha, date, token, content := "x-amz-content-sha256", "x-amz-date", "x-amz-security-token", "content-type";
    assert |date| == 10 && |content| == 12 && |sha| == |token| == 20;
  }

  /** signedRequestWithContentType: the request on the wire and the text its signature covers. */
  method SignedRequest(verb: string, endpoint: Location, pathStyle: bool, bucket: string, key: string,
                       query: Values, rawQuery: string, contentType: string, token: string, date: string,
                       payload: string, default: string, authorization: string -> string)
    returns (request: Request, canonical: string, ghost signed: Parts)
    requires (endpoint.path == "" || endpoint.path == "/") && IsBucket(bucket)
    requires (IsKey(key) || key == "") && Octets(key) && OctetValues(query) && rawQuery == WireQuery(query)
    ensures canonical == Canonical(signed) && signed.verb == request.verb == verb
    ensures request.path == if pathStyle then Joined(endpoint.path, bucket, key) else "/" + key
    ensures request.rawPath == signed.path && PathUnescape(signed.path) == Some(request.path)
    ensures request.rawQuery == rawQuery && signed.query == CanonicalQuery(query)
    ensures contentType != "" ==> "content-type" in signed.names
    ensures signed.host == request.host && signed.payload == payload
    ensures Get(request.headers, "authorization") == authorization(canonical)
  {
    var location := ObjectURL(endpoint, pathStyle, bucket, key);
    if pathStyle {
      ObjectOctets(endpoint.path, bucket, key);
    }
    var headers: Headers := if contentType != "" then map["content-type" := contentType] else map[];
    request := new Request(verb, location, rawQuery, headers);
    SignedRequestIsSent(location.path, query, default);
    canonical, signed := request.Sign(token, date, payload, default, authorization);
    StampedKeepsContentType(headers, token, date, payload);
    if contentType != "" {
      ContentTypeSigned(signed.headers, token != "");
    }
  }
}
