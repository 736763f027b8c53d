/** auth/jwks.go: the cached signing keys of an issuer that may rotate them, or fail. */
module Jwks {
  import opened Decimal
  import opened Environment

  /** A point on the curve, left abstract. */
  type Key = (int, int)

  type Keys = map<string, Key>

  // ----- fetchJWKS -----

  datatype Jwk = Jwk(kty: string, crv: string, alg: string, use: string, kid: string, x: string, y: string)

  predicate Relevant(k: Jwk) {
    k.kty == "EC" && k.crv == "P-256" && k.alg == "ES256" && (k.use == "" || k.use == "sig") && k.kid != ""
  }

  /** The keys a document publishes: None when a relevant one does not parse.  Of two with the same
      key ID the later one counts. */
  function Listed(document: seq<Jwk>, parse: Jwk -> Option<Key>): Option<Keys> {
    if document == [] then Some(map[])
    else
      var last := document[|document| - 1];
      match Listed(document[..|document| - 1], parse)
      case None => None
      case Some(keys) =>
        if !Relevant(last) then Some(keys)
        else if parse(last).None? then None
        else Some(keys[last.kid := parse(last).value])
  }

  lemma {:induction false} ListedPrefix(document: seq<Jwk>, i: nat, parse: Jwk -> Option<Key>)
    requires i <= |document| && Listed(document[..i], parse).None?
    ensures Listed(document, parse).None?
  {
    if i < |document| {
      assert document[..|document| - 1][..i] == document[..i];
      ListedPrefix(document[..|document| - 1], i, parse);
    } else {
      assert document[..i] == document;
    }
  }

  /** fetchJWKS on a reply: None for a request that failed, a bad status or a body that does not decode. */
  method FetchJWKS(reply: Option<seq<Jwk>>, parse: Jwk -> Option<Key>) returns (keys: Option<Keys>)
    ensures keys == if reply.None? || Listed(reply.value, parse) == Some(map[]) then None else Listed(reply.value, parse)
  {
    if reply.None? {
      return None;
    }
    var document := reply.value;
    var found: Keys := map[];
    for i := 0 to |document|
      invariant Listed(document[..i], parse) == Some(found)
    {
      var value := document[i];
      assert document[..i + 1][..i] == document[..i] && document[..i + 1][i] == value;
      if !Relevant(value) {
        continue;
      }
      var key := parse(value);
      if key.None? {
        ListedPrefix(document, i + 1, parse);
        return None;
      }
      found := found[value.kid := key.value];
    }
    assert document[..|document|] == document;
    if |found| == 0 {
      assert found == map[];
      return None;
    }
    keys := Some(found);
  }

  /** A key ID is listed exactly when some relevant entry carries it; one bad relevant entry spoils
      the whole document. */
  lemma {:induction false} ListedExactly(document: seq<Jwk>, parse: Jwk -> Option<Key>)
    ensures Listed(document, parse).Some? <==>
      forall i :: 0 <= i < |document| && Relevant(document[i]) ==> parse(document[i]).Some?
    ensures Listed(document, parse).Some? ==> forall kid ::
      kid in Listed(document, parse).value <==> exists i :: 0 <= i < |document| && Relevant(document[i]) && document[i].kid == kid
  {
    if document != [] {
      var n := |document| - 1;
      ListedExactly(document[..n], parse);
      assert document == document[..n] + [document[n]];
    }
  }

  /** Of the relevant entries with one key ID, the last one's key counts. */
  lemma {:induction false} LastEntryCounts(document: seq<Jwk>, i: nat, parse: Jwk -> Option<Key>)
    requires Listed(document, parse).Some? && i < |document| && Relevant(document[i])
    requires forall j :: i < j < |document| && Relevant(document[j]) ==> document[j].kid != document[i].kid
    ensures document[i].kid in Listed(document, parse).value
    ensures parse(document[i]) == Some(Listed(document, parse).value[document[i].kid])
  {
    if i < |document| - 1 {
      LastEntryCounts(document[..|document| - 1], i, parse);
    }
  }

  // ----- signingKey -----

  datatype Cache = Cache(keys: Keys, fetchedAt: int)

  datatype Fetch = NotTried | Failed | Fetched(keys: Keys)

  datatype Reply = Served(key: Key) | NotPublished | Unavailable

  /** A call: who asked, when, whether the call fetched, and the answer. */
  datatype Event = Event(kid: string, now: int, fetch: Fetch, reply: Reply)

  const EMPTY := Cache(map[], 0)

  /** What was fetched last, and when. */
  function Last(events: seq<Event>): Cache {
    if events == [] then EMPTY
    else
      var e := events[|events| - 1];
      if e.fetch.Fetched? then Cache(e.fetch.keys, e.now) else Last(events[..|events| - 1])
  }

  predicate Fresh(cache: Cache, kid: string, now: int, ttl: int) {
    kid in cache.keys && now - cache.fetchedAt <= ttl
  }

  /** One call, answered from `cache`. */
  predicate Answered(cache: Cache, e: Event, ttl: int) {
    if Fresh(cache, e.kid, e.now, ttl) then e.fetch == NotTried && e.reply == Served(cache.keys[e.kid])
    else
      match e.fetch
      case NotTried => false
      case Fetched(keys) => e.reply == if e.kid in keys then Served(keys[e.kid]) else NotPublished
      case Failed => e.reply == if e.kid in cache.keys then Served(cache.keys[e.kid]) else Unavailable
  }

  predicate Run(events: seq<Event>, ttl: int) {
    forall i :: 0 <= i < |events| ==> Answered(Last(events[..i]), events[i], ttl)
  }

  /** The client's cache behind its mutex: one call at a time. */
  class Client {
    const ttl: int
    const parse: Jwk -> Option<Key>
    var keys: Keys
    var fetchedAt: int
    ghost var events: seq<Event>

    ghost predicate Valid()
      reads this
    {
      Cache(keys, fetchedAt) == Last(events) && Run(events, ttl)
    }

    constructor (ttl: int, parse: Jwk -> Option<Key>)
      ensures Valid() && events == [] && this.ttl == ttl && this.parse == parse
    {
      this.ttl, this.parse := ttl, parse;
      keys, fetchedAt, events := map[], 0, [];
    }

    /** signingKey: whatever the issuer answers, the call is answered by the rule, and the cache is
        again what was fetched last. */
    method SigningKey(kid: string, now: int) returns (reply: Reply)
      requires Valid()
      modifies this
      ensures Valid() && |events| == |old(events)| + 1 && events[..|old(events)|] == old(events)
      ensures var e := events[|old(events)|]; e.kid == kid && e.now == now && e.reply == reply
    {
      ghost var before := events;
      ghost var fetch := NotTried;
      var present := kid in keys;
      if present && now - fetchedAt <= ttl {
        reply := Served(keys[kid]);
      } else {
        var answer: Option<seq<Jwk>> := Any();
        var fetched := FetchJWKS(answer, parse);
        if fetched.Some? {
          fetch := Fetched(fetched.value);
          reply := if kid in fetched.value then Served(fetched.value[kid]) else NotPublished;
          keys, fetchedAt := fetched.value, now;
        } else {
          fetch := Failed;
          reply := if present then Served(keys[kid]) else Unavailable;
        }
      }
      ghost var e := Event(kid, now, fetch, reply);
      events := events + [e];
      RunSnoc(before, e, ttl);
    }
  }

  lemma RunSnoc(events: seq<Event>, e: Event, ttl: int)
    requires Run(events, ttl) && Answered(Last(events), e, ttl)
    ensures Run(events + [e], ttl)
    ensures Last(events + [e]) == if e.fetch.Fetched? then Cache(e.fetch.keys, e.now) else Last(events)
  {
    var longer := events + [e];
    assert longer[..|events|] == events;
    forall i | 0 <= i < |longer| ensures Answered(Last(longer[..i]), longer[i], ttl) {
      if i < |events| {
        assert longer[..i] == events[..i];
      }
    }
  }

  // ----- Over whole runs -----

  /** No fetch succeeded after the `j`-th call and before the `i`-th. */
  predicate QuietBetween(events: seq<Event>, j: int, i: int) {
    forall k :: 0 <= k < |events| && j < k < i ==> !events[k].fetch.Fetched?
  }

  /** What is cached before a call is the last successful fetch, or nothing. */
  lemma {:induction false} CachedIsLastFetch(events: seq<Event>, i: nat) returns (j: int)
    requires i <= |events|
    ensures -1 <= j < i && QuietBetween(events, j, i)
    ensures j == -1 ==> Last(events[..i]) == EMPTY
    ensures j >= 0 ==> events[j].fetch.Fetched? && Last(events[..i]) == Cache(events[j].fetch.keys, events[j].now)
  {
    if i == 0 {
      j := -1;
    } else if events[i - 1].fetch.Fetched? {
      j := i - 1;
    } else {
      j := CachedIsLastFetch(events, i - 1);
      assert events[..i][..i - 1] == events[..i - 1];
    }
  }

  /** A served key is the one the last successful fetch, this call's own included, lists for the key
      ID; without a fetch of its own the call is at most the TTL away from that fetch; and an older
      key is served only when the call's own fetch failed. */
  lemma ServedKeys(events: seq<Event>, i: nat, ttl: int) returns (j: nat)
    requires Run(events, ttl) && i < |events| && events[i].reply.Served?
    ensures j <= i && events[j].fetch.Fetched? && QuietBetween(events, j, i + 1)
    ensures events[i].kid in events[j].fetch.keys && events[j].fetch.keys[events[i].kid] == events[i].reply.key
    ensures events[i].fetch == NotTried ==> events[i].now - events[j].now <= ttl
    ensures events[i].now - events[j].now > ttl ==> j == i || events[i].fetch == Failed
  {
    assert Answered(Last(events[..i]), events[i], ttl);
    if events[i].fetch.Fetched? {
      j := i;
    } else {
      j := CachedIsLastFetch(events, i);
    }
  }

  /** A key ID that a successful fetch no longer lists is not served again until a later successful
      fetch lists it. */
  lemma DroppedStaysDropped(events: seq<Event>, j: nat, i: nat, kid: string, ttl: int)
    requires Run(events, ttl) && j <= i < |events| && events[i].kid == kid
    requires events[j].fetch.Fetched? && kid !in events[j].fetch.keys
    requires forall k :: j < k <= i && events[k].fetch.Fetched? ==> kid !in events[k].fetch.keys
    ensures !events[i].reply.Served?
  {
    if events[i].reply.Served? {
      var k := ServedKeys(events, i, ttl);
    }
  }
}
