/** s3/s3.go: the canonical query string, and the query that goes on the wire. */
module Query {
  import opened Decimal
  import opened Escaping
  import opened Ordering
  import opened Text

  type Values = map<string, seq<string>>

  type Pair = (string, string)

  predicate OctetValues(values: Values) {
    forall k :: k in values ==> Octets(k) && forall i :: 0 <= i < |values[k]| ==> Octets(values[k][i])
  }

  function PairsOf(key: string, values: seq<string>): (r: seq<Pair>) {
    seq(|values|, i requires 0 <= i < |values| => (key, values[i]))
  }

  function Pairs(keys: seq<string>, values: Values): seq<Pair>
    requires forall k :: k in keys ==> k in values
  {
    if keys == [] then [] else PairsOf(keys[0], values[keys[0]]) + Pairs(keys[1..], values)
  }

  /** Every key with each of its values, keys ascending, a key's values in their own order. */
  ghost function AllPairs(values: Values): seq<Pair> {
    Pairs(SortedKeys(values.Keys), values)
  }

  function CanonicalPair(p: Pair): string {
    Rfc3986Escape(p.0) + "=" + Rfc3986Escape(p.1)
  }

  function CanonicalPairs(pairs: seq<Pair>): seq<string> {
    seq(|pairs|, i requires 0 <= i < |pairs| => CanonicalPair(pairs[i]))
  }

  ghost function CanonicalQuery(values: Values): string {
    Join(CanonicalPairs(AllPairs(values)), "&")
  }

  lemma {:induction false} PairsSnoc(keys: seq<string>, i: nat, values: Values)
    requires i < |keys| && forall k :: k in keys ==> k in values
    ensures Pairs(keys[..i + 1], values) == Pairs(keys[..i], values) + PairsOf(keys[i], values[keys[i]])
  {
    var longer, shorter := keys[..i + 1], keys[..i];
    if i == 0 {
      assert longer[1..] == [] && Pairs(longer[1..], values) == [];
    } else {
      PairsSnoc(keys[1..], i - 1, values);
      assert longer[1..] == keys[1..][..i] && shorter[1..] == keys[1..][..i - 1];
    }
  }

  lemma CanonicalPairsJoin(a: seq<Pair>, b: seq<Pair>)
    ensures CanonicalPairs(a + b) == CanonicalPairs(a) + CanonicalPairs(b)
  {
  }

  method AppendValues(parts: seq<string>, key: string, values: seq<string>) returns (longer: seq<string>)
    ensures longer == parts + CanonicalPairs(PairsOf(key, values))
  {
    longer := parts;
    for j := 0 to |values|
      invariant longer == parts + CanonicalPairs(PairsOf(key, values[..j]))
    {
      longer := longer + [Rfc3986Escape(key) + "=" + Rfc3986Escape(values[j])];
    }
    assert values[..|values|] == values;
  }

  /** canonicalQueryString, whatever order the map yields its keys in. */
  method CanonicalQueryString(values: Values) returns (query: string)
    ensures query == CanonicalQuery(values)
  {
    var keys := ListSortedKeys(values);
    ghost var sorted := SortedKeys(values.Keys);
    var parts: seq<string> := [];
    for i := 0 to keys.Length
      invariant keys[..] == sorted
      invariant parts == CanonicalPairs(Pairs(sorted[..i], values))
    {
      assert keys[i] == sorted[i];
      PairsSnoc(sorted, i, values);
      CanonicalPairsJoin(Pairs(sorted[..i], values), PairsOf(keys[i], values[keys[i]]));
      parts := AppendValues(parts, keys[i], values[keys[i]]);
    }
    assert sorted[..keys.Length] == sorted;
    query := Join(parts, "&");
  }

  // ----- What goes on the wire -----

  function WirePair(p: Pair): string {
    QueryEscape(p.0) + "=" + QueryEscape(p.1)
  }

  function WirePairs(pairs: seq<Pair>): seq<string> {
    seq(|pairs|, i requires 0 <= i < |pairs| => WirePair(pairs[i]))
  }

  /** url.Values.Encode. */
  ghost function WireQuery(values: Values): string {
    Join(WirePairs(AllPairs(values)), "&")
  }

  // ----- What is read back -----

  function Add(values: Values, p: Pair): Values {
    values[p.0 := (if p.0 in values then values[p.0] else []) + [p.1]]
  }

  /** One piece of a query: empty pieces, semicolons and bad escapes are dropped, and a piece
      without an equals sign has the empty value. */
  function Reading(piece: string): Option<Pair> {
    var i := IndexOf(piece, '=');
    var key, value := QueryUnescape(piece[..i]), QueryUnescape(if i < |piece| then piece[i + 1..] else "");
    if piece == "" || ';' in piece || key.None? || value.None? then None
    else Some((key.value, value.value))
  }

  /** url.URL.Query on the pieces between the ampersands. */
  function ParsePieces(pieces: seq<string>): Values {
    if pieces == [] then map[]
    else
      var values := ParsePieces(pieces[..|pieces| - 1]);
      match Reading(pieces[|pieces| - 1])
      case None => values
      case Some(p) => Add(values, p)
  }

  function ParseQuery(query: string): Values {
    ParsePieces(Split(query, '&'))
  }

  function Collect(pairs: seq<Pair>): Values {
    if pairs == [] then map[] else Add(Collect(pairs[..|pairs| - 1]), pairs[|pairs| - 1])
  }

  /** An encoding that decodes to `s` and holds no separator of the query syntax. */
  predicate Encodes(text: string, s: string) {
    QueryUnescape(text) == Some(s) && forall c :: c in text ==> Unreserved(c) || c == '%' || c == '+'
  }

  predicate ReadsAs(piece: string, p: Pair) {
    Reading(piece) == Some(p) && '&' !in piece
  }

  lemma PieceReads(a: string, b: string, p: Pair)
    requires Encodes(a, p.0) && Encodes(b, p.1)
    ensures ReadsAs(a + "=" + b, p)
  {
    var piece := a + "=" + b;
    assert "=" == ['='] && '=' !in a;
    IndexOfAfter(a, '=', b);
    assert piece[..|a|] == a && piece[|a| + 1..] == b;
    assert forall c :: c in piece ==> c in a || c == '=' || c in b;
  }

  lemma BothEncode(s: string)
    requires Octets(s)
    ensures Encodes(QueryEscape(s), s) && Encodes(Rfc3986Escape(s), s)
  {
    QueryRoundTrip(s);
    QueryEscapeHasOnly(s);
    TwoPassesAreOne(s);
    DecodeEncode(s, ' ');
    EscapedHasOnly(s);
  }

  predicate OctetPairs(pairs: seq<Pair>) {
    forall i :: 0 <= i < |pairs| ==> Octets(pairs[i].0) && Octets(pairs[i].1)
  }

  predicate ReadAs(pieces: seq<string>, pairs: seq<Pair>) {
    |pieces| == |pairs| && forall i :: 0 <= i < |pairs| ==> ReadsAs(pieces[i], pairs[i])
  }

  lemma {:induction false} PiecesCollect(pieces: seq<string>, pairs: seq<Pair>)
    requires ReadAs(pieces, pairs)
    ensures ParsePieces(pieces) == Collect(pairs)
  {
    if pairs != [] {
      var n := |pairs| - 1;
      PiecesCollect(pieces[..n], pairs[..n]);
      assert ReadsAs(pieces[n], pairs[n]);
    }
  }

  lemma JoinCollects(pieces: seq<string>, pairs: seq<Pair>)
    requires ReadAs(pieces, pairs)
    ensures ParseQuery(Join(pieces, "&")) == Collect(pairs)
  {
    assert "&" == ['&'];
    PiecesCollect(pieces, pairs);
    if pairs == [] {
      assert Split("", '&') == [""];
      assert [""][..0] == [] && Reading("") == None;
    } else {
      forall i | 0 <= i < |pieces| ensures '&' !in pieces[i] {
        assert ReadsAs(pieces[i], pairs[i]);
      }
      SplitJoin(pieces, '&');
    }
  }

  lemma BothRead(pairs: seq<Pair>)
    requires OctetPairs(pairs)
    ensures ReadAs(WirePairs(pairs), pairs) && ReadAs(CanonicalPairs(pairs), pairs)
  {
    forall i | 0 <= i < |pairs| ensures ReadsAs(WirePair(pairs[i]), pairs[i]) && ReadsAs(CanonicalPair(pairs[i]), pairs[i]) {
      var p := pairs[i];
      BothEncode(p.0);
      BothEncode(p.1);
      PieceReads(QueryEscape(p.0), QueryEscape(p.1), p);
      PieceReads(Rfc3986Escape(p.0), Rfc3986Escape(p.1), p);
    }
  }

  // ----- Collecting the pairs gives the values back -----

  function WithoutEmpty(values: Values): Values {
    map k | k in values && values[k] != [] :: values[k]
  }

  function Extend(collected: Values, key: string, values: seq<string>): Values {
    if values == [] then collected else collected[key := values]
  }

  lemma AddToExtended(collected: Values, key: string, values: seq<string>, value: string)
    requires key !in collected
    ensures Add(Extend(collected, key, values), (key, value)) == Extend(collected, key, values + [value])
  {
  }

  lemma {:induction false} CollectOneKey(before: seq<Pair>, key: string, values: seq<string>)
    requires key !in Collect(before)
    ensures Collect(before + PairsOf(key, values)) == Extend(Collect(before), key, values)
  {
    var all := before + PairsOf(key, values);
    if values == [] {
      assert all == before;
    } else {
      var n := |values| - 1;
      var shorter := before + PairsOf(key, values[..n]);
      CollectOneKey(before, key, values[..n]);
      assert all[..|all| - 1] == shorter && all[|all| - 1] == (key, values[n]);
      AddToExtended(Collect(before), key, values[..n], values[n]);
      assert values == values[..n] + [values[n]];
    }
  }

  function Restricted(keys: seq<string>, values: Values): Values
    requires forall k :: k in keys ==> k in values
  {
    map k | k in keys && values[k] != [] :: values[k]
  }

  lemma RestrictedSnoc(keys: seq<string>, key: string, values: Values)
    requires key in values && forall k :: k in keys ==> k in values
    ensures Restricted(keys + [key], values) == Extend(Restricted(keys, values), key, values[key])
  {
    if values[key] == [] {
      forall k | k in keys + [key] && values[k] != [] ensures k in keys {
      }
    }
  }

  lemma {:induction false} CollectKeys(keys: seq<string>, values: Values)
    requires Ascending(keys) && forall k :: k in keys ==> k in values
    ensures Collect(Pairs(keys, values)) == Restricted(keys, values)
  {
    if keys != [] {
      var n := |keys| - 1;
      var earlier, key := keys[..n], keys[n];
      CollectKeys(earlier, values);
      PairsSnoc(keys, n, values);
      forall k | k in earlier ensures k != key {
        LessIrreflexive(key);
      }
      CollectOneKey(Pairs(earlier, values), key, values[key]);
      RestrictedSnoc(earlier, key, values);
      assert keys[..n + 1] == keys && keys == earlier + [key];
    }
  }

  lemma CollectAll(values: Values)
    ensures Collect(AllPairs(values)) == WithoutEmpty(values)
  {
    var keys := SortedKeys(values.Keys);
    CollectKeys(keys, values);
    forall k ensures k in values <==> k in keys {
      assert k in values <==> k in Elements(keys);
    }
  }

  lemma PairsOctets(keys: seq<string>, values: Values)
    requires OctetValues(values) && forall k :: k in keys ==> k in values
    ensures OctetPairs(Pairs(keys, values))
  {
  }

  // ----- Keys without values leave no trace -----

  function WithValues(keys: seq<string>, values: Values): (r: seq<string>)
    requires forall k :: k in keys ==> k in values
    ensures forall k :: k in r <==> k in keys && values[k] != []
  {
    if keys == [] then []
    else (if values[keys[0]] == [] then [] else [keys[0]]) + WithValues(keys[1..], values)
  }

  lemma {:induction false} WithValuesPairs(keys: seq<string>, values: Values)
    requires Ascending(keys) && forall k :: k in keys ==> k in values
    ensures Ascending(WithValues(keys, values))
    ensures Pairs(WithValues(keys, values), WithoutEmpty(values)) == Pairs(keys, values)
  {
    if keys != [] {
      var rest := WithValues(keys[1..], values);
      WithValuesPairs(keys[1..], values);
      assert keys == [keys[0]] + keys[1..];
      if values[keys[0]] != [] {
        BelowFirst(keys[0], keys);
        AscendingCons(keys[0], rest);
        assert ([keys[0]] + rest)[1..] == rest;
      } else {
        assert WithValues(keys, values) == rest && PairsOf(keys[0], []) == [];
      }
    }
  }

  lemma EmptyListsIgnored(values: Values)
    ensures AllPairs(WithoutEmpty(values)) == AllPairs(values)
  {
    var keys := SortedKeys(values.Keys);
    WithValuesPairs(keys, values);
    var kept := WithValues(keys, values);
    forall k ensures k in kept <==> k in WithoutEmpty(values) {
      assert k in values <==> k in Elements(keys);
    }
    assert Elements(kept) == WithoutEmpty(values).Keys;
    SortedKeysUnique(kept);
  }

  // ----- What is signed is what is sent -----

  /** The server reads back every value that was set, and the canonical query it builds from what
      it reads is the one that was signed. */
  lemma SignedIsSent(values: Values)
    requires OctetValues(values)
    ensures ParseQuery(WireQuery(values)) == WithoutEmpty(values)
    ensures CanonicalQuery(ParseQuery(WireQuery(values))) == CanonicalQuery(values)
  {
    var pairs := AllPairs(values);
    PairsOctets(SortedKeys(values.Keys), values);
    BothRead(pairs);
    JoinCollects(WirePairs(pairs), pairs);
    CollectAll(values);
    EmptyListsIgnored(values);
  }

  /** The canonical query is itself a query with the same values, so it determines them. */
  lemma CanonicalQueryInjective(values: Values, others: Values)
    requires OctetValues(values) && OctetValues(others)
    ensures ParseQuery(CanonicalQuery(values)) == WithoutEmpty(values)
    ensures CanonicalQuery(values) == CanonicalQuery(others) <==> WithoutEmpty(values) == WithoutEmpty(others)
  {
    CanonicalQueryReads(values);
    CanonicalQueryReads(others);
    EmptyListsIgnored(values);
    EmptyListsIgnored(others);
  }

  lemma CanonicalQueryReads(values: Values)
    requires OctetValues(values)
    ensures ParseQuery(CanonicalQuery(values)) == WithoutEmpty(values)
  {
    var pairs := AllPairs(values);
    PairsOctets(SortedKeys(values.Keys), values);
    BothRead(pairs);
    JoinCollects(CanonicalPairs(pairs), pairs);
    CollectAll(values);
  }

  // ----- The order AWS asks for -----

  /** The scheme orders pairs by their encoded names, and pairs of one name by their encoded values. */
  predicate NotAfter(p: Pair, q: Pair) {
    var x, y := Rfc3986Escape(p.0), Rfc3986Escape(q.0);
    Less(x, y) || (x == y && !Less(Rfc3986Escape(q.1), Rfc3986Escape(p.1)))
  }

  predicate InSchemeOrder(pairs: seq<Pair>) {
    forall i, j :: 0 <= i < j < |pairs| ==> NotAfter(pairs[i], pairs[j])
  }

  /** Two raw values whose encodings are in order. */
  predicate ValuesFit(v: string, w: string) {
    v == w || if Less(v, w) then !Misordered(v, w) else Misordered(w, v)
  }

  predicate ValuesInOrder(values: seq<string>) {
    forall i, j :: 0 <= i < j < |values| ==> ValuesFit(values[i], values[j])
  }

  predicate SomeMisordered(keys: set<string>) {
    exists x, y :: x in keys && y in keys && Less(x, y) && Misordered(x, y)
  }

  lemma EncodedPair(x: string, y: string)
    requires Octets(x) && Octets(y) && Less(x, y)
    ensures Less(Rfc3986Escape(x), Rfc3986Escape(y)) <==> !Misordered(x, y)
    ensures Less(Rfc3986Escape(y), Rfc3986Escape(x)) <==> Misordered(x, y)
  {
    TwoPassesAreOne(x);
    TwoPassesAreOne(y);
    EncodedOrderExactly(x, y);
  }

  lemma ValuesFitExactly(v: string, w: string)
    requires Octets(v) && Octets(w)
    ensures ValuesFit(v, w) <==> !Less(Rfc3986Escape(w), Rfc3986Escape(v))
  {
    if v == w {
      LessIrreflexive(Rfc3986Escape(v));
    } else if Less(v, w) {
      EncodedPair(v, w);
    } else {
      LessTotal(v, w);
      EncodedPair(w, v);
    }
  }

  lemma OneKeyInOrder(key: string, values: seq<string>)
    requires forall i :: 0 <= i < |values| ==> Octets(values[i])
    ensures InSchemeOrder(PairsOf(key, values)) <==> ValuesInOrder(values)
  {
    LessIrreflexive(Rfc3986Escape(key));
    forall i, j | 0 <= i < j < |values|
      ensures NotAfter(PairsOf(key, values)[i], PairsOf(key, values)[j]) <==> ValuesFit(values[i], values[j])
    {
      ValuesFitExactly(values[i], values[j]);
    }
  }

  /** A pair of a smaller name before one of a larger. */
  lemma TwoKeysInOrder(p: Pair, q: Pair)
    requires Octets(p.0) && Octets(q.0) && Less(p.0, q.0)
    ensures NotAfter(p, q) <==> !Misordered(p.0, q.0)
  {
    EncodedPair(p.0, q.0);
    LessIrreflexive(Rfc3986Escape(p.0));
  }

  lemma {:induction false} PairsMembers(keys: seq<string>, values: Values)
    requires forall k :: k in keys ==> k in values
    ensures forall p :: p in Pairs(keys, values) <==> p.0 in keys && p.1 in values[p.0]
  {
    if keys != [] {
      PairsMembers(keys[1..], values);
      var first := PairsOf(keys[0], values[keys[0]]);
      forall p ensures p in first <==> p.0 == keys[0] && p.1 in values[keys[0]] {
        if p.0 == keys[0] && p.1 in values[keys[0]] {
          var i :| 0 <= i < |values[keys[0]]| && values[keys[0]][i] == p.1;
          assert first[i] == p;
        }
      }
      assert keys == [keys[0]] + keys[1..];
    }
  }

  predicate AllNotAfter(first: seq<Pair>, rest: seq<Pair>) {
    forall p, q :: p in first && q in rest ==> NotAfter(p, q)
  }

  lemma OrderJoins(first: seq<Pair>, rest: seq<Pair>)
    ensures InSchemeOrder(first + rest) <==> InSchemeOrder(first) && InSchemeOrder(rest) && AllNotAfter(first, rest)
  {
    var all := first + rest;
    if InSchemeOrder(all) {
      forall i, j | 0 <= i < j < |first| ensures NotAfter(first[i], first[j]) {
        assert NotAfter(all[i], all[j]);
      }
      forall i, j | 0 <= i < j < |rest| ensures NotAfter(rest[i], rest[j]) {
        assert NotAfter(all[|first| + i], all[|first| + j]);
      }
      forall p, q | p in first && q in rest ensures NotAfter(p, q) {
        var i :| 0 <= i < |first| && first[i] == p;
        var j :| 0 <= j < |rest| && rest[j] == q;
        assert NotAfter(all[i], all[|first| + j]);
      }
    }
  }

  /** The keys of the list that leave a trace in the query. */
  function Used(keys: seq<string>, values: Values): set<string>
    requires forall k :: k in keys ==> k in values
  {
    set k | k in keys && values[k] != []
  }

  predicate FirstFits(key: string, rest: seq<string>, values: Values)
    requires key in values && forall k :: k in rest ==> k in values
  {
    values[key] == [] || forall k :: k in Used(rest, values) ==> !Misordered(key, k)
  }

  /** What pairs of the first key and of the later ones are like. */
  lemma FirstAndRest(key: string, rest: seq<string>, values: Values, p: Pair, q: Pair)
    requires OctetValues(values) && key in values && forall k :: k in rest ==> k in values && Less(key, k)
    requires p in PairsOf(key, values[key]) && q in Pairs(rest, values)
    ensures p.0 == key && q.0 in Used(rest, values) && (NotAfter(p, q) <==> !Misordered(key, q.0))
  {
    PairsMembers(rest, values);
    TwoKeysInOrder(p, q);
  }

  lemma SomePair(key: string, rest: seq<string>, values: Values, k: string) returns (p: Pair, q: Pair)
    requires key in values && values[key] != [] && forall r :: r in rest ==> r in values
    requires k in Used(rest, values)
    ensures p in PairsOf(key, values[key]) && q in Pairs(rest, values) && q.0 == k
  {
    PairsMembers(rest, values);
    p, q := PairsOf(key, values[key])[0], (k, values[k][0]);
  }

  lemma FirstKeyInOrder(key: string, rest: seq<string>, values: Values)
    requires OctetValues(values) && key in values && forall k :: k in rest ==> k in values && Less(key, k)
    ensures AllNotAfter(PairsOf(key, values[key]), Pairs(rest, values)) <==> FirstFits(key, rest, values)
  {
    if FirstFits(key, rest, values) {
      forall p, q | p in PairsOf(key, values[key]) && q in Pairs(rest, values) ensures NotAfter(p, q) {
        FirstAndRest(key, rest, values, p, q);
      }
    } else {
      var k :| k in Used(rest, values) && Misordered(key, k);
      var p, q := SomePair(key, rest, values, k);
      FirstAndRest(key, rest, values, p, q);
    }
  }

  lemma MisorderedWith(keys: seq<string>, values: Values)
    requires keys != [] && Ascending(keys) && forall k :: k in keys ==> k in values
    ensures SomeMisordered(Used(keys, values)) <==>
      || SomeMisordered(Used(keys[1..], values))
      || (values[keys[0]] != [] && exists k :: k in Used(keys[1..], values) && Misordered(keys[0], k))
  {
    var key, rest := keys[0], keys[1..];
    assert keys == [key] + rest;
    assert Used(keys, values) == Used(rest, values) + if values[key] == [] then {} else {key};
    LessIrreflexive(key);
    BelowFirst(key, keys);
    forall k | k in rest ensures Less(key, k) && !Less(k, key) {
      if Less(k, key) {
        LessTrans(key, k, key);
      }
    }
  }

  lemma {:induction false} PairsInOrder(keys: seq<string>, values: Values)
    requires OctetValues(values) && Ascending(keys) && forall k :: k in keys ==> k in values
    ensures InSchemeOrder(Pairs(keys, values)) <==>
      !SomeMisordered(Used(keys, values)) && forall k :: k in keys ==> ValuesInOrder(values[k])
  {
    if keys != [] {
      var key, rest := keys[0], keys[1..];
      assert keys == [key] + rest;
      BelowFirst(key, keys);
      PairsInOrder(rest, values);
      OrderJoins(PairsOf(key, values[key]), Pairs(rest, values));
      OneKeyInOrder(key, values[key]);
      FirstKeyInOrder(key, rest, values);
      MisorderedWith(keys, values);
    }
  }

  /** The keys are sorted before they are encoded, and the values of a key not at all.  The pairs of
      the canonical query are in the order of the scheme exactly when no two keys that have values
      are misordered and the values of each key come in encoded order already. */
  lemma SchemeOrderExactly(values: Values)
    requires OctetValues(values)
    ensures InSchemeOrder(AllPairs(values)) <==>
      !SomeMisordered(WithoutEmpty(values).Keys) && forall k :: k in values ==> ValuesInOrder(values[k])
  {
    var keys := SortedKeys(values.Keys);
    PairsInOrder(keys, values);
    forall k ensures k in values <==> k in keys {
      assert k in values <==> k in Elements(keys);
    }
    assert Used(keys, values) == WithoutEmpty(values).Keys;
  }
}
