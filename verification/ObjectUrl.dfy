/** s3/s3.go: which path of the server a bucket-relative key is turned into. */
module ObjectUrl {
  import opened Decimal
  import opened Escaping
  import opened Text

  // ----- Escaping a path segment by segment -----

  function EscapeEach(segments: seq<string>): seq<string> {
    seq(|segments|, i requires 0 <= i < |segments| => Rfc3986Escape(segments[i]))
  }

  function EscapedSegments(p: string): string {
    Join(EscapeEach(Split(p, '/')), "/")
  }

  method EscapeInPlace(segments: array<string>)
    modifies segments
    ensures segments[..] == EscapeEach(old(segments[..]))
  {
    for i := 0 to segments.Length
      invariant forall j :: 0 <= j < i ==> segments[j] == Rfc3986Escape(old(segments[j]))
      invariant forall j :: i <= j < segments.Length ==> segments[j] == old(segments[j])
    {
      segments[i] := Rfc3986Escape(segments[i]);
    }
  }

  /** escapePathSegments: the slice of segments is overwritten in place. */
  method EscapePathSegments(p: string) returns (escaped: string)
    ensures escaped == EscapedSegments(p)
  {
    var parts := Split(p, '/');
    var segments := new string[|parts|](i requires 0 <= i < |parts| => parts[i]);
    assert segments[..] == parts;
    EscapeInPlace(segments);
    escaped := Join(segments[..], "/");
  }

  lemma SplitOctets(s: string, c: char)
    requires Octets(s)
    ensures forall i :: 0 <= i < |Split(s, c)| ==> Octets(Split(s, c)[i])
    decreases |s|
  {
    var i := IndexOf(s, c);
    if i < |s| {
      SplitOctets(s[i + 1..], c);
    }
  }

  lemma DecodeStep(segment: string, tail: string, value: string)
    requires Octets(segment) && PathUnescape(tail) == Some(value)
    ensures PathUnescape(Rfc3986Escape(segment) + "/" + tail) == Some(segment + "/" + value)
  {
    TwoPassesAreOne(segment);
    DecodeEncode(segment, '+');
    UnescapePlain('/', tail, '+');
    UnescapeJoin(PercentEncode(segment), "/" + tail, '+');
    Concatenated(PercentEncode(segment), "/", tail);
    Concatenated(segment, "/", value);
  }

  lemma {:induction false} DecodeSegments(segments: seq<string>)
    requires forall i :: 0 <= i < |segments| ==> Octets(segments[i])
    ensures PathUnescape(Join(EscapeEach(segments), "/")) == Some(Join(segments, "/"))
  {
    var escaped := EscapeEach(segments);
    if |segments| == 1 {
      TwoPassesAreOne(segments[0]);
      DecodeEncode(segments[0], '+');
    } else if |segments| > 1 {
      DecodeSegments(segments[1..]);
      assert escaped[1..] == EscapeEach(segments[1..]);
      DecodeStep(segments[0], Join(escaped[1..], "/"), Join(segments[1..], "/"));
    }
  }

  /** The escaped form net/url uses: a RawPath that decodes to the Path, else its own encoding. */
  function EscapedPath(path: string, rawPath: string, default: string): string {
    if rawPath != "" && PathUnescape(rawPath) == Some(path) then rawPath else default
  }

  /** Decoding the escaped path gives the path back, separators kept, so the pinned form is both
      what goes on the wire and what is signed; and its segments are the escaped segments. */
  lemma PathRoundTrip(p: string, default: string)
    requires Octets(p)
    ensures PathUnescape(EscapedSegments(p)) == Some(p)
    ensures p != "" ==> EscapedPath(p, EscapedSegments(p), default) == EscapedSegments(p)
    ensures Split(EscapedSegments(p), '/') == EscapeEach(Split(p, '/'))
  {
    var segments := Split(p, '/');
    SplitOctets(p, '/');
    DecodeSegments(segments);
    JoinSplit(p, '/');
    assert "/" == ['/'];
    forall i | 0 <= i < |segments| ensures '/' !in EscapeEach(segments)[i] {
      TwoPassesAreOne(segments[i]);
      EscapedHasOnly(segments[i]);
    }
    SplitJoin(EscapeEach(segments), '/');
  }

  // ----- Valid buckets and keys -----

  predicate BucketCharacter(c: char) {
    'a' <= c <= 'z' || '0' <= c <= '9' || c == '-' || c == '.'
  }

  /** validBucket's loop over the characters. */
  method ValidBucket(bucket: string) returns (ok: bool)
    ensures ok == IsBucket(bucket)
  {
    if |bucket| < 3 || |bucket| > 63 || bucket[0] == '-' || bucket[|bucket| - 1] == '-' {
      return false;
    }
    for i := 0 to |bucket|
      invariant forall j :: 0 <= j < i ==> BucketCharacter(bucket[j])
    {
      if !BucketCharacter(bucket[i]) {
        return false;
      }
    }
    ok := true;
  }

  predicate IsBucket(bucket: string) {
    && 3 <= |bucket| <= 63 && bucket[0] != '-' && bucket[|bucket| - 1] != '-'
    && forall i :: 0 <= i < |bucket| ==> BucketCharacter(bucket[i])
  }

  predicate HasTwoDots(s: string) {
    exists i :: 0 <= i < |s| - 1 && s[i] == '.' && s[i + 1] == '.'
  }

  /** validKey's loop over the parts between slashes. */
  method ValidKey(key: string) returns (ok: bool)
    ensures ok == IsKey(key)
  {
    if key == "" || key[0] == '/' || HasTwoDots(key) {
      return false;
    }
    var parts := Split(key, '/');
    for i := 0 to |parts|
      invariant forall j :: 0 <= j < i ==> parts[j] != "." && parts[j] != ".."
    {
      if parts[i] == "." || parts[i] == ".." {
        return false;
      }
    }
    ok := true;
  }

  predicate IsKey(key: string) {
    && key != "" && key[0] != '/' && !HasTwoDots(key)
    && forall i :: 0 <= i < |Split(key, '/')| ==> Split(key, '/')[i] != "." && Split(key, '/')[i] != ".."
  }

  // ----- path.Join -----

  /** path.Clean on a rooted path, segment by segment: empty and `.` vanish, `..` takes back what
      came before it and stops at the root. */
  function CleanedSegments(kept: seq<string>, segments: seq<string>): seq<string>
    decreases |segments|
  {
    if segments == [] then kept
    else
      var s := segments[0];
      CleanedSegments(
        if s == "" || s == "." then kept
        else if s == ".." then (if kept == [] then [] else kept[..|kept| - 1])
        else kept + [s],
        segments[1..])
  }

  function Clean(rooted: string): string {
    "/" + Join(CleanedSegments([], Split(rooted, '/')), "/")
  }

  function Slash(rest: string): string {
    "/" + rest
  }

  /** path.Join("/", path, bucket, key): empty elements after the first still get a slash. */
  function Joined(path: string, bucket: string, key: string): string {
    Clean(Slash(Slash(path + Slash(bucket + Slash(key)))))
  }

  datatype Location = Location(host: string, path: string, rawPath: string)

  /** objectURL; the configuration admits only an empty path or a lone slash on the endpoint. */
  method ObjectURL(endpoint: Location, pathStyle: bool, bucket: string, key: string) returns (location: Location)
    ensures location.path == if pathStyle then Joined(endpoint.path, bucket, key) else "/" + key
    ensures location.host == if pathStyle then endpoint.host else bucket + "." + endpoint.host
    ensures location.rawPath == EscapedSegments(location.path)
  {
    if pathStyle {
      location := endpoint.(path := Joined(endpoint.path, bucket, key));
    } else {
      location := endpoint.(host := bucket + "." + endpoint.host, path := "/" + key);
    }
    var raw := EscapePathSegments(location.path);
    location := location.(rawPath := raw);
  }

  // ----- Where a key lands -----

  function NonEmpty(segments: seq<string>): seq<string> {
    if segments == [] then []
    else (if segments[0] == "" then [] else [segments[0]]) + NonEmpty(segments[1..])
  }

  predicate Dotless(segments: seq<string>) {
    forall i :: 0 <= i < |segments| ==> segments[i] != "." && segments[i] != ".."
  }

  lemma Regrouped(kept: seq<string>, s: string, rest: seq<string>)
    ensures kept + [s] + rest == kept + ([s] + rest)
  {
  }

  lemma {:induction false} CleaningDotless(kept: seq<string>, segments: seq<string>)
    requires Dotless(segments)
    ensures CleanedSegments(kept, segments) == kept + NonEmpty(segments)
    decreases |segments|
  {
    if segments != [] {
      var s := segments[0];
      if s == "" {
        CleaningDotless(kept, segments[1..]);
      } else {
        CleaningDotless(kept + [s], segments[1..]);
        Regrouped(kept, s, NonEmpty(segments[1..]));
      }
    }
  }

  lemma SplitAfter(prefix: string, c: char, rest: string)
    requires c !in prefix
    ensures Split(prefix + [c] + rest, c) == [prefix] + Split(rest, c)
  {
    var s := prefix + [c] + rest;
    IndexOfAfter(prefix, c, rest);
    assert s[..|prefix|] == prefix && s[|prefix| + 1..] == rest;
  }

  lemma SplitSlash(rest: string)
    ensures Split(Slash(rest), '/') == [""] + Split(rest, '/')
  {
    SplitAfter("", '/', rest);
    assert Slash(rest) == "" + ['/'] + rest;
  }

  lemma SplitBucket(bucket: string, key: string)
    requires '/' !in bucket
    ensures Split(bucket + Slash(key), '/') == [bucket] + Split(key, '/')
  {
    Concatenated(bucket, "/", key);
    assert "/" == ['/'];
    SplitAfter(bucket, '/', key);
  }

  function Slashes(n: nat, rest: string): string {
    if n == 0 then rest else Slash(Slashes(n - 1, rest))
  }

  lemma {:induction false} SplitSlashes(n: nat, rest: string)
    ensures Split(Slashes(n, rest), '/') == seq(n, _ => "") + Split(rest, '/')
  {
    if n > 0 {
      SplitSlashes(n - 1, rest);
      SplitSlash(Slashes(n - 1, rest));
    }
  }

  lemma JoinedFront(path: string, tail: string)
    requires path == "" || path == "/"
    ensures Slash(Slash(path + Slash(tail))) == Slashes(3 + |path|, tail)
  {
    if path == "" {
      assert path + Slash(tail) == Slash(tail);
      assert Slashes(1, tail) == Slash(tail);
    } else {
      assert path + Slash(tail) == Slash(Slash(tail));
      assert Slashes(2, tail) == Slash(Slashes(1, tail));
    }
  }

  function ObjectSegments(bucket: string, key: string): seq<string> {
    [bucket] + NonEmpty(Split(key, '/'))
  }

  lemma EmptyFront(n: nat, segments: seq<string>)
    ensures NonEmpty(seq(n, _ => "") + segments) == NonEmpty(segments)
  {
    var all := seq(n, _ => "") + segments;
    if n == 0 {
      assert all == segments;
    } else {
      EmptyFront(n - 1, segments);
      assert all[1..] == seq(n - 1, _ => "") + segments;
    }
  }

  lemma BucketFirst(n: nat, bucket: string, segments: seq<string>)
    requires IsBucket(bucket) && Dotless(segments)
    ensures Dotless(seq(n, _ => "") + ([bucket] + segments))
    ensures [] + NonEmpty(seq(n, _ => "") + ([bucket] + segments)) == [bucket] + NonEmpty(segments)
  {
    EmptyFront(n, [bucket] + segments);
    assert ([bucket] + segments)[1..] == segments;
  }

  lemma CleanedObject(path: string, bucket: string, key: string)
    requires (path == "" || path == "/") && IsBucket(bucket) && (IsKey(key) || key == "")
    ensures Joined(path, bucket, key) == Slash(Join(ObjectSegments(bucket, key), "/"))
  {
    var segments := Split(key, '/');
    var n := 3 + |path|;
    JoinedFront(path, bucket + Slash(key));
    SplitSlashes(n, bucket + Slash(key));
    SplitBucket(bucket, key);
    BucketFirst(n, bucket, segments);
    CleaningDotless([], seq(n, _ => "") + ([bucket] + segments));
  }

  lemma {:induction false} NonEmptySlashless(segments: seq<string>)
    requires forall i :: 0 <= i < |segments| ==> '/' !in segments[i]
    ensures forall i :: 0 <= i < |NonEmpty(segments)| ==> '/' !in NonEmpty(segments)[i]
  {
    if segments != [] {
      NonEmptySlashless(segments[1..]);
    }
  }

  lemma ObjectSegmentsSlashless(bucket: string, key: string)
    requires IsBucket(bucket)
    ensures forall i :: 0 <= i < |ObjectSegments(bucket, key)| ==> '/' !in ObjectSegments(bucket, key)[i]
  {
    NonEmptySlashless(Split(key, '/'));
  }

  /** Path style: the bucket's segment and then exactly the key's non-empty segments, in order;
      so the path never leaves the bucket.  No key stands for the bucket itself. */
  lemma StaysInBucket(path: string, bucket: string, key: string)
    requires (path == "" || path == "/") && IsBucket(bucket) && (IsKey(key) || key == "")
    ensures Joined(path, bucket, key) == Slash(Join(ObjectSegments(bucket, key), "/"))
    ensures Split(Joined(path, bucket, key), '/') == [""] + ObjectSegments(bucket, key)
  {
    CleanedObject(path, bucket, key);
    ObjectSegmentsSlashless(bucket, key);
    var kept := ObjectSegments(bucket, key);
    assert "/" == ['/'];
    SplitJoin(kept, '/');
    SplitSlash(Join(kept, "/"));
  }

  lemma {:induction false} NonEmptyOctets(segments: seq<string>)
    requires forall i :: 0 <= i < |segments| ==> Octets(segments[i])
    ensures forall i :: 0 <= i < |NonEmpty(segments)| ==> Octets(NonEmpty(segments)[i])
  {
    if segments != [] {
      NonEmptyOctets(segments[1..]);
    }
  }

  lemma {:induction false} JoinOctets(segments: seq<string>)
    requires forall i :: 0 <= i < |segments| ==> Octets(segments[i])
    ensures Octets(Join(segments, "/"))
  {
    if |segments| > 1 {
      JoinOctets(segments[1..]);
    }
  }

  lemma ObjectOctets(path: string, bucket: string, key: string)
    requires (path == "" || path == "/") && IsBucket(bucket) && (IsKey(key) || key == "") && Octets(key)
    ensures Octets(Joined(path, bucket, key)) && Joined(path, bucket, key) != ""
  {
    CleanedObject(path, bucket, key);
    SplitOctets(key, '/');
    NonEmptyOctets(Split(key, '/'));
    JoinOctets(ObjectSegments(bucket, key));
  }

  lemma {:induction false} NothingDropped(segments: seq<string>)
    ensures |NonEmpty(segments)| <= |segments|
    ensures NonEmpty(segments) == segments <==> "" !in segments
  {
    if segments != [] {
      NothingDropped(segments[1..]);
      assert segments == [segments[0]] + segments[1..];
    }
  }

  lemma SegmentsDecide(p: string, q: string, bucket: string, s: seq<string>, t: seq<string>)
    requires p == Slash(Join([bucket] + s, "/")) && Split(p, '/') == [""] + ([bucket] + s)
    requires q == Slash(Join([bucket] + t, "/")) && Split(q, '/') == [""] + ([bucket] + t)
    ensures p == q <==> s == t
  {
    assert ([""] + ([bucket] + s))[2..] == s && ([""] + ([bucket] + t))[2..] == t;
  }

  /** Two keys land on the same path exactly when they have the same non-empty segments. */
  lemma KeysMeetExactly(path: string, bucket: string, key: string, other: string)
    requires (path == "" || path == "/") && IsBucket(bucket) && IsKey(key) && IsKey(other)
    ensures Joined(path, bucket, key) == Joined(path, bucket, other)
       <==> NonEmpty(Split(key, '/')) == NonEmpty(Split(other, '/'))
  {
    StaysInBucket(path, bucket, key);
    StaysInBucket(path, bucket, other);
    SegmentsDecide(Joined(path, bucket, key), Joined(path, bucket, other), bucket,
                   NonEmpty(Split(key, '/')), NonEmpty(Split(other, '/')));
  }

  /** On keys without empty segments the path determines the key. */
  lemma KeyInjective(path: string, bucket: string, key: string, other: string)
    requires (path == "" || path == "/") && IsBucket(bucket) && IsKey(key) && IsKey(other)
    requires "" !in Split(key, '/') && "" !in Split(other, '/')
    requires Joined(path, bucket, key) == Joined(path, bucket, other)
    ensures key == other
  {
    KeysMeetExactly(path, bucket, key, other);
    NothingDropped(Split(key, '/'));
    NothingDropped(Split(other, '/'));
    JoinSplit(key, '/');
    JoinSplit(other, '/');
  }

  /** Segments that are no dots can be put before a valid key. */
  lemma PrefixedIsKey(prefix: string, head: seq<string>, key: string)
    requires IsKey(key) && prefix != "" && prefix[0] != '/' && '.' !in prefix
    requires Split(prefix + key, '/') == head + Split(key, '/')
    requires forall i :: 0 <= i < |head| ==> head[i] != "." && head[i] != ".."
    ensures IsKey(prefix + key)
  {
    var longer := prefix + key;
    forall i | 0 <= i < |longer| - 1 ensures longer[i] != '.' || longer[i + 1] != '.' {
      if i >= |prefix| {
        assert longer[i] == key[i - |prefix|] && longer[i + 1] == key[i + 1 - |prefix|];
      } else {
        assert longer[i] in prefix;
      }
    }
    assert longer[0] == prefix[0];
  }

  lemma OneSlash(key: string)
    requires IsKey(key)
    ensures Split("a" + Slash(key), '/') == ["a"] + Split(key, '/') && IsKey("a" + Slash(key))
  {
    SplitBucket("a", key);
    Concatenated("a", "/", key);
    PrefixedIsKey("a" + "/", ["a"], key);
  }

  lemma TwoSlashes(key: string)
    requires IsKey(key)
    ensures Split("a" + Slash(Slash(key)), '/') == ["a"] + ([""] + Split(key, '/')) && IsKey("a" + Slash(Slash(key)))
  {
    SplitBucket("a", Slash(key));
    SplitSlash(key);
    Concatenated("a", "/", Slash(key));
    Concatenated("a" + "/", "/", key);
    assert ["a"] + ([""] + Split(key, '/')) == ["a", ""] + Split(key, '/');
    PrefixedIsKey("a" + "/" + "/", ["a", ""], key);
  }

  /** With an empty segment it does not: for every valid key `x`, the two valid keys `a//x` and `a/x`
      land on one path. */
  lemma KeysCollide(path: string, bucket: string, key: string)
    requires (path == "" || path == "/") && IsBucket(bucket) && IsKey(key)
    ensures var one, two := "a" + Slash(key), "a" + Slash(Slash(key));
      IsKey(one) && IsKey(two) && one != two && Joined(path, bucket, one) == Joined(path, bucket, two)
  {
    OneSlash(key);
    TwoSlashes(key);
    var rest := Split(key, '/');
    assert (["a"] + rest)[1..] == rest && (["a"] + ([""] + rest))[1..] == [""] + rest && ([""] + rest)[1..] == rest;
    KeysMeetExactly(path, bucket, "a" + Slash(key), "a" + Slash(Slash(key)));
  }
}
