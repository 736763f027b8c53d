/** strings.Join, strings.Split and friends, with the laws that tie them together. */
module Text {

  function Join(parts: seq<string>, separator: string): string {
    if parts == [] then ""
    else if |parts| == 1 then parts[0]
    else parts[0] + separator + Join(parts[1..], separator)
  }

  /** What a loop writes before its `i`-th part. */
  function Between(i: nat, separator: string): string {
    if i > 0 then separator else ""
  }

  lemma Concatenated(a: string, b: string, c: string)
    ensures a + b + c == a + (b + c)
  {
  }

  lemma Surrounded(start: string, open: string, inner: string, close: string)
    ensures start + open + inner + close == start + (open + inner + close)
  {
  }

  /** Writing parts left to right, separator first from the second on, builds the join. */
  lemma {:induction false} JoinSnoc(parts: seq<string>, i: nat, separator: string)
    requires i < |parts|
    ensures Join(parts[..i + 1], separator)
         == Join(parts[..i], separator) + (Between(i, separator) + parts[i])
  {
    var longer, shorter := parts[..i + 1], parts[..i];
    if i > 0 {
      JoinSnoc(parts[1..], i - 1, separator);
      assert longer[1..] == parts[1..][..i] && shorter[1..] == parts[1..][..i - 1];
      Concatenated(parts[0] + separator, Join(shorter[1..], separator), Between(i - 1, separator) + parts[i]);
    }
  }

  function ConcatMap(f: char -> string, s: string): string {
    if s == "" then "" else f(s[0]) + ConcatMap(f, s[1..])
  }

  lemma {:induction false} ConcatMapJoin(f: char -> string, s: string, t: string)
    ensures ConcatMap(f, s + t) == ConcatMap(f, s) + ConcatMap(f, t)
  {
    if s == "" {
      assert s + t == t;
    } else {
      ConcatMapJoin(f, s[1..], t);
      assert (s + t)[1..] == s[1..] + t;
      Concatenated(f(s[0]), ConcatMap(f, s[1..]), ConcatMap(f, t));
    }
  }

  lemma ConcatMapSnoc(f: char -> string, s: string, i: nat)
    requires i < |s|
    ensures ConcatMap(f, s[..i + 1]) == ConcatMap(f, s[..i]) + f(s[i])
  {
    ConcatMapJoin(f, s[..i], [s[i]]);
    assert s[..i + 1] == s[..i] + [s[i]];
    assert ConcatMap(f, [s[i]]) == f(s[i]) + ConcatMap(f, []);
  }

  predicate IsWhiteSpace(c: char) {
    || c == ' ' || '\t' <= c <= '\r' || c == '\U{85}' || c == '\U{A0}' || c == '\U{1680}'
    || '\U{2000}' <= c <= '\U{200A}' || c == '\U{2028}' || c == '\U{2029}' || c == '\U{202F}'
    || c == '\U{205F}' || c == '\U{3000}'
  }

  /** strings.TrimSpace leaves nothing. */
  predicate Blank(s: string) {
    forall i :: 0 <= i < |s| ==> IsWhiteSpace(s[i])
  }

  // ----- Trimming -----

  function TrimStart(blank: char -> bool, s: string): string {
    if s != "" && blank(s[0]) then TrimStart(blank, s[1..]) else s
  }

  function TrimEnd(blank: char -> bool, s: string): string {
    if s != "" && blank(s[|s| - 1]) then TrimEnd(blank, s[..|s| - 1]) else s
  }

  /** strings.TrimFunc. */
  function Trim(blank: char -> bool, s: string): string {
    TrimEnd(blank, TrimStart(blank, s))
  }

  lemma {:induction false} TrimStartKeeps(blank: char -> bool, s: string)
    ensures forall c :: c in TrimStart(blank, s) ==> c in s
    ensures TrimStart(blank, s) == "" <==> forall i :: 0 <= i < |s| ==> blank(s[i])
    ensures TrimStart(blank, s) != "" ==> !blank(TrimStart(blank, s)[0])
  {
    if s != "" && blank(s[0]) {
      TrimStartKeeps(blank, s[1..]);
      assert forall i :: 0 < i < |s| ==> s[i] == s[1..][i - 1];
    }
  }

  lemma {:induction false} TrimEndKeeps(blank: char -> bool, s: string)
    ensures forall c :: c in TrimEnd(blank, s) ==> c in s
    ensures s != "" && !blank(s[0]) ==> TrimEnd(blank, s) != ""
  {
    if s != "" && blank(s[|s| - 1]) {
      TrimEndKeeps(blank, s[..|s| - 1]);
    }
  }

  /** Trimming only drops characters, and leaves nothing exactly when every character is blank. */
  lemma TrimExactly(blank: char -> bool, s: string)
    ensures forall c :: c in Trim(blank, s) ==> c in s
    ensures Trim(blank, s) == "" <==> forall i :: 0 <= i < |s| ==> blank(s[i])
  {
    TrimStartKeeps(blank, s);
    TrimEndKeeps(blank, TrimStart(blank, s));
  }

  lemma BlankExactly(s: string)
    ensures Blank(s) <==> Trim(IsWhiteSpace, s) == ""
  {
    TrimExactly(IsWhiteSpace, s);
  }

  // ----- First occurrences -----

  /** strings.IndexByte; the length of `s` when `c` does not occur. */
  function IndexOf(s: string, c: char): (i: nat)
    ensures i <= |s| && c !in s[..i]
    ensures i < |s| ==> s[i] == c
  {
    if s == "" || s[0] == c then 0
    else
      var i := IndexOf(s[1..], c);
      assert s[..1 + i] == [s[0]] + s[1..][..i];
      1 + i
  }

  /** A separator that does not occur in what precedes it is found where it was put. */
  lemma {:induction false} IndexOfAfter(s: string, c: char, rest: string)
    requires c !in s
    ensures IndexOf(s + [c] + rest, c) == |s|
  {
    var text := s + [c] + rest;
    if s != "" {
      assert text[0] == s[0] && s[0] in s;
      IndexOfAfter(s[1..], c, rest);
      assert text[1..] == s[1..] + [c] + rest;
    }
  }

  /** Cutting two texts at their first separator: equal texts have equal halves. */
  lemma CutEqual(a: string, b: string, c: char, x: string, y: string)
    requires c !in a && c !in b
    requires a + [c] + x == b + [c] + y
    ensures a == b && x == y
  {
    IndexOfAfter(a, c, x);
    IndexOfAfter(b, c, y);
    assert a == (a + [c] + x)[..|a|] && b == (b + [c] + y)[..|b|];
    assert x == (a + [c] + x)[|a| + 1..] && y == (b + [c] + y)[|b| + 1..];
  }

  // ----- strings.Split with a one-character separator -----

  function Split(s: string, c: char): (parts: seq<string>)
    ensures parts != []
    ensures forall i :: 0 <= i < |parts| ==> c !in parts[i]
    decreases |s|
  {
    var i := IndexOf(s, c);
    if i == |s| then
      assert s[..i] == s;
      [s]
    else [s[..i]] + Split(s[i + 1..], c)
  }

  lemma {:induction false} JoinSplit(s: string, c: char)
    ensures Join(Split(s, c), [c]) == s
    decreases |s|
  {
    var i := IndexOf(s, c);
    if i == |s| {
      assert s[..i] == s;
    } else {
      var rest := s[i + 1..];
      JoinSplit(rest, c);
      JoinFirst(s[..i], Split(rest, c), [c]);
      assert s == s[..i] + [c] + rest;
    }
  }

  lemma JoinFirst(first: string, rest: seq<string>, separator: string)
    requires rest != []
    ensures Join([first] + rest, separator) == first + separator + Join(rest, separator)
  {
    assert ([first] + rest)[1..] == rest;
  }

  lemma {:induction false} SplitJoin(parts: seq<string>, c: char)
    requires parts != [] && forall i :: 0 <= i < |parts| ==> c !in parts[i]
    ensures Split(Join(parts, [c]), c) == parts
  {
    var s := Join(parts, [c]);
    if |parts| == 1 {
      assert IndexOf(s, c) == |s|;
    } else {
      var rest := Join(parts[1..], [c]);
      SplitJoin(parts[1..], c);
      IndexOfAfter(parts[0], c, rest);
      assert s == parts[0] + [c] + rest;
      assert s[..|parts[0]|] == parts[0] && s[|parts[0]| + 1..] == rest;
      assert parts == [parts[0]] + parts[1..];
    }
  }

  /** A joined path begins with its first segment: it is relative, and climbs only by starting with `..`. */
  lemma FirstSegment(first: string, rest: seq<string>)
    requires first != "" && '/' !in first
    ensures var path := Join([first] + rest, "/");
      && path != "" && !("/" <= path)
      && ((path == ".." || "../" <= path) <==> first == "..")
  {
    var path := Join([first] + rest, "/");
    assert ([first] + rest)[1..] == rest;
    assert path == if rest == [] then first else first + "/" + Join(rest, "/");
    assert forall i :: 0 <= i < |first| ==> path[i] == first[i] && first[i] in first;
    assert |path| > |first| ==> path[|first|] == '/';
    var up := "../";
    assert up <= path <==> |path| >= 3 && path[0] == up[0] && path[1] == up[1] && path[2] == up[2];
    assert first == ".." <==> |first| == 2 && first[0] == '.' && first[1] == '.';
    assert |first| == 1 ==> path == first || path[1] == '/';
  }
}
