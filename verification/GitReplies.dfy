/** scripts/ci/pr-completion.mjs: reading what git and gh print. */
module GitReplies {
  import opened Decimal
  import opened Text

  // ----- JavaScript strings -----

  /** What String.prototype.trim takes for white space. */
  predicate IsBlank(c: char) {
    || '\t' <= c <= '\r' || c == ' ' || c == '\U{A0}' || c == '\U{FEFF}' || c == '\U{1680}'
    || '\U{2000}' <= c <= '\U{200A}' || c == '\U{2028}' || c == '\U{2029}' || c == '\U{202F}'
    || c == '\U{205F}' || c == '\U{3000}'
  }

  function Trimmed(s: string): string {
    Trim(IsBlank, s)
  }

  const NUL: char := '\0'

  // ----- parseLocalRefs -----

  type Refs = map<string, string>

  const HEADS := "refs/heads/"

  predicate IsHeadRef(ref: string) {
    HEADS <= ref
  }

  /** One line of the listing: None for a malformed or repeated ref. */
  function AddRef(refs: Refs, line: string): Option<Refs> {
    var i := IndexOf(line, NUL);
    var ref, objectId := if i < |line| then line[..i] else "", if i < |line| then line[i + 1..] else "";
    if line == "" then Some(refs)
    else if !IsHeadRef(ref) || objectId == "" || ref in refs then None
    else Some(refs[ref := objectId])
  }

  function RefsOf(lines: seq<string>): Option<Refs> {
    if lines == [] then Some(map[])
    else
      match RefsOf(lines[..|lines| - 1])
      case None => None
      case Some(refs) => AddRef(refs, lines[|lines| - 1])
  }

  function LocalRefs(stdout: string): Option<Refs> {
    RefsOf(Split(TrimEnd(IsBlank, stdout), '\n'))
  }

  /** A line that fails makes the whole listing fail. */
  lemma {:induction false} BadLineSpoils(lines: seq<string>, i: nat)
    requires i <= |lines| && RefsOf(lines[..i]).None?
    ensures RefsOf(lines).None?
  {
    if i < |lines| {
      assert lines[..|lines| - 1][..i] == lines[..i];
      BadLineSpoils(lines[..|lines| - 1], i);
    } else {
      assert lines[..i] == lines;
    }
  }

  lemma RefsSnoc(lines: seq<string>, i: nat, refs: Refs)
    requires i < |lines| && RefsOf(lines[..i]) == Some(refs)
    ensures RefsOf(lines[..i + 1]) == AddRef(refs, lines[i])
  {
    var longer := lines[..i + 1];
    assert longer[..i] == lines[..i] && longer[|longer| - 1] == lines[i];
  }

  /** The loop that fills the Map; the exception it throws is the result None. */
  method ParseLocalRefs(stdout: string) returns (parsed: Option<Refs>)
    ensures parsed == LocalRefs(stdout)
  {
    var lines := Split(TrimEnd(IsBlank, stdout), '\n');
    var refs: Refs := map[];
    for i := 0 to |lines|
      invariant RefsOf(lines[..i]) == Some(refs)
    {
      var line := lines[i];
      RefsSnoc(lines, i, refs);
      if line == "" {
        continue;
      }
      var separator := IndexOf(line, NUL);
      var ref := if separator < |line| then line[..separator] else "";
      var objectId := if separator < |line| then line[separator + 1..] else "";
      if !IsHeadRef(ref) || objectId == "" || ref in refs {
        BadLineSpoils(lines, i + 1);
        return None;
      }
      refs := refs[ref := objectId];
    }
    assert lines[..|lines|] == lines;
    parsed := Some(refs);
  }

  type Listing = seq<(string, string)>

  /** What `git for-each-ref` prints for one ref in the format the script asks for. */
  function RefLine(entry: (string, string)): string {
    entry.0 + [NUL] + entry.1
  }

  function RefLines(listing: Listing): seq<string> {
    seq(|listing|, i requires 0 <= i < |listing| => RefLine(listing[i]))
  }

  function Printed(listing: Listing): string {
    if listing == [] then "" else Join(RefLines(listing), "\n") + "\n"
  }

  predicate Listable(entry: (string, string)) {
    && IsHeadRef(entry.0) && NUL !in entry.0 && '\n' !in entry.0
    && entry.1 != "" && '\n' !in entry.1 && !IsBlank(entry.1[|entry.1| - 1])
  }

  /** A listing of `refs`: each branch once, in any order. */
  predicate Lists(listing: Listing, refs: Refs) {
    && (forall i :: 0 <= i < |listing| ==> Listable(listing[i]))
    && (forall i, j :: 0 <= i < j < |listing| ==> listing[i].0 != listing[j].0)
    && (forall i :: 0 <= i < |listing| ==> listing[i].0 in refs && refs[listing[i].0] == listing[i].1)
    && (forall ref :: ref in refs ==> exists i :: 0 <= i < |listing| && listing[i].0 == ref)
  }

  lemma ListedInLonger(listing: Listing, refs: Refs, entry: (string, string), ref: string)
    requires Lists(listing, refs) && (ref == entry.0 || ref in refs)
    ensures exists i :: 0 <= i < |listing + [entry]| && (listing + [entry])[i].0 == ref
  {
    var longer := listing + [entry];
    if ref == entry.0 {
      assert longer[|listing|].0 == ref;
    } else {
      var i :| 0 <= i < |listing| && listing[i].0 == ref;
      assert longer[i].0 == ref;
    }
  }

  lemma ListsOneMore(listing: Listing, refs: Refs, entry: (string, string))
    requires Lists(listing, refs) && Listable(entry) && entry.0 !in refs
    ensures Lists(listing + [entry], refs[entry.0 := entry.1])
  {
    var longer, more := listing + [entry], refs[entry.0 := entry.1];
    forall i | 0 <= i < |listing| ensures longer[i] == listing[i] && longer[i].0 != entry.0 {
      assert listing[i].0 in refs;
    }
    forall ref | ref in more ensures exists i :: 0 <= i < |longer| && longer[i].0 == ref {
      ListedInLonger(listing, refs, entry, ref);
    }
  }

  /** Branches with names and object ids as git has them do have a listing. */
  lemma {:induction false} ListingExists(refs: Refs) returns (listing: Listing)
    requires forall ref :: ref in refs ==> Listable((ref, refs[ref]))
    ensures Lists(listing, refs)
  {
    if refs == map[] {
      listing := [];
    } else {
      var ref :| ref in refs;
      var rest := refs - {ref};
      listing := ListingExists(rest);
      assert rest[ref := refs[ref]] == refs;
      ListsOneMore(listing, rest, (ref, refs[ref]));
      listing := listing + [(ref, refs[ref])];
    }
  }

  lemma LineReads(entry: (string, string), refs: Refs)
    requires Listable(entry) && entry.0 !in refs
    ensures AddRef(refs, RefLine(entry)) == Some(refs[entry.0 := entry.1])
  {
    IndexOfAfter(entry.0, NUL, entry.1);
    var line := RefLine(entry);
    assert line[..|entry.0|] == entry.0 && line[|entry.0| + 1..] == entry.1;
  }

  predicate InRefs(listing: Listing, n: nat, refs: Refs)
    requires n <= |listing|
  {
    && (forall i :: 0 <= i < n ==> listing[i].0 in refs && refs[listing[i].0] == listing[i].1)
    && (forall ref :: ref in refs ==> exists i :: 0 <= i < n && listing[i].0 == ref)
  }

  lemma OneMore(listing: Listing, n: nat, refs: Refs) returns (more: Refs)
    requires n < |listing| && InRefs(listing, n, refs)
    requires forall i, j :: 0 <= i < j < |listing| ==> listing[i].0 != listing[j].0
    ensures listing[n].0 !in refs && more == refs[listing[n].0 := listing[n].1] && InRefs(listing, n + 1, more)
  {
    more := refs[listing[n].0 := listing[n].1];
    forall ref | ref in more ensures exists i :: 0 <= i < n + 1 && listing[i].0 == ref {
      if ref != listing[n].0 {
        var i :| 0 <= i < n && listing[i].0 == ref;
      }
    }
  }

  lemma {:induction false} LinesRead(listing: Listing, n: nat) returns (refs: Refs)
    requires n <= |listing|
    requires forall i :: 0 <= i < |listing| ==> Listable(listing[i])
    requires forall i, j :: 0 <= i < j < |listing| ==> listing[i].0 != listing[j].0
    ensures RefsOf(RefLines(listing)[..n]) == Some(refs) && InRefs(listing, n, refs)
  {
    if n == 0 {
      refs := map[];
    } else {
      var earlier := LinesRead(listing, n - 1);
      var entry := listing[n - 1];
      refs := OneMore(listing, n - 1, earlier);
      RefsSnoc(RefLines(listing), n - 1, earlier);
      LineReads(entry, earlier);
    }
  }

  lemma PrintedTrims(listing: Listing)
    requires listing != [] && forall i :: 0 <= i < |listing| ==> Listable(listing[i])
    ensures TrimEnd(IsBlank, Printed(listing)) == Join(RefLines(listing), "\n")
  {
    var text := Join(RefLines(listing), "\n");
    LastOfJoin(RefLines(listing));
    var last := listing[|listing| - 1].1;
    assert text[|text| - 1] == last[|last| - 1];
    assert Printed(listing)[..|text|] == text;
  }

  lemma {:induction false} LastOfJoin(lines: seq<string>)
    requires lines != [] && lines[|lines| - 1] != ""
    ensures var text := Join(lines, "\n"); var last := lines[|lines| - 1];
      text != "" && text[|text| - 1] == last[|last| - 1]
  {
    if |lines| > 1 {
      LastOfJoin(lines[1..]);
    }
  }

  /** Reading a printed listing gives back the refs, whatever order they were listed in. */
  lemma ParsePrinted(listing: Listing, refs: Refs)
    requires Lists(listing, refs)
    ensures LocalRefs(Printed(listing)) == Some(refs)
  {
    AllLinesRead(listing, refs);
    if listing == [] {
      assert Split("", '\n') == [""];
      assert [""][..0] == [] && AddRef(map[], "") == Some(map[]);
      assert RefLines(listing) == [];
    } else {
      PrintedLines(listing);
    }
  }

  lemma AllLinesRead(listing: Listing, refs: Refs)
    requires Lists(listing, refs)
    ensures RefsOf(RefLines(listing)) == Some(refs)
  {
    var read := LinesRead(listing, |listing|);
    assert RefLines(listing)[..|listing|] == RefLines(listing);
    assert read == refs;
  }

  lemma PrintedLines(listing: Listing)
    requires listing != [] && forall i :: 0 <= i < |listing| ==> Listable(listing[i])
    ensures Split(TrimEnd(IsBlank, Printed(listing)), '\n') == RefLines(listing)
  {
    var lines := RefLines(listing);
    PrintedTrims(listing);
    forall i | 0 <= i < |lines| ensures '\n' !in lines[i] {
      assert lines[i] == RefLine(listing[i]) && Listable(listing[i]);
    }
    assert "\n" == ['\n'];
    SplitJoin(lines, '\n');
  }

  // ----- resumePartialWorktreeRemoval: an interrupted delete and nothing else -----

  predicate IsDeletion(entry: string) {
    |entry| >= 2 && (entry[..2] == " D" || entry[..2] == "D ")
  }

  /** At least one entry, and deletions only. */
  predicate OnlyDeletions(stdout: string) {
    (exists i :: 0 <= i < |Split(stdout, NUL)| && Split(stdout, NUL)[i] != "")
    && forall i :: 0 <= i < |Split(stdout, NUL)| ==> Split(stdout, NUL)[i] == "" || IsDeletion(Split(stdout, NUL)[i])
  }

  method CheckDeletions(stdout: string) returns (ok: bool)
    ensures ok == OnlyDeletions(stdout)
  {
    var entries := Split(stdout, NUL);
    var any := false;
    for i := 0 to |entries|
      invariant any == exists j :: 0 <= j < i && entries[j] != ""
      invariant forall j :: 0 <= j < i ==> entries[j] == "" || IsDeletion(entries[j])
    {
      if entries[i] != "" {
        any := true;
        if !IsDeletion(entries[i]) {
          return false;
        }
      }
    }
    ok := any;
  }

  // ----- containsPath -----

  /** The segments of a canonical absolute path: none empty, none `.` or `..`, none with a slash. */
  predicate Canonical(segments: seq<string>) {
    forall i :: 0 <= i < |segments| ==>
      segments[i] != "" && segments[i] != "." && segments[i] != ".." && '/' !in segments[i]
  }

  function Common(a: seq<string>, b: seq<string>): (n: nat)
    ensures n <= |a| && n <= |b| && a[..n] == b[..n]
    ensures n < |a| && n < |b| ==> a[n] != b[n]
  {
    if a == [] || b == [] || a[0] != b[0] then 0
    else
      var n := Common(a[1..], b[1..]);
      assert a[..n + 1] == [a[0]] + a[1..][..n] && b[..n + 1] == [b[0]] + b[1..][..n];
      n + 1
  }

  /** path.relative between canonical absolute paths: up to the common ancestor, then down. */
  function Relative(parent: seq<string>, child: seq<string>): string {
    var n := Common(parent, child);
    Join(seq(|parent| - n, _ => "..") + child[n..], "/")
  }

  function ContainsPath(parent: seq<string>, child: seq<string>): bool {
    var path := Relative(parent, child);
    path == "" || (path != ".." && !("../" <= path) && !("/" <= path))
  }

  /** The string test on the relative path is exactly the prefix relation on segments. */
  lemma ContainsExactly(parent: seq<string>, child: seq<string>)
    requires Canonical(parent) && Canonical(child)
    ensures ContainsPath(parent, child) <==> parent <= child
  {
    var n := Common(parent, child);
    var ups, downs := seq(|parent| - n, _ => ".."), child[n..];
    if n < |parent| {
      assert ups + downs == [".."] + (ups[1..] + downs);
      FirstSegment("..", ups[1..] + downs);
    } else {
      assert ups + downs == downs && parent == child[..n];
      if downs != [] {
        assert downs == [child[n]] + downs[1..];
        FirstSegment(child[n], downs[1..]);
      }
    }
  }

  // ----- Merge evidence -----

  /** A mergeCommit field: a string, an object with a string oid, or anything else. */
  datatype Commit = Plain(text: string) | WithOid(oid: string) | Neither

  function MergeCommitOid(value: Commit): Option<string> {
    match value
    case Plain(text) => if text != "" then Some(text) else None
    case WithOid(oid) => if oid != "" then Some(oid) else None
    case Neither => None
  }

  /** A field that is not a string is None. */
  function HeadOid(value: Option<string>): Option<string> {
    if value == Some("") then None else value
  }

  datatype Merged = Merged(number: int, mergedAt: Option<string>, mergeCommit: Commit, headRefOid: Option<string>)

  datatype View = View(state: Option<string>, mergedAt: Option<string>, mergeCommit: Commit,
                       headRefName: Option<string>, headRefOid: Option<string>)

  function Numbered(entries: seq<Merged>, number: int): seq<Merged> {
    if entries == [] then []
    else (if entries[0].number == number then [entries[0]] else []) + Numbered(entries[1..], number)
  }

  /** The head both sources agree on, when they tell the same story; None otherwise. */
  function ProvenHead(entries: seq<Merged>, view: View, number: int, branch: string): Option<string> {
    var matching := Numbered(entries, number);
    if |matching| != 1 then None
    else
      var entry := matching[0];
      if && entry.mergedAt.Some? && entry.mergedAt.value != "" && MergeCommitOid(entry.mergeCommit).Some?
         && view.state == Some("MERGED") && view.mergedAt == entry.mergedAt
         && MergeCommitOid(view.mergeCommit) == MergeCommitOid(entry.mergeCommit)
         && view.headRefName == Some(branch)
         && HeadOid(entry.headRefOid).Some? && HeadOid(view.headRefOid) == HeadOid(entry.headRefOid)
      then HeadOid(view.headRefOid)
      else None
  }

  lemma {:induction false} NumberedExactly(entries: seq<Merged>, number: int)
    ensures forall e :: e in Numbered(entries, number) <==> e in entries && e.number == number
  {
    if entries != [] {
      NumberedExactly(entries[1..], number);
      assert entries == [entries[0]] + entries[1..];
    }
  }

  /** A proven head was reported by one listed merge of this very number and by the view of it, with
      the same time, commit and head, and the view names the branch. */
  lemma HeadHasTwoSources(entries: seq<Merged>, view: View, number: int, branch: string)
    requires ProvenHead(entries, view, number, branch).Some?
    ensures var head := ProvenHead(entries, view, number, branch).value;
      && head != "" && view.headRefOid == Some(head) && view.headRefName == Some(branch) && view.state == Some("MERGED")
      && (exists e :: e in entries && e.number == number && e.headRefOid == Some(head)
                      && e.mergedAt == view.mergedAt && MergeCommitOid(e.mergeCommit) == MergeCommitOid(view.mergeCommit))
    ensures forall e, f :: e in entries && f in entries && e.number == number && f.number == number ==> e == f
  {
    var matching := Numbered(entries, number);
    NumberedExactly(entries, number);
    assert matching == [matching[0]];
    assert matching[0] in matching;
  }
}
