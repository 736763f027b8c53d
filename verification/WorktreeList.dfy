/** scripts/ci/pr-completion.mjs: what git prints of its worktrees, and reading it back. */
module WorktreeList {
  import opened Decimal
  import opened GitReplies
  import opened Text

  // ----- parseWorktreeList -----

  /** A record as the script reads it; `raw` is its whole text. */
  datatype Worktree = Worktree(path: string, head: string, branch: Option<string>, detached: bool, raw: string)

  /** Where the first empty line begins. */
  function Break(text: string): (n: nat)
    ensures n <= |text|
  {
    if |text| < 2 then |text|
    else if text[0] == '\n' && text[1] == '\n' then 0
    else 1 + Break(text[1..])
  }

  function SkipNewlines(text: string): (rest: string)
    ensures |rest| <= |text|
    ensures text != "" && text[0] == '\n' ==> |rest| < |text|
  {
    if text != "" && text[0] == '\n' then SkipNewlines(text[1..]) else text
  }

  lemma BreakIsNewline(text: string)
    ensures Break(text) < |text| ==> text[Break(text)] == '\n'
  {
  }

  /** text.split(/\n\n+/). */
  function Records(text: string): seq<string>
    decreases |text|
  {
    var n := Break(text);
    BreakIsNewline(text);
    if n == |text| then [text] else [text[..n]] + Records(SkipNewlines(text[n..]))
  }

  /** lines.find(line => line.startsWith(prefix)). */
  function FindLine(lines: seq<string>, prefix: string): Option<string> {
    if lines == [] then None
    else if prefix <= lines[0] then Some(lines[0])
    else FindLine(lines[1..], prefix)
  }

  const PATH := "worktree "
  const HEAD := "HEAD "
  const BRANCH := "branch refs/heads/"

  /** One record; None for the exception.  `resolve` is realpathSync, or the path itself when that fails. */
  function ReadRecord(raw: string, resolve: string -> string): Option<Worktree> {
    var lines := Split(raw, '\n');
    var path, head, branch := FindLine(lines, PATH), FindLine(lines, HEAD), FindLine(lines, BRANCH);
    if path.None? || head.None? then None
    else Some(Worktree(resolve(After(path.value, PATH)), After(head.value, HEAD),
                       if branch.Some? then Some(After(branch.value, BRANCH)) else None, "detached" in lines, raw))
  }

  function After(line: string, prefix: string): string {
    if |prefix| <= |line| then line[|prefix|..] else ""
  }

  function ReadAll(records: seq<string>, resolve: string -> string): Option<seq<Worktree>> {
    if records == [] then Some([])
    else
      var first, rest := ReadRecord(records[0], resolve), ReadAll(records[1..], resolve);
      if first.None? || rest.None? then None else Some([first.value] + rest.value)
  }

  function ParseWorktreeList(stdout: string, resolve: string -> string): Option<seq<Worktree>> {
    if Trimmed(stdout) == "" then Some([]) else ReadAll(Records(TrimEnd(IsBlank, stdout)), resolve)
  }

  // ----- git worktree list --porcelain -----

  datatype State = Bare | Detached(head: string) | OnBranch(head: string, ref: string)

  /** A worktree as git knows it; `notes` are the lines on locks and pruning. */
  datatype Record = Record(listed: string, state: State, notes: seq<string>)

  function StateLines(state: State): seq<string> {
    match state
    case Bare => ["bare"]
    case Detached(head) => [HEAD + head, "detached"]
    case OnBranch(head, ref) => [HEAD + head, "branch " + ref]
  }

  function Lines(r: Record): seq<string> {
    [PATH + r.listed] + StateLines(r.state) + r.notes
  }

  function RecordText(r: Record): string {
    Join(Lines(r), "\n")
  }

  function RecordTexts(records: seq<Record>): seq<string> {
    seq(|records|, i requires 0 <= i < |records| => RecordText(records[i]))
  }

  /** Each record, and an empty line after it. */
  function PrintedRecords(records: seq<Record>): string {
    if records == [] then "" else Join(RecordTexts(records), "\n\n") + "\n\n"
  }

  /** What git lets into its own lines: no newline in them, and nothing blank at their end. */
  predicate Clear(line: string) {
    line != "" && '\n' !in line && !IsBlank(line[|line| - 1])
  }

  predicate IsNote(line: string) {
    Clear(line) && ("locked" <= line || "prunable" <= line)
  }

  predicate GitRecord(r: Record) {
    && (match r.state
        case Bare => true
        case Detached(head) => Clear(head)
        case OnBranch(head, ref) => Clear(head) && Clear(ref))
    && forall i :: 0 <= i < |r.notes| ==> IsNote(r.notes[i])
  }

  /** What the script is to make of a record. */
  function AsRead(r: Record, resolve: string -> string): Worktree {
    Worktree(
      resolve(r.listed),
      if r.state.Bare? then "" else r.state.head,
      if r.state.OnBranch? && HEADS <= r.state.ref then Some(r.state.ref[|HEADS|..]) else None,
      r.state.Detached?, RecordText(r))
  }

  function AllAsRead(records: seq<Record>, resolve: string -> string): seq<Worktree> {
    seq(|records|, i requires 0 <= i < |records| => AsRead(records[i], resolve))
  }

  predicate OneLine(r: Record) {
    '\n' !in r.listed && !r.state.Bare?
  }

  predicate Readable(records: seq<Record>) {
    forall i :: 0 <= i < |records| ==> OneLine(records[i])
  }

  // ----- Cutting at the empty lines -----

  /** No empty line in it, and no newline at either end. */
  predicate Solid(text: string) {
    text != "" && text[0] != '\n' && text[|text| - 1] != '\n' && Break(text) == |text|
  }

  lemma {:induction false} BreakAfter(text: string, rest: string)
    requires text != "" && text[|text| - 1] != '\n' && Break(text) == |text|
    ensures Break(text + ['\n', '\n'] + rest) == |text|
  {
    var all := text + ['\n', '\n'] + rest;
    if |text| == 1 {
      assert all[1..] == ['\n', '\n'] + rest;
    } else {
      BreakAfter(text[1..], rest);
      assert all[1..] == text[1..] + ['\n', '\n'] + rest;
    }
  }

  lemma {:induction false} BreakLine(line: string, rest: string)
    requires line != "" && '\n' !in line && Solid(rest)
    ensures Break(line + ['\n'] + rest) == |line| + 1 + |rest|
  {
    var all := line + ['\n'] + rest;
    assert line[0] in line;
    if |line| == 1 {
      assert all[1..] == ['\n'] + rest && all[1..][1..] == rest;
    } else {
      BreakLine(line[1..], rest);
      assert all[1..] == line[1..] + ['\n'] + rest;
    }
  }

  lemma {:induction false} NoBreak(line: string)
    requires '\n' !in line
    ensures Break(line) == |line|
  {
    if |line| >= 2 {
      assert line[0] in line;
      NoBreak(line[1..]);
    }
  }

  /** Lines joined make a solid text that ends as the last of them. */
  lemma {:induction false} LinesSolid(lines: seq<string>)
    requires lines != [] && forall i :: 0 <= i < |lines| ==> lines[i] != "" && '\n' !in lines[i]
    ensures var text, last := Join(lines, ['\n']), lines[|lines| - 1];
      last != "" && Solid(text) && text[|text| - 1] == last[|last| - 1]
  {
    if |lines| == 1 {
      LineSolid(lines[0]);
    } else {
      var rest := lines[1..];
      assert forall i :: 0 <= i < |rest| ==> rest[i] == lines[i + 1];
      LinesSolid(rest);
      LineThenText(lines[0], Join(rest, ['\n']));
      JoinFirst(lines[0], rest, ['\n']);
      assert lines == [lines[0]] + rest && lines[|lines| - 1] == rest[|rest| - 1];
    }
  }

  lemma LineSolid(line: string)
    requires line != "" && '\n' !in line
    ensures Solid(line)
  {
    assert line[0] in line && line[|line| - 1] in line;
    NoBreak(line);
  }

  lemma LineThenText(line: string, rest: string)
    requires line != "" && '\n' !in line && Solid(rest)
    ensures var text := line + ['\n'] + rest;
      Solid(text) && text[|text| - 1] == rest[|rest| - 1]
  {
    assert line[0] in line;
    BreakLine(line, rest);
  }

  lemma RecordsStep(text: string, n: nat)
    requires n == Break(text) < |text|
    ensures Records(text) == [text[..n]] + Records(SkipNewlines(text[n..]))
  {
  }

  lemma SkipTwo(rest: string)
    requires rest != "" && rest[0] != '\n'
    ensures SkipNewlines(['\n', '\n'] + rest) == rest
  {
    var one := ['\n'] + rest;
    assert one[1..] == rest && SkipNewlines(rest) == rest;
    assert SkipNewlines(one) == rest && (['\n', '\n'] + rest)[1..] == one;
  }

  lemma RecordsCut(text: string, rest: string)
    requires Solid(text) && rest != "" && rest[0] != '\n'
    ensures Records(text + ['\n', '\n'] + rest) == [text] + Records(rest)
  {
    var all := text + ['\n', '\n'] + rest;
    BreakAfter(text, rest);
    RecordsStep(all, |text|);
    SkipTwo(rest);
    assert all[..|text|] == text && all[|text|..] == ['\n', '\n'] + rest;
  }

  /** The texts joined by empty lines: it begins as the first and ends as the last. */
  lemma {:induction false} JoinEnds(texts: seq<string>)
    requires texts != [] && forall i :: 0 <= i < |texts| ==> Solid(texts[i])
    ensures Solid(texts[0]) && Solid(texts[|texts| - 1])
    ensures var text, last := Join(texts, ['\n', '\n']), texts[|texts| - 1];
      text != "" && text[0] == texts[0][0] && text[|text| - 1] == last[|last| - 1]
  {
    if |texts| > 1 {
      JoinEnds(texts[1..]);
    }
  }

  lemma {:induction false} RecordsOfJoin(texts: seq<string>)
    requires texts != [] && forall i :: 0 <= i < |texts| ==> Solid(texts[i])
    ensures Records(Join(texts, ['\n', '\n'])) == texts
  {
    if |texts| == 1 {
      assert Records(texts[0]) == [texts[0]];
    } else {
      var rest := texts[1..];
      RecordsOfJoin(rest);
      JoinEnds(rest);
      RecordsCut(texts[0], Join(rest, ['\n', '\n']));
      assert texts == [texts[0]] + rest;
    }
  }

  // ----- Reading one record -----

  predicate NotesOnly(lines: seq<string>) {
    forall i :: 0 <= i < |lines| ==> lines[i] != "" && (lines[i][0] == 'l' || lines[i][0] == 'p')
  }

  lemma {:induction false} NotFound(lines: seq<string>, prefix: string)
    requires NotesOnly(lines) && prefix != "" && prefix[0] != 'l' && prefix[0] != 'p'
    ensures FindLine(lines, prefix) == None && prefix !in lines
  {
    if lines != [] {
      NotFound(lines[1..], prefix);
      assert lines == [lines[0]] + lines[1..];
    }
  }

  lemma NotesAreNotes(r: Record)
    requires GitRecord(r)
    ensures NotesOnly(r.notes)
  {
    forall i | 0 <= i < |r.notes| ensures r.notes[i] != "" && (r.notes[i][0] == 'l' || r.notes[i][0] == 'p') {
      assert IsNote(r.notes[i]) && "locked"[0] == 'l' && "prunable"[0] == 'p';
    }
  }

  /** The lines of a record hold no newline and end in nothing blank. */
  lemma LinesClear(r: Record)
    requires GitRecord(r) && '\n' !in r.listed
    ensures forall i :: 0 <= i < |Lines(r)| ==> Lines(r)[i] != "" && '\n' !in Lines(r)[i]
    ensures Clear(Lines(r)[|Lines(r)| - 1])
  {
    StateLinesClear(r.state);
    var lines, n := Lines(r), 1 + |StateLines(r.state)|;
    forall i | 0 <= i < |lines| ensures lines[i] != "" && '\n' !in lines[i] && (i > 0 ==> Clear(lines[i])) {
      if i >= n {
        assert lines[i] == r.notes[i - n] && IsNote(r.notes[i - n]);
      } else if i > 0 {
        assert lines[i] == StateLines(r.state)[i - 1];
      }
    }
  }

  lemma StateLinesClear(state: State)
    requires GitRecord(Record("", state, []))
    ensures StateLines(state) != [] && forall i :: 0 <= i < |StateLines(state)| ==> Clear(StateLines(state)[i])
  {
  }

  lemma TextSolid(r: Record)
    requires GitRecord(r) && '\n' !in r.listed
    ensures Solid(RecordText(r)) && RecordText(r)[0] == 'w' && !IsBlank(RecordText(r)[|RecordText(r)| - 1])
    ensures Split(RecordText(r), '\n') == Lines(r)
  {
    LinesClear(r);
    assert "\n" == ['\n'];
    LinesSolid(Lines(r));
    SplitJoin(Lines(r), '\n');
    assert Lines(r)[0][0] == 'w';
  }

  lemma FirstLine(line: string, rest: seq<string>, prefix: string)
    ensures FindLine([line] + rest, prefix) == if prefix <= line then Some(line) else FindLine(rest, prefix)
  {
    assert ([line] + rest)[1..] == rest;
  }

  /** What the state lines and the notes yield. */
  lemma StateFound(r: Record)
    requires GitRecord(r)
    ensures var rest := StateLines(r.state) + r.notes;
      && FindLine(rest, HEAD) == (if r.state.Bare? then None else Some(HEAD + r.state.head))
      && FindLine(rest, BRANCH)
         == (if r.state.OnBranch? && HEADS <= r.state.ref then Some("branch " + r.state.ref) else None)
      && ("detached" in rest <==> r.state.Detached?)
  {
    NotesAreNotes(r);
    NotFound(r.notes, HEAD);
    NotFound(r.notes, BRANCH);
    NotFound(r.notes, "detached");
    var notes := r.notes;
    match r.state
    case Bare =>
      FirstLine("bare", notes, HEAD);
      FirstLine("bare", notes, BRANCH);
    case Detached(head) =>
      assert StateLines(r.state) + notes == [HEAD + head] + (["detached"] + notes);
      FirstLine(HEAD + head, ["detached"] + notes, HEAD);
      FirstLine(HEAD + head, ["detached"] + notes, BRANCH);
      FirstLine("detached", notes, BRANCH);
    case OnBranch(head, ref) =>
      var line := "branch " + ref;
      assert StateLines(r.state) + notes == [HEAD + head] + ([line] + notes);
      FirstLine(HEAD + head, [line] + notes, HEAD);
      FirstLine(HEAD + head, [line] + notes, BRANCH);
      FirstLine(line, notes, BRANCH);
      BranchLine(ref);
  }

  lemma BranchLine(ref: string)
    ensures BRANCH <= "branch " + ref <==> HEADS <= ref
    ensures HEADS <= ref ==> After("branch " + ref, BRANCH) == ref[|HEADS|..]
  {
    assert BRANCH == "branch " + HEADS;
    assert ("branch " + ref)[7..] == ref && BRANCH[7..] == HEADS;
  }

  /** What all the lines of a record yield. */
  lemma LinesFound(r: Record)
    requires GitRecord(r)
    ensures FindLine(Lines(r), PATH) == Some(PATH + r.listed)
    ensures FindLine(Lines(r), HEAD) == if r.state.Bare? then None else Some(HEAD + r.state.head)
    ensures FindLine(Lines(r), BRANCH)
      == if r.state.OnBranch? && HEADS <= r.state.ref then Some("branch " + r.state.ref) else None
    ensures "detached" in Lines(r) <==> r.state.Detached?
  {
    StateFound(r);
    var line, rest := PATH + r.listed, StateLines(r.state) + r.notes;
    assert Lines(r) == [line] + rest;
    FirstLine(line, rest, PATH);
    FirstLine(line, rest, HEAD);
    FirstLine(line, rest, BRANCH);
    assert line[0] == 'w' && "detached"[0] == 'd' && HEAD[0] == 'H' && BRANCH[0] == 'b';
  }

  lemma AfterPrefix(prefix: string, rest: string)
    ensures After(prefix + rest, prefix) == rest
  {
  }

  lemma RecordReads(r: Record, resolve: string -> string)
    requires GitRecord(r) && '\n' !in r.listed
    ensures ReadRecord(RecordText(r), resolve) == if r.state.Bare? then None else Some(AsRead(r, resolve))
  {
    TextSolid(r);
    LinesFound(r);
    AfterPrefix(PATH, r.listed);
    if !r.state.Bare? {
      AfterPrefix(HEAD, r.state.head);
    }
    if r.state.OnBranch? {
      BranchLine(r.state.ref);
    }
  }

  // ----- Reading the whole listing -----

  lemma {:induction false} AllRead(records: seq<Record>, resolve: string -> string)
    requires forall i :: 0 <= i < |records| ==> GitRecord(records[i]) && '\n' !in records[i].listed
    ensures ReadAll(RecordTexts(records), resolve)
      == if Readable(records) then Some(AllAsRead(records, resolve)) else None
  {
    if records == [] {
      assert RecordTexts(records) == [] && AllAsRead(records, resolve) == [];
    } else {
      AllRead(records[1..], resolve);
      RecordReads(records[0], resolve);
      OneMoreRecord(records, resolve);
    }
  }

  lemma OneMoreRecord(records: seq<Record>, resolve: string -> string)
    requires records != []
    ensures RecordTexts(records) != [] && RecordTexts(records)[0] == RecordText(records[0])
    ensures RecordTexts(records)[1..] == RecordTexts(records[1..])
    ensures AllAsRead(records, resolve) == [AsRead(records[0], resolve)] + AllAsRead(records[1..], resolve)
    ensures Readable(records) <==> OneLine(records[0]) && Readable(records[1..])
  {
    assert forall i :: 0 < i < |records| ==> records[i] == records[1..][i - 1];
  }

  /** What git prints is cut where it was joined. */
  lemma PrintedCut(records: seq<Record>)
    requires records != [] && forall i :: 0 <= i < |records| ==> GitRecord(records[i]) && '\n' !in records[i].listed
    ensures Trimmed(PrintedRecords(records)) != ""
    ensures Records(TrimEnd(IsBlank, PrintedRecords(records))) == RecordTexts(records)
  {
    var texts, printed := RecordTexts(records), PrintedRecords(records);
    forall i | 0 <= i < |texts| ensures Solid(texts[i]) && texts[i][0] == 'w' && !IsBlank(texts[i][|texts[i]| - 1]) {
      TextSolid(records[i]);
    }
    assert "\n\n" == ['\n', '\n'];
    RecordsOfJoin(texts);
    JoinEnds(texts);
    var text := Join(texts, "\n\n");
    assert printed[0] == 'w' && !IsBlank('w');
    TrimExactly(IsBlank, printed);
    TrimTwoNewlines(text);
  }

  lemma TrimTwoNewlines(text: string)
    requires text != "" && !IsBlank(text[|text| - 1])
    ensures TrimEnd(IsBlank, text + "\n\n") == text
  {
    var one, two := text + "\n", text + "\n\n";
    assert two[..|two| - 1] == one && one[..|one| - 1] == text;
    assert TrimEnd(IsBlank, text) == text;
  }

  lemma Reads(records: seq<Record>, resolve: string -> string)
    requires forall i :: 0 <= i < |records| ==> GitRecord(records[i]) && '\n' !in records[i].listed
    ensures ParseWorktreeList(PrintedRecords(records), resolve)
      == if Readable(records) then Some(AllAsRead(records, resolve)) else None
  {
    AllRead(records, resolve);
    if records != [] {
      PrintedCut(records);
    }
  }

  lemma FoundIsLine(lines: seq<string>, prefix: string)
    ensures FindLine(lines, prefix).Some? ==> FindLine(lines, prefix).value in lines
  {
  }

  /** A path that is read comes from within a line. */
  lemma {:induction false} PathsAreLines(records: seq<string>)
    ensures var read := ReadAll(records, path => path);
      read.Some? ==> forall i :: 0 <= i < |read.value| ==> '\n' !in read.value[i].path
  {
    if records != [] {
      PathsAreLines(records[1..]);
      FoundIsLine(Split(records[0], '\n'), PATH);
    }
  }

  ghost predicate AlwaysReads(records: seq<Record>) {
    forall resolve :: ParseWorktreeList(PrintedRecords(records), resolve) == Some(AllAsRead(records, resolve))
  }

  /** Reading what git prints gives its records back, wherever paths resolve to, if and only if no
      worktree is bare and no path holds a newline: git prints a newline in a path as it is. */
  lemma ReadsExactly(records: seq<Record>)
    requires forall i :: 0 <= i < |records| ==> GitRecord(records[i])
    ensures AlwaysReads(records) <==> Readable(records)
  {
    if Readable(records) {
      forall resolve ensures ParseWorktreeList(PrintedRecords(records), resolve) == Some(AllAsRead(records, resolve)) {
        Reads(records, resolve);
      }
    } else if AlwaysReads(records) {
      var same := (path: string) => path;
      var read := ParseWorktreeList(PrintedRecords(records), same);
      assert read == Some(AllAsRead(records, same));
      PathsAreLines(Records(TrimEnd(IsBlank, PrintedRecords(records))));
      forall i | 0 <= i < |records| ensures '\n' !in records[i].listed {
        assert AllAsRead(records, same)[i].path == records[i].listed;
      }
      Reads(records, same);
    }
  }

  /** The lines of a detached record after its path. */
  function DetachedTail(head: string): string {
    "\n" + (HEAD + head + "\n" + "detached")
  }

  function ForgedPath(head: string, other: string): string {
    "a" + DetachedTail(head) + "\n\n" + PATH + other
  }

  /** The failing input: a worktree whose path holds an empty line is read as two. */
  lemma ForgedRecord(head: string, other: string, resolve: string -> string)
    requires Clear(head) && '\n' !in other
    ensures var forged := [Record(ForgedPath(head, other), Detached(head), [])];
      var two := [Record("a", Detached(head), []), Record(other, Detached(head), [])];
      ParseWorktreeList(PrintedRecords(forged), resolve) == Some(AllAsRead(two, resolve))
  {
    var forged := Record(ForgedPath(head, other), Detached(head), []);
    var one, two := Record("a", Detached(head), []), Record(other, Detached(head), []);
    ForgedText(head, other);
    assert RecordTexts([forged]) == [RecordText(forged)];
    assert RecordTexts([one, two]) == [RecordText(one), RecordText(two)];
    assert [RecordText(one), RecordText(two)][1..] == [RecordText(two)];
    assert Join([RecordText(one), RecordText(two)], "\n\n") == RecordText(one) + "\n\n" + RecordText(two);
    assert PrintedRecords([forged]) == PrintedRecords([one, two]);
    assert OneLine(one) && OneLine(two) && GitRecord(one) && GitRecord(two);
    Reads([one, two], resolve);
  }

  lemma TextOfDetached(listed: string, head: string)
    ensures RecordText(Record(listed, Detached(head), [])) == PATH + listed + DetachedTail(head)
  {
    var lines := Lines(Record(listed, Detached(head), []));
    assert lines == [PATH + listed, HEAD + head, "detached"];
    assert lines[1..] == [HEAD + head, "detached"] && lines[1..][1..] == ["detached"];
    assert Join(lines[1..], "\n") == HEAD + head + "\n" + "detached";
    Concatenated(PATH + listed, "\n", HEAD + head + "\n" + "detached");
  }

  /** The same characters, cut at other places. */
  lemma Recut(path: string, a: string, tail: string, gap: string, other: string)
    ensures path + (a + tail + gap + path + other) + tail == path + a + tail + gap + (path + other + tail)
  {
  }

  lemma ForgedText(head: string, other: string)
    ensures RecordText(Record(ForgedPath(head, other), Detached(head), []))
      == RecordText(Record("a", Detached(head), [])) + "\n\n" + RecordText(Record(other, Detached(head), []))
  {
    TextOfDetached(ForgedPath(head, other), head);
    TextOfDetached("a", head);
    TextOfDetached(other, head);
    Recut(PATH, "a", DetachedTail(head), "\n\n", other);
  }
}
