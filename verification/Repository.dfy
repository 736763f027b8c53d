/** A git repository that others may change at any moment, and the commands the script runs on it. */
module Repository {
  import opened Decimal
  import opened Environment
  import opened GitRefs
  import opened GitReplies
  import opened Sequences
  import opened WorktreeList

  /** `prunable` are the paths whose administrative record a prune would drop. */
  datatype Repo = Repo(worktrees: seq<Record>, prunable: set<string>, refs: RefStore)

  datatype Command =
    | CommonDir
    | TopLevel
    | GitDir
    | RealPath(path: string)
    | Identify(path: string)
    | Exists(path: string)
    | ListWorktrees
    | Status(path: string)
    | StatusNul(path: string)
    | ListRefs
    | PruneDryRun
    | ListMerged(branch: string)
    | ViewPr(number: int)
    | LsRemote(branch: string)
    | RevParseHead(path: string)
    | Remove(path: string, force: bool)
    | Prune
    | DeleteRef(ref: string, oid: string)
    | ListBranch(branch: string)

  /** The commands that change the repository. */
  predicate Destructive(c: Command) {
    c.Remove? || c.Prune? || c.DeleteRef?
  }

  datatype Reply = Reply(exitCode: int, stdout: string, stderr: string)

  /** A command, the repository it found after others had acted, its reply, and what it left. */
  datatype Event = Event(command: Command, before: Repo, reply: Reply, after: Repo)

  /** realpath as it resolves paths, or the path itself where it fails; gh's JSON is taken as already
      decoded. */
  datatype Readers = Readers(
    resolve: string -> string,
    merged: string -> Option<seq<Merged>>,
    view: string -> Option<View>)

  function Inventoried(stdout: string, read: Readers): Option<seq<Worktree>> {
    ParseWorktreeList(stdout, read.resolve)
  }

  predicate Quiet(reply: Reply) {
    reply.exitCode == 0 && reply.stdout == "" && reply.stderr == ""
  }

  function Without(worktrees: seq<Record>, paths: set<string>, read: Readers): seq<Record> {
    Filter((r: Record) => read.resolve(r.listed) !in paths, worktrees)
  }

  predicate GitRecords(worktrees: seq<Record>) {
    forall i :: 0 <= i < |worktrees| ==> GitRecord(worktrees[i])
  }

  /** What git does to the repository.  A command that reports failure may have done part of its work:
      it can be killed at any moment by the timeout. */
  predicate Changes(e: Event, read: Readers) {
    var before, after, done := e.before, e.after, e.reply.exitCode == 0;
    match e.command
    case Remove(path, _) =>
      && after.refs == before.refs
      && Without(after.worktrees, {path}, read) == Without(before.worktrees, {path}, read)
      && (done ==> after.worktrees == Without(before.worktrees, {path}, read))
    case Prune =>
      && after.refs == before.refs
      && Without(after.worktrees, before.prunable, read) == Without(before.worktrees, before.prunable, read)
      && (done ==> after.worktrees == Without(before.worktrees, before.prunable, read))
    case DeleteRef(ref, oid) =>
      && after.worktrees == before.worktrees && after.prunable == before.prunable
      && (RefDeleted(before.refs, after.refs, ref, oid) || (!done && after.refs == before.refs))
    case PruneDryRun => after == before && (Quiet(e.reply) ==> before.prunable == {})
    case ListWorktrees =>
      && after == before
      && (done ==> GitRecords(before.worktrees) && e.reply.stdout == PrintedRecords(before.worktrees))
    case _ => after == before
  }

  /** A listing of these branches, in whatever order git keeps them. */
  ghost predicate Shown(stdout: string, refs: Refs) {
    exists listing :: Lists(listing, refs) && stdout == Printed(listing)
  }

  /** What git does and what it prints of its worktrees and its refs. */
  ghost predicate Effect(e: Event, read: Readers) {
    Changes(e, read) && (e.command == ListRefs && e.reply.exitCode == 0 ==> Shown(e.reply.stdout, Heads(e.before.refs)))
  }

  /** for-each-ref: it prints some listing of the refs, or fails. */
  method PrintRefs(refs: Refs) returns (reply: Reply)
    ensures reply.exitCode == 0 ==> Shown(reply.stdout, refs)
  {
    reply := Any();
    var listing: Listing := Any();
    if reply.exitCode == 0 {
      reply := if Lists(listing, refs) then Reply(0, Printed(listing), reply.stderr) else Reply(1, "", "");
    }
  }

  class Runner {
    const read: Readers
    var repo: Repo
    ghost var log: seq<Event>

    constructor (read: Readers, repo: Repo)
      ensures this.read == read && log == []
    {
      this.read, this.repo, log := read, repo, [];
    }

    /** Others act, then the command runs; a runner that throws or answers nonsense is a failure. */
    method Execute(c: Command) returns (reply: Reply, ghost e: Event)
      modifies this
      ensures e.command == c && e.reply == reply && Effect(e, read)
      ensures log == old(log) + [e] && repo == e.after
    {
      repo := Any();
      var after: Repo := Any();
      if c == ListRefs {
        reply := PrintRefs(Heads(repo.refs));
      } else {
        reply := Any();
        if c == ListWorktrees && reply.exitCode == 0 {
          reply := reply.(stdout := PrintedRecords(repo.worktrees));
        }
      }
      if !Changes(Event(c, repo, reply, after), read) {
        reply, after := Reply(1, "", ""), repo;
      }
      e := Event(c, repo, reply, after);
      log := log + [e];
      repo := after;
    }
  }

  // ----- Inventories by path -----

  /** new Map(worktrees.map(w => [w.path, w])): the last record of a path wins. */
  function ByPath(worktrees: seq<Worktree>): (m: map<string, Worktree>)
    ensures forall p :: p in m ==> m[p].path == p
  {
    if worktrees == [] then map[]
    else
      var last := worktrees[|worktrees| - 1];
      ByPath(worktrees[..|worktrees| - 1])[last.path := last]
  }

  lemma {:induction false} ByPathHas(worktrees: seq<Worktree>)
    ensures forall p :: p in ByPath(worktrees) ==> ByPath(worktrees)[p] in worktrees
    ensures forall w :: w in worktrees ==> w.path in ByPath(worktrees)
  {
    if worktrees != [] {
      var n := |worktrees| - 1;
      ByPathHas(worktrees[..n]);
      assert worktrees == worktrees[..n] + [worktrees[n]];
    }
  }

  function Texts(m: map<string, Worktree>): map<string, string> {
    map p | p in m :: m[p].raw
  }

  /** Every unrelated record is the one its path is known by. */
  predicate Consistent(worktrees: seq<Worktree>, owned: seq<string>) {
    forall w :: w in worktrees && w.path !in owned ==>
      w.path in ByPath(worktrees) && ByPath(worktrees)[w.path].raw == w.raw
  }

  function Unrelated(worktrees: seq<Worktree>, owned: seq<string>): seq<Worktree> {
    Filter((w: Worktree) => w.path !in owned, worktrees)
  }

  /** The three filters over the final inventory, all empty. */
  predicate InventoryMatches(initial: seq<Worktree>, final: seq<Worktree>, owned: seq<string>) {
    var finalByPath, unrelated := ByPath(final), Unrelated(initial, owned);
    && Filter((p: string) => p in finalByPath, owned) == []
    && Filter((w: Worktree) => w.path !in finalByPath || finalByPath[w.path].raw != w.raw, unrelated) == []
    && Filter((w: Worktree) => !exists b :: b in unrelated && b.path == w.path, final) == []
  }

  function Expected(initial: seq<Worktree>, owned: seq<string>): map<string, string> {
    map p | p in ByPath(initial) && p !in owned :: ByPath(initial)[p].raw
  }

  lemma MatchIsConsistent(initial: seq<Worktree>, final: seq<Worktree>, owned: seq<string>)
    requires InventoryMatches(initial, final, owned)
    ensures Consistent(initial, owned)
  {
    FiltersSay(initial, final, owned);
    ByPathHas(initial);
    forall w | w in initial && w.path !in owned ensures ByPath(initial)[w.path].raw == w.raw {
      assert w in Unrelated(initial, owned) && ByPath(initial)[w.path] in Unrelated(initial, owned);
    }
  }

  lemma FinalIsExpected(initial: seq<Worktree>, final: seq<Worktree>, owned: seq<string>, p: string)
    requires InventoryMatches(initial, final, owned) && p in ByPath(final)
    ensures p in Expected(initial, owned)
  {
    FiltersSay(initial, final, owned);
    ByPathHas(initial);
    ByPathHas(final);
    var b :| b in Unrelated(initial, owned) && b.path == ByPath(final)[p].path;
  }

  lemma ExpectedIsFinal(initial: seq<Worktree>, final: seq<Worktree>, owned: seq<string>, p: string)
    requires InventoryMatches(initial, final, owned) && p in Expected(initial, owned)
    ensures p in ByPath(final) && ByPath(final)[p].raw == Expected(initial, owned)[p]
  {
    FiltersSay(initial, final, owned);
    ByPathHas(initial);
    assert ByPath(initial)[p] in Unrelated(initial, owned);
  }

  lemma MatchIsEquality(initial: seq<Worktree>, final: seq<Worktree>, owned: seq<string>)
    requires InventoryMatches(initial, final, owned)
    ensures Texts(ByPath(final)) == Expected(initial, owned) && Consistent(initial, owned)
  {
    MatchIsConsistent(initial, final, owned);
    forall p | p in ByPath(final) ensures p in Expected(initial, owned) {
      FinalIsExpected(initial, final, owned, p);
    }
    forall p | p in Expected(initial, owned)
      ensures p in ByPath(final) && ByPath(final)[p].raw == Expected(initial, owned)[p]
    {
      ExpectedIsFinal(initial, final, owned, p);
    }
  }

  lemma EqualityIsMatch(initial: seq<Worktree>, final: seq<Worktree>, owned: seq<string>)
    requires Texts(ByPath(final)) == Expected(initial, owned) && Consistent(initial, owned)
    ensures InventoryMatches(initial, final, owned)
  {
    var unrelated := Unrelated(initial, owned);
    FiltersSay(initial, final, owned);
    ByPathHas(initial);
    ByPathHas(final);
    forall w | w in unrelated ensures w.path in ByPath(final) && ByPath(final)[w.path].raw == w.raw {
      assert w.path in Texts(ByPath(final)) && Texts(ByPath(final))[w.path] == Expected(initial, owned)[w.path];
    }
    forall p | p in owned ensures p !in ByPath(final) {
      assert p in Texts(ByPath(final)) <==> p in ByPath(final);
    }
    forall w | w in final ensures exists b :: b in unrelated && b.path == w.path {
      assert w.path in Texts(ByPath(final));
      assert ByPath(initial)[w.path] in unrelated;
    }
  }

  /** The filters together are map equality: the final inventory is the initial one less the owned
      paths, record text for record text.  (`Consistent` can only fail on an inventory that lists
      one path twice.) */
  lemma InventoryExactly(initial: seq<Worktree>, final: seq<Worktree>, owned: seq<string>)
    ensures InventoryMatches(initial, final, owned)
       <==> Consistent(initial, owned) && Texts(ByPath(final)) == Texts(ByPath(initial)) - (set p | p in owned)
  {
    assert Expected(initial, owned) == Texts(ByPath(initial)) - (set p | p in owned);
    if InventoryMatches(initial, final, owned) {
      MatchIsEquality(initial, final, owned);
    } else if Consistent(initial, owned) && Texts(ByPath(final)) == Expected(initial, owned) {
      EqualityIsMatch(initial, final, owned);
    }
  }

  lemma FiltersSay(initial: seq<Worktree>, final: seq<Worktree>, owned: seq<string>)
    ensures forall w :: w in Unrelated(initial, owned) <==> w in initial && w.path !in owned
    ensures InventoryMatches(initial, final, owned) <==>
      && (forall p :: p in owned ==> p !in ByPath(final))
      && (forall w :: w in Unrelated(initial, owned) ==> w.path in ByPath(final) && ByPath(final)[w.path].raw == w.raw)
      && (forall w :: w in final ==> exists b :: b in Unrelated(initial, owned) && b.path == w.path)
  {
    var finalByPath, unrelated := ByPath(final), Unrelated(initial, owned);
    FilterExactly((w: Worktree) => w.path !in owned, initial);
    FilterEmpty((p: string) => p in finalByPath, owned);
    FilterEmpty((w: Worktree) => w.path !in finalByPath || finalByPath[w.path].raw != w.raw, unrelated);
    FilterEmpty((w: Worktree) => !exists b :: b in unrelated && b.path == w.path, final);
  }

  // ----- Refs before and after -----

  function Remaining(final: Refs, owned: seq<string>): set<string> {
    set r | r in owned && r in final
  }

  function Added(expected: Refs, final: Refs, owned: seq<string>): set<string> {
    set r | r in final && r !in owned && r !in expected
  }

  function Deleted(expected: Refs, final: Refs): set<string> {
    set r | r in expected && r !in final
  }

  function Moved(expected: Refs, final: Refs): set<string> {
    set r | r in expected && r in final && final[r] != expected[r]
  }

  /** expectedUnrelatedRefs. */
  function UnrelatedRefs(initial: Refs, owned: seq<string>): Refs {
    map r | r in initial && r !in owned :: initial[r]
  }

  predicate RefsMatch(initial: Refs, final: Refs, owned: seq<string>) {
    var expected := UnrelatedRefs(initial, owned);
    Remaining(final, owned) == {} && Added(expected, final, owned) == {}
    && Deleted(expected, final) == {} && Moved(expected, final) == {}
  }

  /** The four filters together are map equality. */
  lemma RefsExactly(initial: Refs, final: Refs, owned: seq<string>)
    ensures RefsMatch(initial, final, owned) <==> final == initial - (set r | r in owned)
  {
    var expected := UnrelatedRefs(initial, owned);
    assert expected == initial - (set r | r in owned);
    if RefsMatch(initial, final, owned) {
      forall r ensures r in final <==> r in expected {
        assert r !in Remaining(final, owned) && r !in Added(expected, final, owned) && r !in Deleted(expected, final);
      }
      forall r | r in expected ensures final[r] == expected[r] {
        assert r !in Moved(expected, final);
      }
      assert final == expected;
    }
  }
}
