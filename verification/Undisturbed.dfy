/** scripts/ci/pr-completion.mjs: a run that nobody disturbs, whose commands do what they are asked and
    whose guards hold, completes. */
module Undisturbed {
  import opened GitRefs
  import opened GitReplies
  import opened PrCompletion
  import opened Repository
  import opened Sequences
  import opened WorktreeList

  /** Nobody changes the repository between two commands. */
  predicate Alone(run: seq<Event>) {
    forall i :: 0 < i < |run| ==> run[i].before == run[i - 1].after
  }

  /** A reply that stops the script at no stage. */
  ghost predicate Cooperative(e: Event, head: string, read: Readers) {
    forall stage :: !Troubles(e, stage, head, read)
  }

  ghost predicate GuardsMet(checks: seq<Event>, o: Options, p: Proof, read: Readers) {
    forall stage :: !GuardFails(checks, stage, o, p, read)
  }

  /** The repository as such a run needs it: no newline in a path, no path listed twice, and no other
      name symbolic to an owned branch, nor the branch to one. */
  predicate Orderly(repo: Repo, o: Options, read: Readers) {
    && OneLinePaths(repo.worktrees)
    && (forall i, j :: 0 <= i < j < |repo.worktrees| ==>
          read.resolve(repo.worktrees[i].listed) != read.resolve(repo.worktrees[j].listed))
    && (!o.verifyOnly ==> forall ref :: ref in OwnedRefs(o) ==> Untangled(repo.refs, ref))
  }

  // ----- What the acts have done so far -----

  function Removed(acts: seq<Event>): set<string> {
    set i | 0 <= i < |acts| && acts[i].command.Remove? :: acts[i].command.path
  }

  function Deleted(acts: seq<Event>): set<string> {
    set i | 0 <= i < |acts| && acts[i].command.DeleteRef? :: acts[i].command.ref
  }

  /** The repository that was, less the worktrees and the refs that the acts named. */
  predicate Less(repo: Repo, start: Repo, acts: seq<Event>, read: Readers) {
    repo.worktrees == Without(start.worktrees, Removed(acts), read) && repo.refs == start.refs - Deleted(acts)
  }

  lemma NamedSnoc(acts: seq<Event>, e: Event)
    ensures Removed(acts + [e]) == if e.command.Remove? then Removed(acts) + {e.command.path} else Removed(acts)
    ensures Deleted(acts + [e]) == if e.command.DeleteRef? then Deleted(acts) + {e.command.ref} else Deleted(acts)
  {
    var longer := acts + [e];
    assert longer[|acts|] == e;
    forall i | 0 <= i < |acts| ensures longer[i] == acts[i] {
    }
    forall path | path in Removed(acts) ensures path in Removed(longer) {
      var i :| 0 <= i < |acts| && acts[i].command.Remove? && acts[i].command.path == path;
      assert longer[i].command.path == path;
    }
    forall ref | ref in Deleted(acts) ensures ref in Deleted(longer) {
      var i :| 0 <= i < |acts| && acts[i].command.DeleteRef? && acts[i].command.ref == ref;
      assert longer[i].command.ref == ref;
    }
  }

  lemma {:induction false} WithoutTwice(worktrees: seq<Record>, a: set<string>, b: set<string>, read: Readers)
    ensures Without(Without(worktrees, a, read), b, read) == Without(worktrees, a + b, read)
  {
    if worktrees != [] {
      WithoutTwice(worktrees[1..], a, b, read);
      var rest := Without(worktrees[1..], a, read);
      assert ([worktrees[0]] + rest)[1..] == rest && [] + rest == rest;
    }
  }

  lemma {:induction false} WithoutNone(worktrees: seq<Record>, read: Readers)
    ensures Without(worktrees, {}, read) == worktrees
  {
    if worktrees != [] {
      WithoutNone(worktrees[1..], read);
    }
  }

  // ----- Every step -----

  /** What a disciplined, cooperative run needs of the start. */
  ghost predicate Ready(start: Repo, o: Options, p: Proof, read: Readers) {
    forall ref :: ref in OwnedRefs(o) ==> Untangled(start.refs, ref)
  }

  lemma RemoveStep(start: Repo, acts: seq<Event>, e: Event, p: Proof, read: Readers)
    requires Less(e.before, start, acts, read) && Effect(e, read) && Cooperative(e, p.head, read) && e.command.Remove?
    ensures Less(e.after, start, acts + [e], read)
  {
    assert !Troubles(e, RemoveWorktree, p.head, read);
    NamedSnoc(acts, e);
    WithoutTwice(start.worktrees, Removed(acts), {e.command.path}, read);
  }

  lemma PruneStep(start: Repo, acts: seq<Event>, e: Event, o: Options, p: Proof, read: Readers)
    requires Less(e.before, start, acts, read) && Effect(e, read) && Cooperative(e, p.head, read) && e.command == Prune
    requires Permitted(acts, Prune, o, p, read)
    requires Effect(acts[|acts| - 1], read) && e.before == acts[|acts| - 1].after
    ensures Less(e.after, start, acts + [e], read)
  {
    assert !Troubles(e, PruneWorktrees, p.head, read);
    NamedSnoc(acts, e);
    WithoutNone(e.before.worktrees, read);
  }

  lemma DeleteStep(start: Repo, acts: seq<Event>, e: Event, o: Options, p: Proof, read: Readers)
    requires Ready(start, o, p, read) && Less(e.before, start, acts, read) && Effect(e, read)
    requires Cooperative(e, p.head, read) && e.command.DeleteRef? && e.command.ref in OwnedRefs(o)
    ensures Less(e.after, start, acts + [e], read)
  {
    assert !Troubles(e, DeleteBranch, p.head, read);
    NamedSnoc(acts, e);
    var ref := e.command.ref;
    assert Untangled(start.refs, ref);
    assert e.before.refs[ref].Direct?;
    assert start.refs - (Deleted(acts) + {ref}) == start.refs - Deleted(acts) - {ref};
  }

  lemma QueryStep(start: Repo, acts: seq<Event>, e: Event, read: Readers)
    requires Less(e.before, start, acts, read) && Effect(e, read) && !Destructive(e.command)
    ensures Less(e.after, start, acts + [e], read)
  {
    NamedSnoc(acts, e);
  }

  /** After every act the repository is the one there was, less what the acts named so far. */
  lemma {:induction false} ActsTake(start: Repo, acts: seq<Event>, o: Options, p: Proof, read: Readers)
    requires acts != [] && Disciplined(acts, o, p, read) && Faithful(acts, read) && Alone(acts)
    requires Ready(start, o, p, read) && acts[0].before == start
    requires forall i :: 0 <= i < |acts| ==> Cooperative(acts[i], p.head, read)
    ensures Less(acts[|acts| - 1].after, start, acts, read)
  {
    var n := |acts| - 1;
    var before, e := acts[..n], acts[n];
    assert acts == before + [e];
    assert Effect(e, read) && Cooperative(e, p.head, read);
    if n == 0 {
      WithoutNone(start.worktrees, read);
      assert Removed(before) == {} && Deleted(before) == {} && start.refs - {} == start.refs;
    } else {
      forall i | 0 <= i < n ensures before[i] == acts[i] {
      }
      assert Faithful(before, read);
      ActsTake(start, before, o, p, read);
      assert Effect(before[n - 1], read);
    }
    assert Permitted(before, e.command, o, p, read);
    match e.command
    case Remove(_, _) => RemoveStep(start, before, e, p, read);
    case Prune => PruneStep(start, before, e, o, p, read);
    case DeleteRef(_, _) => DeleteStep(start, before, e, o, p, read);
    case _ => QueryStep(start, before, e, read);
  }

  /** Queries change nothing. */
  lemma {:induction false} QueriesKeep(events: seq<Event>, k: nat, read: Readers)
    requires Queries(events) && Faithful(events, read) && Alone(events) && k < |events|
    ensures events[k].before == events[0].before && events[k].after == events[0].before
  {
    assert Effect(events[k], read);
    if k > 0 {
      QueriesKeep(events, k - 1, read);
    }
  }

  // ----- What the acts named is what is owned -----

  function OwnedPaths(p: Proof): set<string> {
    set path | path in p.owned
  }

  function OwnedNames(o: Options): set<string> {
    set ref | ref in OwnedRefs(o)
  }

  lemma NamedAreOwned(acts: seq<Event>, o: Options, p: Proof, read: Readers)
    requires Disciplined(acts, o, p, read)
    ensures Removed(acts) <= OwnedPaths(p) && Deleted(acts) <= OwnedNames(o)
  {
    forall i | 0 <= i < |acts| ensures Permitted(acts[..i], acts[i].command, o, p, read) {
      EveryActPermitted(acts, i, o, p, read);
    }
  }

  lemma OwnedAreNamed(acts: seq<Event>, o: Options, p: Proof, read: Readers)
    requires CleanedUp(acts, o, p, read)
    ensures OwnedPaths(p) <= Removed(acts) && OwnedNames(o) <= Deleted(acts)
  {
    forall path | path in p.owned ensures path in Removed(acts) {
      var i :| 0 <= i < |p.owned| && p.owned[i] == path;
      assert Settled(acts, p.owned[i], read);
      var e :| e in acts && Shows(e, Tried(path), read);
      var k :| 0 <= k < |acts| && acts[k] == e;
    }
    forall ref | ref in OwnedRefs(o) ensures ref in Deleted(acts) {
      var i :| 0 <= i < |OwnedRefs(o)| && OwnedRefs(o)[i] == ref;
      assert Saw(acts, RefGone(OwnedRefs(o)[i], p.head), read);
      var e :| e in acts && Shows(e, RefGone(ref, p.head), read);
      var k :| 0 <= k < |acts| && acts[k] == e;
    }
  }

  // ----- The last snapshots -----

  /** The repository before and after the changes. */
  predicate Swept(start: Repo, end: Repo, o: Options, p: Proof, read: Readers) {
    if o.verifyOnly then end.worktrees == start.worktrees && end.refs == start.refs
    else end.worktrees == Without(start.worktrees, OwnedPaths(p), read) && end.refs == start.refs - OwnedNames(o)
  }

  /** Three stretches of one run, each beginning where the one before it ended. */
  predicate Follows(checks: seq<Event>, acts: seq<Event>, finals: seq<Event>) {
    && Alone(checks) && Alone(acts) && Alone(finals) && checks != []
    && (acts != [] ==> acts[0].before == checks[|checks| - 1].after)
    && (finals != [] ==>
          finals[0].before == if acts != [] then acts[|acts| - 1].after else checks[|checks| - 1].after)
  }

  lemma AloneFollows(checks: seq<Event>, acts: seq<Event>, finals: seq<Event>)
    requires Alone(checks + acts + finals) && checks != []
    ensures Follows(checks, acts, finals)
  {
    var run, n := checks + acts + finals, |checks| + |acts|;
    forall i | 0 < i < |checks| ensures checks[i].before == checks[i - 1].after {
      assert run[i].before == run[i - 1].after;
    }
    forall i | 0 < i < |acts| ensures acts[i].before == acts[i - 1].after {
      assert run[|checks| + i].before == run[|checks| + i - 1].after;
    }
    forall i | 0 < i < |finals| ensures finals[i].before == finals[i - 1].after {
      assert run[n + i].before == run[n + i - 1].after;
    }
    if acts != [] {
      assert run[|checks|].before == run[|checks| - 1].after;
    }
    if finals != [] {
      assert run[n].before == run[n - 1].after;
    }
  }

  ghost predicate AllCooperative(events: seq<Event>, head: string, read: Readers) {
    forall i :: 0 <= i < |events| ==> Cooperative(events[i], head, read)
  }

  lemma ActsSweep(start: Repo, acts: seq<Event>, o: Options, p: Proof, read: Readers)
    requires acts != [] && Disciplined(acts, o, p, read) && Faithful(acts, read) && Alone(acts)
    requires acts[0].before == start && AllCooperative(acts, p.head, read) && CleanedUp(acts, o, p, read)
    requires Ready(start, o, p, read) && !o.verifyOnly
    ensures Swept(start, acts[|acts| - 1].after, o, p, read)
  {
    ActsTake(start, acts, o, p, read);
    NamedAreOwned(acts, o, p, read);
    OwnedAreNamed(acts, o, p, read);
    assert Removed(acts) == OwnedPaths(p) && Deleted(acts) == OwnedNames(o);
  }

  lemma SomethingDone(acts: seq<Event>, o: Options, p: Proof, read: Readers)
    requires CleanedUp(acts, o, p, read)
    ensures acts != []
  {
    var e :| e in acts && Shows(e, Pruned, read);
  }

  /** The checks all saw the start, and the last queries all saw it swept. */
  lemma EndsSwept(start: Repo, t: Phases, o: Options, p: Proof, read: Readers)
    requires Queries(t.checks) && Queries(t.finals) && Disciplined(t.acts, o, p, read)
    requires Faithful(t.checks, read) && Faithful(t.acts, read) && Faithful(t.finals, read)
    requires Follows(t.checks, t.acts, t.finals) && t.checks[0].before == start && Orderly(start, o, read)
    requires AllCooperative(t.acts, p.head, read)
    requires if o.verifyOnly then t.acts == [] else CleanedUp(t.acts, o, p, read)
    ensures forall e :: e in t.checks ==> e.before == start
    ensures forall e :: e in t.finals ==> Swept(start, e.before, o, p, read)
  {
    forall e | e in t.checks ensures e.before == start {
      var k :| 0 <= k < |t.checks| && t.checks[k] == e;
      QueriesKeep(t.checks, k, read);
    }
    QueriesKeep(t.checks, |t.checks| - 1, read);
    if !o.verifyOnly {
      SomethingDone(t.acts, o, p, read);
      ActsSweep(start, t.acts, o, p, read);
    }
    forall e | e in t.finals ensures Swept(start, e.before, o, p, read) {
      var k :| 0 <= k < |t.finals| && t.finals[k] == e;
      QueriesKeep(t.finals, k, read);
    }
  }

  // ----- Reading the swept repository -----

  lemma {:induction false} WithoutSnoc(worktrees: seq<Record>, last: Record, gone: set<string>, read: Readers)
    ensures Without(worktrees + [last], gone, read)
      == Without(worktrees, gone, read) + if read.resolve(last.listed) in gone then [] else [last]
  {
    if worktrees == [] {
      assert [] + [last] == [last] && [last][1..] == [];
    } else {
      WithoutSnoc(worktrees[1..], last, gone, read);
      assert (worktrees + [last])[1..] == worktrees[1..] + [last];
    }
  }

  lemma ReadSnoc(worktrees: seq<Record>, last: Record, resolve: string -> string)
    ensures AllAsRead(worktrees + [last], resolve) == AllAsRead(worktrees, resolve) + [AsRead(last, resolve)]
  {
  }

  function TextsOf(worktrees: seq<Record>, read: Readers): map<string, string> {
    Texts(ByPath(AllAsRead(worktrees, read.resolve)))
  }

  lemma TextsSnoc(worktrees: seq<Record>, last: Record, read: Readers)
    ensures TextsOf(worktrees + [last], read)
      == TextsOf(worktrees, read)[read.resolve(last.listed) := RecordText(last)]
  {
    ReadSnoc(worktrees, last, read.resolve);
    var all := AllAsRead(worktrees + [last], read.resolve);
    assert all[..|all| - 1] == AllAsRead(worktrees, read.resolve);
  }

  /** `Without` takes these texts out of the listing. */
  predicate TakesTexts(worktrees: seq<Record>, gone: set<string>, read: Readers) {
    TextsOf(Without(worktrees, gone, read), read) == TextsOf(worktrees, read) - gone
  }

  lemma TakesTextsSnoc(before: seq<Record>, last: Record, gone: set<string>, read: Readers)
    requires TakesTexts(before, gone, read)
    ensures TakesTexts(before + [last], gone, read)
  {
    var path, kept := read.resolve(last.listed), Without(before, gone, read);
    WithoutSnoc(before, last, gone, read);
    TextsSnoc(before, last, read);
    LessSnoc(TextsOf(before, read), path, RecordText(last), gone);
    if path in gone {
      assert kept + [] == kept;
    } else {
      TextsSnoc(kept, last, read);
    }
  }

  lemma LessSnoc(texts: map<string, string>, path: string, text: string, gone: set<string>)
    ensures texts[path := text] - gone == if path in gone then texts - gone else (texts - gone)[path := text]
  {
  }

  lemma TakesTextsOfNone(gone: set<string>, read: Readers)
    ensures TakesTexts([], gone, read)
  {
    assert AllAsRead([], read.resolve) == [];
  }

  lemma LastApart(worktrees: seq<Record>)
    requires worktrees != []
    ensures worktrees == worktrees[..|worktrees| - 1] + [worktrees[|worktrees| - 1]]
  {
  }

  /** Leaving out records by path leaves out their texts. */
  lemma {:induction false} TextsWithout(worktrees: seq<Record>, gone: set<string>, read: Readers)
    ensures TakesTexts(worktrees, gone, read)
  {
    if worktrees == [] {
      TakesTextsOfNone(gone, read);
    } else {
      var n := |worktrees| - 1;
      TextsWithout(worktrees[..n], gone, read);
      TakesTextsSnoc(worktrees[..n], worktrees[n], gone, read);
      LastApart(worktrees);
    }
  }

  lemma WithoutIsPart(worktrees: seq<Record>, gone: set<string>, read: Readers)
    ensures forall r :: r in Without(worktrees, gone, read) ==> r in worktrees
  {
    FilterExactly((r: Record) => read.resolve(r.listed) !in gone, worktrees);
  }

  lemma DistinctIsConsistent(worktrees: seq<Record>, owned: seq<string>, read: Readers)
    requires forall i, j :: 0 <= i < j < |worktrees| ==>
      read.resolve(worktrees[i].listed) != read.resolve(worktrees[j].listed)
    ensures Consistent(AllAsRead(worktrees, read.resolve), owned)
  {
    var all := AllAsRead(worktrees, read.resolve);
    ByPathHas(all);
    forall w | w in all && w.path !in owned ensures w.path in ByPath(all) && ByPath(all)[w.path].raw == w.raw {
      var i :| 0 <= i < |all| && all[i] == w;
      var j :| 0 <= j < |all| && all[j] == ByPath(all)[w.path];
      assert all[i].path == all[j].path && i == j;
    }
  }

  lemma InventoryConfirmed(initial: seq<Record>, final: seq<Record>, owned: seq<string>, read: Readers)
    requires Consistent(AllAsRead(initial, read.resolve), owned)
    requires TextsOf(final, read) == TextsOf(initial, read) - (set path | path in owned)
    ensures InventoryMatches(AllAsRead(initial, read.resolve), AllAsRead(final, read.resolve), owned)
  {
    InventoryExactly(AllAsRead(initial, read.resolve), AllAsRead(final, read.resolve), owned);
  }

  lemma TextsSwept(start: Repo, end: Repo, o: Options, p: Proof, read: Readers)
    requires Swept(start, end, o, p, read)
    requires o.verifyOnly ==> forall path :: path in p.owned ==> path !in ByPath(WorktreesOf(start, read))
    ensures TextsOf(end.worktrees, read) == TextsOf(start.worktrees, read) - OwnedPaths(p)
  {
    if o.verifyOnly {
      assert TextsOf(start.worktrees, read) - OwnedPaths(p) == TextsOf(start.worktrees, read);
    } else {
      TextsWithout(start.worktrees, OwnedPaths(p), read);
    }
  }

  /** The last inventory passes. */
  lemma WorktreesConfirmed(start: Repo, end: Repo, o: Options, p: Proof, read: Readers)
    requires Orderly(start, o, read) && Swept(start, end, o, p, read)
    requires p.checkout.inventory == WorktreesOf(start, read)
    requires o.verifyOnly ==> forall path :: path in p.owned ==> path !in ByPath(p.checkout.inventory)
    ensures InventoryMatches(p.checkout.inventory, WorktreesOf(end, read), p.owned)
  {
    DistinctIsConsistent(start.worktrees, p.owned, read);
    TextsSwept(start, end, o, p, read);
    InventoryConfirmed(start.worktrees, end.worktrees, p.owned, read);
  }

  lemma SweptIsOneLine(start: Repo, end: Repo, o: Options, p: Proof, read: Readers)
    requires OneLinePaths(start.worktrees) && Swept(start, end, o, p, read)
    ensures OneLinePaths(end.worktrees)
  {
    WithoutIsPart(start.worktrees, OwnedPaths(p), read);
    forall i | 0 <= i < |end.worktrees| ensures '\n' !in end.worktrees[i].listed {
      assert end.worktrees[i] in start.worktrees;
    }
  }

  /** The last refs pass. */
  lemma RefsConfirmed(start: Repo, end: Repo, o: Options, p: Proof, read: Readers)
    requires Orderly(start, o, read) && Swept(start, end, o, p, read) && p.refs == Heads(start.refs)
    requires RefsPresent(o, p.refs)
    ensures RefsMatch(p.refs, Heads(end.refs), OwnedRefs(o))
  {
    RefsExactly(p.refs, Heads(end.refs), OwnedRefs(o));
    if o.verifyOnly {
      forall ref | ref in OwnedRefs(o) ensures ref !in p.refs {
        var i :| 0 <= i < |OwnedRefs(o)| && OwnedRefs(o)[i] == ref;
        assert ref == HEADS + o.branches[i];
      }
      assert p.refs - OwnedNames(o) == p.refs;
    } else {
      UntangledTaken(start.refs, OwnedNames(o));
    }
  }

  // ----- The whole run -----

  lemma NothingTroubles(events: seq<Event>, stage: Stage, head: string, read: Readers)
    requires AllCooperative(events, head, read)
    ensures !Saw(events, Trouble(stage, head), read)
  {
    forall e | e in events ensures !Shows(e, Trouble(stage, head), read) {
      var i :| 0 <= i < |events| && events[i] == e;
      assert Cooperative(events[i], head, read);
    }
  }

  /** With verify-only, nothing owned is listed. */
  lemma OwnedUnlisted(o: Options, p: Proof)
    requires Ownership(o, p.checkout, p.owned)
    ensures o.verifyOnly ==> forall path :: path in p.owned ==> path !in ByPath(p.checkout.inventory)
  {
    if o.verifyOnly {
      forall path | path in p.owned ensures path !in ByPath(p.checkout.inventory) {
        var i :| 0 <= i < |p.owned| && p.owned[i] == path;
        assert !Unfit(p.owned[i], p.checkout);
      }
    }
  }

  /** The postconditions of such a run hold. */
  lemma UndisturbedConfirms(start: Repo, t: Phases, o: Options, p: Proof, worktrees: seq<Worktree>, refs: Refs,
                            read: Readers, stage: Stage)
    requires Proven(t.checks, o, p, read) && Orderly(start, o, read)
    requires Faithful(t.checks, read) && Faithful(t.finals, read)
    requires forall e :: e in t.checks ==> e.before == start
    requires forall e :: e in t.finals ==> Swept(start, e.before, o, p, read)
    ensures !Unconfirmed(t.finals, stage, o, p, worktrees, refs, read)
  {
    if stage == PostconditionWorktrees && Saw(t.finals, Inventory(worktrees), read) {
      SawThis(t.checks, t.checks[7], Inventory(p.checkout.inventory), read);
      var e := WorktreesWereReal(t.checks, p.checkout.inventory, read);
      var f := WorktreesWereReal(t.finals, worktrees, read);
      SweptIsOneLine(start, f.before, o, p, read);
      OwnedUnlisted(o, p);
      WorktreesConfirmed(start, f.before, o, p, read);
    }
    if stage == PostconditionBranches && Saw(t.finals, RefsAre(refs), read) {
      var e := RefsWereReal(t.checks, p.refs, read);
      var f := RefsWereReal(t.finals, refs, read);
      RefsConfirmed(start, f.before, o, p, read);
    }
  }

  /** A run in an orderly repository that nobody disturbs, in which no reply is one that stops the
      script and every guard holds, completes. */
  lemma UndisturbedCompletes(outcome: Outcome, log: seq<Event>, base: seq<Event>, t: Phases, o: Options, p: Proof,
                             worktrees: seq<Worktree>, refs: Refs, read: Readers)
    requires Explained(outcome, log, base, t, o, p, worktrees, refs, read)
    requires Alone(t.checks + t.acts + t.finals)
    requires AllCooperative(t.checks, p.head, read) && AllCooperative(t.acts, p.head, read)
    requires AllCooperative(t.finals, p.head, read) && GuardsMet(t.checks, o, p, read)
    requires t.checks != [] ==> Orderly(t.checks[0].before, o, read)
    ensures outcome.Completed?
  {
    if outcome.Failed? {
      var stage := outcome.stage;
      NothingTroubles(t.checks, stage, p.head, read);
      NothingTroubles(t.acts, stage, p.head, read);
      NothingTroubles(t.finals, stage, p.head, read);
      assert !GuardFails(t.checks, stage, o, p, read);
      UnconfirmedSaw(t.finals, stage, o, p, worktrees, refs, read);
      AloneFollows(t.checks, t.acts, t.finals);
      EndsSwept(t.checks[0].before, t, o, p, read);
      UndisturbedConfirms(t.checks[0].before, t, o, p, worktrees, refs, read, stage);
    }
  }

  lemma UnconfirmedSaw(finals: seq<Event>, stage: Stage, o: Options, p: Proof, worktrees: seq<Worktree>, refs: Refs,
                       read: Readers)
    requires Unconfirmed(finals, stage, o, p, worktrees, refs, read)
    ensures finals != []
  {
  }
}
