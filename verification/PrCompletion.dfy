/** scripts/ci/pr-completion.mjs: removing exactly the owned worktrees and branches of a merged pull
    request, in a repository that others may change between any two commands. */
module PrCompletion {
  import opened Decimal
  import opened GitRefs
  import opened GitReplies
  import opened Repository
  import opened Sequences
  import opened Text
  import opened WorktreeList

  datatype Options = Options(
    cwd: string, number: int, branch: string, worktrees: seq<string>, branches: seq<string>,
    verifyOnly: bool, allowLinked: bool)

  datatype Stage =
    | Input | Checkouts | OwnedWorktrees | OwnedBranches | DirtyWorktrees | LocalBranches | PrunePrecondition
    | GithubEvidence | OwnedHeads | RemoteHead | RemoveWorktree | PruneWorktrees | DeleteBranch
    | PostconditionWorktrees | PostconditionBranches

  /** What the checks established: where the script runs, what it owns, what it saw. */
  datatype Checkout = Checkout(root: string, cwd: string, gitDir: string, commonDir: string, inventory: seq<Worktree>)

  datatype Proof = Proof(checkout: Checkout, owned: seq<string>, refs: Refs, entries: seq<Merged>, view: View,
                         head: string)

  // ----- The guards -----

  predicate IsAbsolute(path: string) {
    path != "" && path[0] == '/'
  }

  predicate ValidOptions(o: Options) {
    && o.number > 0 && o.branch != "" && o.worktrees != []
    && (forall i :: 0 <= i < |o.worktrees| ==> IsAbsolute(o.worktrees[i]))
    && (forall i :: 0 <= i < |o.branches| ==> o.branches[i] != "")
  }

  function Segments(path: string): seq<string> {
    Filter((s: string) => s != "", Split(path, '/'))
  }

  predicate Contains(parent: string, child: string) {
    ContainsPath(Segments(parent), Segments(child))
  }

  predicate Linked(c: Checkout) {
    c.gitDir != c.commonDir
  }

  /** initialWorktrees.find(w => w.path === root). */
  function Find(worktrees: seq<Worktree>, path: string): (w: Option<Worktree>)
    ensures w.Some? ==> w.value in worktrees && w.value.path == path
  {
    if worktrees == [] then None
    else if worktrees[0].path == path then Some(worktrees[0])
    else Find(worktrees[1..], path)
  }

  /** A linked checkout may drive the cleanup only by request, registered, detached and not main. */
  predicate ControlAllowed(o: Options, c: Checkout)
    requires c.inventory != []
  {
    Linked(c) ==>
      && o.allowLinked && Find(c.inventory, c.root).Some?
      && c.root != c.inventory[0].path && Find(c.inventory, c.root).value.detached
  }

  /** The owned paths are distinct, none is the root, the main worktree or the control, and each is
      registered; or, when only verifying, each is unregistered. */
  predicate PathsOwnable(o: Options, c: Checkout, owned: seq<string>)
    requires c.inventory != []
  {
    && PathsDistinct(o, c, owned)
    && forall i :: 0 <= i < |owned| ==> if o.verifyOnly then !Unfit(owned[i], c) else Registered(owned[i], c)
  }

  predicate PathsDistinct(o: Options, c: Checkout, owned: seq<string>) {
    && Distinct(owned) && !(Linked(c) && c.root in owned)
    && (!o.verifyOnly ==> forall i :: 0 <= i < |owned| ==> !Contains(owned[i], c.cwd))
  }

  predicate Registered(path: string, c: Checkout)
    requires c.inventory != []
  {
    path != c.root && path != c.inventory[0].path && path in ByPath(c.inventory)
  }

  predicate Unfit(path: string, c: Checkout)
    requires c.inventory != []
  {
    path == c.root || path == c.inventory[0].path || path in ByPath(c.inventory)
  }

  /** Every owned branch is attached to an owned worktree, and every attached branch is owned. */
  predicate BranchesAttached(o: Options, c: Checkout, owned: seq<string>)
    requires forall i :: 0 <= i < |owned| ==> owned[i] in ByPath(c.inventory)
  {
    && (forall b :: b in o.branches ==> exists i :: 0 <= i < |owned| && ByPath(c.inventory)[owned[i]].branch == Some(b))
    && (forall i :: 0 <= i < |owned| && ByPath(c.inventory)[owned[i]].branch.Some? ==>
          ByPath(c.inventory)[owned[i]].branch.value in o.branches)
  }

  predicate Ownership(o: Options, c: Checkout, owned: seq<string>) {
    && c.inventory != [] && ControlAllowed(o, c) && PathsOwnable(o, c, owned) && Distinct(o.branches)
    && (!o.verifyOnly ==> BranchesAttached(o, c, owned))
  }

  function OwnedRefs(o: Options): seq<string> {
    seq(|o.branches|, i requires 0 <= i < |o.branches| => HEADS + o.branches[i])
  }

  /** Every owned ref exists, or none does when only verifying. */
  predicate RefsPresent(o: Options, refs: Refs) {
    forall i :: 0 <= i < |o.branches| ==> (HEADS + o.branches[i] in refs <==> !o.verifyOnly)
  }

  /** Every owned worktree and branch is at the head of the merged pull request. */
  predicate HeadsProven(o: Options, p: Proof) {
    && (forall i :: 0 <= i < |p.owned| ==>
          p.owned[i] in ByPath(p.checkout.inventory) && ByPath(p.checkout.inventory)[p.owned[i]].head == p.head)
    && (forall i :: 0 <= i < |o.branches| ==>
          HEADS + o.branches[i] in p.refs && p.refs[HEADS + o.branches[i]] == p.head)
  }

  // ----- What an event shows -----

  datatype Fact =
    | Inventory(worktrees: seq<Worktree>)
    | Clean(path: string)
    | Absent(path: string)
    | RefsAre(refs: Refs)
    | NothingToPrune
    | MergedList(branch: string, entries: seq<Merged>)
    | Viewed(number: int, view: View)
    | NoRemote(branch: string)
    | Tried(path: string)
    | Gone(path: string)
    | Pruned
    | RefGone(ref: string, oid: string)
    | NoBranch(branch: string)
    | Trouble(stage: Stage, head: string)

  predicate Shows(e: Event, f: Fact, read: Readers) {
    var done, out := e.reply.exitCode == 0, e.reply.stdout;
    match f
    case Inventory(worktrees) => e.command == ListWorktrees && done && Inventoried(out, read) == Some(worktrees)
    case Clean(path) => e.command == Status(path) && done && out == ""
    case Absent(path) => e.command == Exists(path) && !done
    case RefsAre(refs) => e.command == ListRefs && done && LocalRefs(out) == Some(refs)
    case NothingToPrune => e.command == PruneDryRun && Quiet(e.reply)
    case MergedList(branch, entries) => e.command == ListMerged(branch) && done && read.merged(out) == Some(entries)
    case Viewed(number, view) => e.command == ViewPr(number) && done && read.view(out) == Some(view)
    case NoRemote(branch) => e.command == LsRemote(branch) && e.reply.exitCode == 2
    case Tried(path) => e.command == Remove(path, false)
    case Gone(path) => (e.command.Remove? && e.command.path == path && done) || (e.command == Exists(path) && !done)
    case Pruned => e.command == Prune && done
    case RefGone(ref, oid) => e.command == DeleteRef(ref, oid) && done
    case NoBranch(branch) => e.command == ListBranch(branch) && done && Trimmed(out) == ""
    case Trouble(stage, head) => Troubles(e, stage, head, read)
  }

  /** The replies that make the script stop, stage by stage. */
  predicate Troubles(e: Event, stage: Stage, head: string, read: Readers) {
    var done, out := e.reply.exitCode == 0, e.reply.stdout;
    match e.command
    case CommonDir => stage == Checkouts && !done
    case TopLevel => stage == Checkouts && !done
    case GitDir => stage == Checkouts && !done
    case RealPath(_) => (stage == Checkouts || stage == OwnedWorktrees) && !done
    case Identify(_) => stage == OwnedWorktrees && !done
    case Exists(_) => stage == OwnedWorktrees && done
    case ListWorktrees =>
      || (stage == Checkouts && (!done || Inventoried(out, read).None? || Inventoried(out, read).value == []))
      || (stage == PostconditionWorktrees && (!done || Inventoried(out, read).None?))
    case Status(_) => stage == DirtyWorktrees && (!done || out != "")
    case ListRefs => (stage == LocalBranches || stage == PostconditionBranches) && (!done || LocalRefs(out).None?)
    case PruneDryRun => stage == PrunePrecondition && !Quiet(e.reply)
    case ListMerged(_) => stage == GithubEvidence && (!done || read.merged(out).None?)
    case ViewPr(_) => stage == GithubEvidence && (!done || read.view(out).None?)
    case LsRemote(_) => stage == RemoteHead && e.reply.exitCode != 2
    case RevParseHead(_) => stage == OwnedHeads && (!done || Trimmed(out) != head)
    case Remove(_, _) => stage == RemoveWorktree && !done
    case StatusNul(_) => false
    case Prune => stage == PruneWorktrees && !done
    case DeleteRef(_, _) => stage == DeleteBranch && !done
    case ListBranch(_) => stage == PostconditionBranches && (!done || Trimmed(out) != "")
  }

  predicate Saw(events: seq<Event>, f: Fact, read: Readers) {
    exists e :: e in events && Shows(e, f, read)
  }

  lemma SawThis(events: seq<Event>, e: Event, f: Fact, read: Readers)
    requires e in events && Shows(e, f, read)
    ensures Saw(events, f, read)
  {
  }

  lemma SawMore(events: seq<Event>, more: seq<Event>, read: Readers)
    ensures forall f :: Saw(events, f, read) || Saw(more, f, read) ==> Saw(events + more, f, read)
  {
    forall f | Saw(events, f, read) || Saw(more, f, read) ensures Saw(events + more, f, read) {
      var e :| (e in events || e in more) && Shows(e, f, read);
      assert e in events + more;
    }
  }

  predicate Queries(events: seq<Event>) {
    forall i :: 0 <= i < |events| ==> !Destructive(events[i].command)
  }

  /** The four commands that find the repository. */
  predicate RepositoryFound(events: seq<Event>, found: (string, string, string)) {
    && |events| == 4 && (forall i :: 0 <= i < 4 ==> events[i].reply.exitCode == 0)
    && events[0].command == CommonDir && events[1].command == RealPath(Trimmed(events[0].reply.stdout))
    && events[2].command == TopLevel && events[3].command == GitDir
    && found == (events[1].reply.stdout, events[2].reply.stdout, events[3].reply.stdout)
  }

  /** The four commands that resolve what was found, and what is made of their replies. */
  predicate CheckoutFound(events: seq<Event>, o: Options, found: (string, string, string), c: Checkout, read: Readers) {
    && |events| == 4 && (forall i :: 0 <= i < 4 ==> events[i].reply.exitCode == 0)
    && events[0].command == RealPath(Trimmed(found.1)) && events[1].command == RealPath(o.cwd)
    && events[2].command == RealPath(Trimmed(found.2)) && events[3].command == ListWorktrees
    && c.commonDir == found.0 && c.root == events[0].reply.stdout
    && c.cwd == events[1].reply.stdout && c.gitDir == events[2].reply.stdout
    && Inventoried(events[3].reply.stdout, read) == Some(c.inventory) && c.inventory != []
  }

  /** A run begins by locating the checkout. */
  predicate Located(events: seq<Event>, o: Options, c: Checkout, read: Readers) {
    && |events| >= 8 && c.inventory != []
    && var found := (events[1].reply.stdout, events[2].reply.stdout, events[3].reply.stdout);
       RepositoryFound(events[..4], found) && CheckoutFound(events[4..8], o, found, c, read)
  }

  /** Each owned path is what the file system made of the path the caller gave. */
  predicate Identified(events: seq<Event>, o: Options, owned: seq<string>) {
    && |owned| == |o.worktrees| && |events| >= 8 + |owned|
    && forall k :: 8 <= k < 8 + |owned| ==>
         && events[k].command == (if o.verifyOnly then Identify(o.worktrees[k - 8]) else RealPath(o.worktrees[k - 8]))
         && events[k].reply.exitCode == 0 && events[k].reply.stdout == owned[k - 8]
  }

  /** Where the run stands, whom it owns. */
  predicate Established(events: seq<Event>, o: Options, p: Proof, read: Readers) {
    && ValidOptions(o) && Located(events, o, p.checkout, read) && Identified(events, o, p.owned)
    && Ownership(o, p.checkout, p.owned)
    && (o.verifyOnly ==> forall i :: 0 <= i < |p.owned| ==> Saw(events, Absent(p.owned[i]), read))
  }

  /** The root, and every owned worktree unless only verifying. */
  function ToInspect(o: Options, p: Proof): seq<string> {
    if o.verifyOnly then [p.checkout.root] else [p.checkout.root] + p.owned
  }

  predicate AllClean(events: seq<Event>, o: Options, p: Proof, read: Readers) {
    forall i :: 0 <= i < |ToInspect(o, p)| ==> Saw(events, Clean(ToInspect(o, p)[i]), read)
  }

  predicate Surveyed(events: seq<Event>, o: Options, p: Proof, read: Readers) {
    && AllClean(events, o, p, read) && Saw(events, RefsAre(p.refs), read) && RefsPresent(o, p.refs)
    && (!o.verifyOnly ==> Saw(events, NothingToPrune, read))
  }

  /** The two sources, as they were read. */
  predicate Asked(events: seq<Event>, o: Options, p: Proof, read: Readers) {
    Saw(events, MergedList(o.branch, p.entries), read) && Saw(events, Viewed(o.number, p.view), read)
  }

  /** Two sources tell of the same merge, the owned heads are its head, and the remote branch is gone. */
  predicate Merge(events: seq<Event>, o: Options, p: Proof, read: Readers) {
    && Asked(events, o, p, read) && ProvenHead(p.entries, p.view, o.number, o.branch) == Some(p.head)
    && (!o.verifyOnly ==> HeadsProven(o, p))
    && Saw(events, NoRemote(o.branch), read)
  }

  predicate Proven(events: seq<Event>, o: Options, p: Proof, read: Readers) {
    Established(events, o, p, read) && Surveyed(events, o, p, read) && Merge(events, o, p, read)
  }

  // ----- What may follow what -----

  predicate AllTried(events: seq<Event>, owned: seq<string>, read: Readers) {
    forall i :: 0 <= i < |owned| ==> Saw(events, Tried(owned[i]), read)
  }

  /** May `c` be issued after `acts`?  A removal names an owned worktree whose head was just read and
      is the proven one; a forced one also follows a failed removal and a status that is non-empty
      and holds deletions only; a prune follows a quiet rehearsal and every removal; a ref deletion
      names an owned branch and the proven head and follows the prune. */
  predicate Permitted(acts: seq<Event>, c: Command, o: Options, p: Proof, read: Readers) {
    var n := |acts|;
    match c
    case Remove(path, force) =>
      path in p.owned
      && if force then
           && n >= 3 && acts[n - 3].command == Remove(path, false) && acts[n - 3].reply.exitCode != 0
           && acts[n - 2].command == Exists(path) && acts[n - 2].reply.exitCode == 0
           && acts[n - 1].command == StatusNul(path) && acts[n - 1].reply.exitCode == 0
           && OnlyDeletions(acts[n - 1].reply.stdout)
         else
           && n >= 1 && acts[n - 1].command == RevParseHead(path) && acts[n - 1].reply.exitCode == 0
           && Trimmed(acts[n - 1].reply.stdout) == p.head
    case Prune => n >= 1 && Shows(acts[n - 1], NothingToPrune, read) && AllTried(acts, p.owned, read)
    case DeleteRef(ref, oid) => oid == p.head && ref in OwnedRefs(o) && Saw(acts, Pruned, read)
    case _ => true
  }

  predicate Disciplined(acts: seq<Event>, o: Options, p: Proof, read: Readers) {
    acts == [] ||
    (Disciplined(acts[..|acts| - 1], o, p, read) && Permitted(acts[..|acts| - 1], acts[|acts| - 1].command, o, p, read))
  }

  lemma DisciplinedSnoc(acts: seq<Event>, e: Event, o: Options, p: Proof, read: Readers)
    requires Disciplined(acts, o, p, read) && Permitted(acts, e.command, o, p, read)
    ensures Disciplined(acts + [e], o, p, read)
  {
    assert (acts + [e])[..|acts|] == acts;
  }

  /** Every act of a disciplined run was permitted by the acts before it. */
  lemma {:induction false} EveryActPermitted(acts: seq<Event>, i: nat, o: Options, p: Proof, read: Readers)
    requires Disciplined(acts, o, p, read) && i < |acts|
    ensures Permitted(acts[..i], acts[i].command, o, p, read)
  {
    if i < |acts| - 1 {
      EveryActPermitted(acts[..|acts| - 1], i, o, p, read);
      assert acts[..|acts| - 1][..i] == acts[..i];
    }
  }

  ghost predicate Faithful(events: seq<Event>, read: Readers) {
    forall i :: 0 <= i < |events| ==> Effect(events[i], read)
  }

  /** The ref at the end of an owned name went, at the proven head; and of all that lead to an object
      just the owned name, if and only if it was direct and no other name was symbolic to it. */
  predicate Deletes(before: RefStore, after: RefStore, ref: string, head: string) {
    && RefDeleted(before, after, ref, head)
    && (Values(after) == Values(before) - {ref} <==> Untangled(before, ref))
  }

  /** Whatever others do, the run's own commands change no ref except by a deletion of an owned name
      that leads to the proven head. */
  lemma {:induction false} OwnRefsAtHeadOnly(acts: seq<Event>, i: nat, o: Options, p: Proof, read: Readers)
    requires Disciplined(acts, o, p, read) && Faithful(acts, read) && i < |acts|
    ensures acts[i].after.refs == acts[i].before.refs
      || (exists ref :: ref in OwnedRefs(o) && Deletes(acts[i].before.refs, acts[i].after.refs, ref, p.head))
  {
    var e := acts[i];
    EveryActPermitted(acts, i, o, p, read);
    assert Effect(e, read);
    if e.command.DeleteRef? && RefDeleted(e.before.refs, e.after.refs, e.command.ref, e.command.oid) {
      DeletionExactly(e.before.refs, e.after.refs, e.command.ref, e.command.oid);
      assert Deletes(e.before.refs, e.after.refs, e.command.ref, p.head);
    }
  }

  /** Removals drop only records of owned paths; a prune drops only what was prunable when it ran,
      and that is nothing when nobody interfered since the rehearsal. */
  lemma {:induction false} OwnWorktreesOnly(acts: seq<Event>, i: nat, w: Record, o: Options, p: Proof, read: Readers)
    requires Disciplined(acts, o, p, read) && Faithful(acts, read) && i < |acts|
    requires w in acts[i].before.worktrees && w !in acts[i].after.worktrees
    ensures read.resolve(w.listed) in p.owned
      || (acts[i].command == Prune && read.resolve(w.listed) in acts[i].before.prunable)
    ensures acts[i].command == Prune && i > 0 && acts[i].before == acts[i - 1].after ==> read.resolve(w.listed) in p.owned
  {
    var e := acts[i];
    EveryActPermitted(acts, i, o, p, read);
    assert Effect(e, read);
    if e.command.Remove? {
      KeptUnlessNamed(e.before.worktrees, e.after.worktrees, {e.command.path}, w, read);
    } else if e.command == Prune {
      KeptUnlessNamed(e.before.worktrees, e.after.worktrees, e.before.prunable, w, read);
      assert Effect(acts[i - 1], read);
    }
  }

  lemma KeptUnlessNamed(before: seq<Record>, after: seq<Record>, paths: set<string>, w: Record, read: Readers)
    requires Without(after, paths, read) == Without(before, paths, read) && w in before && w !in after
    ensures read.resolve(w.listed) in paths
  {
    FilterExactly((r: Record) => read.resolve(r.listed) !in paths, before);
    FilterExactly((r: Record) => read.resolve(r.listed) !in paths, after);
  }

  /** A guard over what the run had seen did not hold. */
  predicate GuardFails(events: seq<Event>, stage: Stage, o: Options, p: Proof, read: Readers) {
    var c := p.checkout;
    match stage
    case Input => !ValidOptions(o)
    case Checkouts => Located(events, o, c, read) && !ControlAllowed(o, c)
    case OwnedWorktrees => Located(events, o, c, read) && Identified(events, o, p.owned) && !PathsOwnable(o, c, p.owned)
    case OwnedBranches =>
      || !Distinct(o.branches)
      || (Located(events, o, c, read) && Identified(events, o, p.owned) && PathsOwnable(o, c, p.owned)
          && !o.verifyOnly && !BranchesAttached(o, c, p.owned))
      || (Saw(events, RefsAre(p.refs), read) && !RefsPresent(o, p.refs))
    case GithubEvidence => Asked(events, o, p, read) && ProvenHead(p.entries, p.view, o.number, o.branch).None?
    case OwnedHeads =>
      && Surveyed(events, o, p, read) && Asked(events, o, p, read) && !o.verifyOnly
      && ProvenHead(p.entries, p.view, o.number, o.branch) == Some(p.head) && !HeadsProven(o, p)
    case _ => false
  }

  /** Why the run stopped at a stage: a reply it had, or a guard. */
  predicate Justified(events: seq<Event>, stage: Stage, o: Options, p: Proof, read: Readers) {
    Saw(events, Trouble(stage, p.head), read) || GuardFails(events, stage, o, p, read)
  }

  lemma TroubleAtAnyHead(events: seq<Event>, stage: Stage, head: string, read: Readers)
    requires Saw(events, Trouble(stage, ""), read) && stage != OwnedHeads
    ensures Saw(events, Trouble(stage, head), read)
  {
    var e :| e in events && Shows(e, Trouble(stage, ""), read);
    SawThis(events, e, Trouble(stage, head), read);
  }

  // ----- The checks -----

  /** The run so far: `base` was logged before it, `events` are its own. */
  ghost predicate Logged(log: seq<Event>, base: seq<Event>, events: seq<Event>, read: Readers) {
    log == base + events && Faithful(events, read)
  }

  method Ask(r: Runner, c: Command, ghost base: seq<Event>, ghost events: seq<Event>)
    returns (reply: Reply, ghost e: Event, ghost longer: seq<Event>)
    requires Logged(r.log, base, events, r.read) && !Destructive(c)
    modifies r
    ensures Logged(r.log, base, longer, r.read) && longer == events + [e] && e.command == c && e.reply == reply
    ensures Queries(events) ==> Queries(longer)
  {
    reply, e := r.Execute(c);
    longer := events + [e];
    assert r.log == base + longer;
  }

  /** The same, keeping in view everything the events show. */
  method Look(r: Runner, c: Command, ghost base: seq<Event>, ghost events: seq<Event>)
    returns (reply: Reply, ghost e: Event, ghost longer: seq<Event>)
    requires Logged(r.log, base, events, r.read) && !Destructive(c)
    modifies r
    ensures Logged(r.log, base, longer, r.read) && longer == events + [e] && e.command == c && e.reply == reply
    ensures Queries(events) ==> Queries(longer)
    ensures forall f :: Saw(events, f, r.read) || Shows(e, f, r.read) ==> Saw(longer, f, r.read)
  {
    reply, e, longer := Ask(r, c, base, events);
    SawMore(events, [e], r.read);
    forall f | Shows(e, f, r.read) ensures Saw(longer, f, r.read) {
      SawThis(longer, e, f, r.read);
    }
  }

  /** A lookup without which the run cannot go on. */
  method Need(r: Runner, c: Command, ghost base: seq<Event>, ghost events: seq<Event>)
    returns (out: Option<string>, ghost e: Event, ghost longer: seq<Event>)
    requires Logged(r.log, base, events, r.read) && (c == CommonDir || c == TopLevel || c == GitDir || c.RealPath?)
    modifies r
    ensures Logged(r.log, base, longer, r.read) && longer == events + [e] && e.command == c
    ensures Queries(events) ==> Queries(longer)
    ensures out == if e.reply.exitCode == 0 then Some(e.reply.stdout) else None
    ensures out.None? ==> Saw(longer, Trouble(Checkouts, ""), r.read)
  {
    var reply;
    reply, e, longer := Ask(r, c, base, events);
    if reply.exitCode != 0 {
      SawThis(longer, e, Trouble(Checkouts, ""), r.read);
      return None, e, longer;
    }
    out := Some(reply.stdout);
  }

  method ListInitial(r: Runner, ghost base: seq<Event>, ghost events: seq<Event>)
    returns (inventory: Option<seq<Worktree>>, ghost e: Event, ghost longer: seq<Event>)
    requires Logged(r.log, base, events, r.read)
    modifies r
    ensures Logged(r.log, base, longer, r.read) && longer == events + [e] && e.command == ListWorktrees
    ensures Queries(events) ==> Queries(longer)
    ensures inventory.Some? ==>
      e.reply.exitCode == 0 && Inventoried(e.reply.stdout, r.read) == inventory && inventory.value != []
    ensures inventory.None? ==> Saw(longer, Trouble(Checkouts, ""), r.read)
  {
    var list;
    list, e, longer := Ask(r, ListWorktrees, base, events);
    inventory := if list.exitCode == 0 then Inventoried(list.stdout, r.read) else None;
    if inventory.None? || inventory.value == [] {
      SawThis(longer, e, Trouble(Checkouts, ""), r.read);
      inventory := None;
    }
  }

  method FindCommonDir(r: Runner, ghost base: seq<Event>)
    returns (commonDir: Option<string>, ghost events: seq<Event>)
    requires r.log == base
    modifies r
    ensures Logged(r.log, base, events, r.read) && Queries(events)
    ensures commonDir.Some? ==>
      && |events| == 2 && events[0].reply.exitCode == 0 && events[1].reply.exitCode == 0
      && events[0].command == CommonDir && events[1].command == RealPath(Trimmed(events[0].reply.stdout))
      && commonDir.value == events[1].reply.stdout
    ensures commonDir.None? ==> Saw(events, Trouble(Checkouts, ""), r.read)
  {
    ghost var e;
    var common;
    common, e, events := Need(r, CommonDir, base, []);
    if common.None? {
      return None, events;
    }
    commonDir, e, events := Need(r, RealPath(Trimmed(common.value)), base, events);
  }

  /** Where the repository is: the common directory resolved, the two others as printed. */
  method FindRepository(r: Runner, ghost base: seq<Event>)
    returns (found: Option<(string, string, string)>, ghost events: seq<Event>)
    requires r.log == base
    modifies r
    ensures Logged(r.log, base, events, r.read) && Queries(events)
    ensures found.Some? ==> RepositoryFound(events, found.value)
    ensures found.None? ==> Saw(events, Trouble(Checkouts, ""), r.read)
  {
    ghost var e;
    var commonDir, top, git;
    commonDir, events := FindCommonDir(r, base);
    if commonDir.None? {
      return None, events;
    }
    top, e, events := Need(r, TopLevel, base, events);
    if top.None? {
      return None, events;
    }
    git, e, events := Need(r, GitDir, base, events);
    if git.None? {
      return None, events;
    }
    found := Some((commonDir.value, top.value, git.value));
  }

  /** The three paths of the checkout, resolved. */
  predicate PathsResolved(events: seq<Event>, o: Options, found: (string, string, string),
                          paths: (string, string, string)) {
    && |events| == 3 && (forall i :: 0 <= i < 3 ==> events[i].reply.exitCode == 0)
    && events[0].command == RealPath(Trimmed(found.1)) && events[1].command == RealPath(o.cwd)
    && events[2].command == RealPath(Trimmed(found.2))
    && paths == (events[0].reply.stdout, events[1].reply.stdout, events[2].reply.stdout)
  }

  method ResolvePaths(r: Runner, o: Options, found: (string, string, string), ghost base: seq<Event>)
    returns (paths: Option<(string, string, string)>, ghost events: seq<Event>)
    requires r.log == base
    modifies r
    ensures Logged(r.log, base, events, r.read) && Queries(events)
    ensures paths.Some? ==> PathsResolved(events, o, found, paths.value)
    ensures paths.None? ==> Saw(events, Trouble(Checkouts, ""), r.read)
  {
    ghost var e;
    var root, cwd, gitDir;
    root, e, events := Need(r, RealPath(Trimmed(found.1)), base, []);
    if root.None? {
      return None, events;
    }
    cwd, e, events := Need(r, RealPath(o.cwd), base, events);
    if cwd.None? {
      return None, events;
    }
    gitDir, e, events := Need(r, RealPath(Trimmed(found.2)), base, events);
    if gitDir.None? {
      return None, events;
    }
    paths := Some((root.value, cwd.value, gitDir.value));
  }

  lemma CheckoutTogether(events: seq<Event>, e: Event, o: Options, found: (string, string, string),
                         paths: (string, string, string), inventory: seq<Worktree>, read: Readers)
    requires PathsResolved(events, o, found, paths) && e.command == ListWorktrees && e.reply.exitCode == 0
    requires Inventoried(e.reply.stdout, read) == Some(inventory) && inventory != []
    ensures CheckoutFound(events + [e], o, found, Checkout(paths.0, paths.1, paths.2, found.0, inventory), read)
  {
  }

  /** The checkout: root, working directory and git directory resolved, and the inventory. */
  method FindCheckout(r: Runner, o: Options, found: (string, string, string), ghost base: seq<Event>)
    returns (c: Option<Checkout>, ghost events: seq<Event>)
    requires r.log == base
    modifies r
    ensures Logged(r.log, base, events, r.read) && Queries(events)
    ensures c.Some? ==> CheckoutFound(events, o, found, c.value, r.read)
    ensures c.None? ==> Saw(events, Trouble(Checkouts, ""), r.read)
  {
    var paths, inventory;
    paths, events := ResolvePaths(r, o, found, base);
    if paths.None? {
      return None, events;
    }
    ghost var e;
    ghost var resolved := events;
    inventory, e, events := ListInitial(r, base, events);
    if inventory.None? {
      return None, events;
    }
    CheckoutTogether(resolved, e, o, found, paths.value, inventory.value, r.read);
    c := Some(Checkout(paths.value.0, paths.value.1, paths.value.2, found.0, inventory.value));
  }

  lemma LocatedTogether(first: seq<Event>, second: seq<Event>, o: Options, found: (string, string, string),
                        c: Checkout, read: Readers)
    requires RepositoryFound(first, found) && CheckoutFound(second, o, found, c, read)
    ensures |first + second| == 8 && Located(first + second, o, c, read)
  {
    assert (first + second)[..4] == first && (first + second)[4..8] == second;
  }

  lemma Together(log: seq<Event>, base: seq<Event>, first: seq<Event>, second: seq<Event>, read: Readers)
    requires log == base + first + second && Faithful(first, read) && Faithful(second, read)
    ensures Logged(log, base, first + second, read)
    ensures Queries(first) && Queries(second) ==> Queries(first + second)
  {
  }

  method Locate(r: Runner, o: Options, ghost base: seq<Event>)
    returns (c: Option<Checkout>, ghost events: seq<Event>)
    requires r.log == base
    modifies r
    ensures Logged(r.log, base, events, r.read) && Queries(events)
    ensures c.Some? ==> |events| == 8 && Located(events, o, c.value, r.read)
    ensures c.None? ==> Saw(events, Trouble(Checkouts, ""), r.read)
  {
    var found;
    found, events := FindRepository(r, base);
    if found.None? {
      return None, events;
    }
    ghost var more;
    c, more := FindCheckout(r, o, found.value, base + events);
    if c.Some? {
      LocatedTogether(events, more, o, found.value, c.value, r.read);
    } else {
      SawMore(events, more, r.read);
    }
    Together(r.log, base, events, more, r.read);
    events := events + more;
  }

  method IdentifyOwned(r: Runner, o: Options, ghost base: seq<Event>, ghost events: seq<Event>)
    returns (owned: Option<seq<string>>, ghost longer: seq<Event>)
    requires Logged(r.log, base, events, r.read) && Queries(events) && |events| == 8
    modifies r
    ensures Logged(r.log, base, longer, r.read) && Queries(longer) && events <= longer
    ensures owned.Some? ==> Identified(longer, o, owned.value)
    ensures owned.None? ==> Saw(longer, Trouble(OwnedWorktrees, ""), r.read)
  {
    var paths: seq<string> := [];
    longer := events;
    for i := 0 to |o.worktrees|
      invariant Logged(r.log, base, longer, r.read) && Queries(longer) && events <= longer
      invariant |paths| == i && |longer| == 8 + i
      invariant forall k :: 8 <= k < 8 + i ==>
        && longer[k].command == (if o.verifyOnly then Identify(o.worktrees[k - 8]) else RealPath(o.worktrees[k - 8]))
        && longer[k].reply.exitCode == 0 && longer[k].reply.stdout == paths[k - 8]
    {
      var reply;
      ghost var e;
      var c := if o.verifyOnly then Identify(o.worktrees[i]) else RealPath(o.worktrees[i]);
      reply, e, longer := Ask(r, c, base, longer);
      if reply.exitCode != 0 {
        SawThis(longer, e, Trouble(OwnedWorktrees, ""), r.read);
        return None, longer;
      }
      paths := paths + [reply.stdout];
    }
    owned := Some(paths);
  }

  /** Verify-only: every owned path must be neither the root nor main, gone, and unregistered. */
  method CheckAbsent(r: Runner, o: Options, c: Checkout, owned: seq<string>, ghost base: seq<Event>,
                     ghost events: seq<Event>)
    returns (ok: bool, ghost longer: seq<Event>)
    requires Logged(r.log, base, events, r.read) && Queries(events) && c.inventory != []
    modifies r
    ensures Logged(r.log, base, longer, r.read) && Queries(longer) && events <= longer
    ensures ok ==> forall i :: 0 <= i < |owned| ==>
      !Unfit(owned[i], c) && Saw(longer, Absent(owned[i]), r.read)
    ensures !ok && !Saw(longer, Trouble(OwnedWorktrees, ""), r.read) ==>
      exists i :: 0 <= i < |owned| && Unfit(owned[i], c)
  {
    longer := events;
    ok := true;
    for i := 0 to |owned|
      invariant Logged(r.log, base, longer, r.read) && Queries(longer) && events <= longer
      invariant ok ==> forall j :: 0 <= j < i ==>
        !Unfit(owned[j], c) && Saw(longer, Absent(owned[j]), r.read)
      invariant !ok && !Saw(longer, Trouble(OwnedWorktrees, ""), r.read) ==>
        exists j :: 0 <= j < i && Unfit(owned[j], c)
    {
      if owned[i] == c.root || owned[i] == c.inventory[0].path {
        ok := false;
      } else {
        var there;
        ghost var e;
        there, e, longer := Look(r, Exists(owned[i]), base, longer);
        if there.exitCode == 0 || owned[i] in ByPath(c.inventory) {
          ok := false;
        }
      }
    }
  }

  /** The guards on the control checkout and on the owned paths as names, in their order. */
  method CheckControl(o: Options, c: Checkout, owned: seq<string>) returns (refused: Option<Stage>)
    requires c.inventory != []
    ensures refused.None? <==> ControlAllowed(o, c) && PathsDistinct(o, c, owned)
    ensures refused == Some(Checkouts) ==> !ControlAllowed(o, c)
    ensures refused.Some? && refused != Some(Checkouts) ==>
      refused == Some(OwnedWorktrees) && !PathsDistinct(o, c, owned)
  {
    if !o.verifyOnly && exists i :: 0 <= i < |owned| && Contains(owned[i], c.cwd) {
      return Some(OwnedWorktrees);
    }
    if Linked(c) && !o.allowLinked {
      return Some(Checkouts);
    }
    var control := Find(c.inventory, c.root);
    if Linked(c) && (control.None? || control.value.path == c.inventory[0].path || !control.value.detached) {
      return Some(Checkouts);
    }
    if !Distinct(owned) || (Linked(c) && c.root in owned) {
      return Some(OwnedWorktrees);
    }
    refused := None;
  }

  /** The guards between the inventory and the first status, in their order. */
  method CheckOwnership(r: Runner, o: Options, c: Checkout, owned: seq<string>, ghost base: seq<Event>,
                        ghost events: seq<Event>)
    returns (refused: Option<Stage>, ghost longer: seq<Event>)
    requires Logged(r.log, base, events, r.read) && Queries(events) && c.inventory != []
    modifies r
    ensures Logged(r.log, base, longer, r.read) && Queries(longer) && events <= longer
    ensures refused.None? ==> Ownership(o, c, owned)
    ensures refused.None? && o.verifyOnly ==> forall i :: 0 <= i < |owned| ==> Saw(longer, Absent(owned[i]), r.read)
    ensures refused.Some? ==>
      || (refused.value == Checkouts && !ControlAllowed(o, c))
      || (refused.value == OwnedWorktrees && (Saw(longer, Trouble(OwnedWorktrees, ""), r.read) || !PathsOwnable(o, c, owned)))
      || (refused.value == OwnedBranches && !Distinct(o.branches))
      || (refused.value == OwnedBranches && PathsOwnable(o, c, owned) && !o.verifyOnly && !BranchesAttached(o, c, owned))
  {
    longer := events;
    refused := CheckControl(o, c, owned);
    if refused.Some? {
      return;
    }
    if o.verifyOnly {
      var ok;
      ok, longer := CheckAbsent(r, o, c, owned, base, longer);
      if !ok {
        return Some(OwnedWorktrees), longer;
      }
    } else if exists i :: 0 <= i < |owned| && !Registered(owned[i], c) {
      return Some(OwnedWorktrees), longer;
    }
    if !Distinct(o.branches) {
      return Some(OwnedBranches), longer;
    }
    if !o.verifyOnly && !BranchesAttached(o, c, owned) {
      return Some(OwnedBranches), longer;
    }
    refused := None;
  }

  /** git status at every path: a failing one stops the loop, dirty ones are collected. */
  method InspectStatus(r: Runner, paths: seq<string>, ghost base: seq<Event>, ghost events: seq<Event>)
    returns (ok: bool, ghost longer: seq<Event>)
    requires Logged(r.log, base, events, r.read) && Queries(events)
    modifies r
    ensures Logged(r.log, base, longer, r.read) && Queries(longer) && events <= longer
    ensures ok ==> forall i :: 0 <= i < |paths| ==> Saw(longer, Clean(paths[i]), r.read)
    ensures !ok ==> Saw(longer, Trouble(DirtyWorktrees, ""), r.read)
  {
    longer := events;
    var dirty: seq<(string, string)> := [];
    for i := 0 to |paths|
      invariant Logged(r.log, base, longer, r.read) && Queries(longer) && events <= longer
      invariant dirty == [] ==> forall j :: 0 <= j < i ==> Saw(longer, Clean(paths[j]), r.read)
      invariant dirty != [] ==> Saw(longer, Trouble(DirtyWorktrees, ""), r.read)
    {
      var status;
      ghost var e;
      status, e, longer := Look(r, Status(paths[i]), base, longer);
      if status.exitCode != 0 {
        return false, longer;
      }
      if status.stdout != "" {
        dirty := dirty + [(paths[i], status.stdout)];
      }
    }
    ok := dirty == [];
  }

  method CheckPrunePrecondition(r: Runner, ghost base: seq<Event>, ghost events: seq<Event>)
    returns (ok: bool, ghost longer: seq<Event>)
    requires Logged(r.log, base, events, r.read)
    modifies r
    ensures Logged(r.log, base, longer, r.read) && events <= longer && longer != []
    ensures Queries(events) ==> Queries(longer)
    ensures ok ==> Shows(longer[|longer| - 1], NothingToPrune, r.read)
    ensures ok ==> Saw(longer, NothingToPrune, r.read)
    ensures !ok ==> Saw(longer, Trouble(PrunePrecondition, ""), r.read)
    ensures |longer| == |events| + 1 && !Destructive(longer[|events|].command)
  {
    var reply;
    ghost var e;
    reply, e, longer := Look(r, PruneDryRun, base, events);
    ok := Quiet(reply);
  }

  lemma SawOn(events: seq<Event>, longer: seq<Event>, read: Readers)
    requires events <= longer
    ensures forall f :: Saw(events, f, read) ==> Saw(longer, f, read)
  {
    SawMore(events, longer[|events|..], read);
    assert longer == events + longer[|events|..];
  }

  lemma EstablishedOn(events: seq<Event>, longer: seq<Event>, o: Options, p: Proof, q: Proof, read: Readers)
    requires Established(events, o, p, read) && events <= longer && p.checkout == q.checkout && p.owned == q.owned
    ensures Established(longer, o, q, read)
  {
    SawOn(events, longer, read);
    assert longer[..4] == events[..4] && longer[4..8] == events[4..8];
  }

  lemma SurveyedOn(events: seq<Event>, longer: seq<Event>, o: Options, p: Proof, q: Proof, read: Readers)
    requires Surveyed(events, o, p, read) && events <= longer
    requires p.checkout == q.checkout && p.owned == q.owned && p.refs == q.refs
    ensures Surveyed(longer, o, q, read)
  {
    SawOn(events, longer, read);
    assert ToInspect(o, p) == ToInspect(o, q);
  }

  /** The snapshot of the local refs. */
  method SnapshotRefs(r: Runner, stage: Stage, ghost base: seq<Event>, ghost events: seq<Event>)
    returns (refs: Option<Refs>, ghost longer: seq<Event>)
    requires Logged(r.log, base, events, r.read) && Queries(events)
    requires stage == LocalBranches || stage == PostconditionBranches
    modifies r
    ensures Logged(r.log, base, longer, r.read) && Queries(longer) && events <= longer
    ensures refs.Some? ==> Saw(longer, RefsAre(refs.value), r.read)
    ensures refs.None? ==> Saw(longer, Trouble(stage, ""), r.read)
  {
    var reply;
    ghost var e;
    reply, e, longer := Look(r, ListRefs, base, events);
    if reply.exitCode != 0 {
      return None, longer;
    }
    refs := ParseLocalRefs(reply.stdout);
  }

  /** Clean trees, a snapshot of the refs with the owned ones in it, and nothing to prune. */
  method Survey(r: Runner, o: Options, start: Proof, ghost base: seq<Event>, ghost events: seq<Event>)
    returns (refused: Option<Stage>, p: Proof, ghost longer: seq<Event>)
    requires Logged(r.log, base, events, r.read) && Queries(events)
    modifies r
    ensures Logged(r.log, base, longer, r.read) && Queries(longer) && events <= longer && p == start.(refs := p.refs)
    ensures refused.None? ==> Surveyed(longer, o, p, r.read)
    ensures refused.Some? ==> refused.value != OwnedHeads
    ensures refused.Some? && !Saw(longer, Trouble(refused.value, ""), r.read) ==>
      refused.value == OwnedBranches && Saw(longer, RefsAre(p.refs), r.read) && !RefsPresent(o, p.refs)
  {
    p := start;
    var ok;
    ok, longer := InspectStatus(r, ToInspect(o, p), base, events);
    if !ok {
      return Some(DirtyWorktrees), p, longer;
    }
    ghost var inspected := longer;
    var refs;
    refs, longer := SnapshotRefs(r, LocalBranches, base, longer);
    if refs.None? {
      return Some(LocalBranches), p, longer;
    }
    p := p.(refs := refs.value);
    if !RefsPresent(o, p.refs) {
      return Some(OwnedBranches), p, longer;
    }
    ghost var snapshot := longer;
    if !o.verifyOnly {
      ok, longer := CheckPrunePrecondition(r, base, longer);
      if !ok {
        return Some(PrunePrecondition), p, longer;
      }
    }
    SawOn(inspected, longer, r.read);
    SawOn(snapshot, longer, r.read);
    refused := None;
  }

  /** The two GitHub sources: None when either command or its JSON fails. */
  method AskGithub(r: Runner, o: Options, ghost base: seq<Event>, ghost events: seq<Event>)
    returns (evidence: Option<(seq<Merged>, View)>, ghost longer: seq<Event>)
    requires Logged(r.log, base, events, r.read) && Queries(events)
    modifies r
    ensures Logged(r.log, base, longer, r.read) && Queries(longer) && events <= longer
    ensures evidence.Some? ==>
      Saw(longer, MergedList(o.branch, evidence.value.0), r.read) && Saw(longer, Viewed(o.number, evidence.value.1), r.read)
    ensures evidence.None? ==> Saw(longer, Trouble(GithubEvidence, ""), r.read)
  {
    var list, view;
    ghost var e;
    list, e, longer := Look(r, ListMerged(o.branch), base, events);
    if list.exitCode != 0 {
      return None, longer;
    }
    view, e, longer := Look(r, ViewPr(o.number), base, longer);
    if view.exitCode != 0 {
      return None, longer;
    }
    var entries, viewed := r.read.merged(list.stdout), r.read.view(view.stdout);
    if entries.None? || viewed.None? {
      return None, longer;
    }
    evidence := Some((entries.value, viewed.value));
  }

  /** Two matching sources, owned heads at the merged head, and no remote branch left. */
  method ProveMerge(r: Runner, o: Options, start: Proof, ghost base: seq<Event>, ghost events: seq<Event>)
    returns (refused: Option<Stage>, p: Proof, ghost longer: seq<Event>)
    requires Logged(r.log, base, events, r.read) && Queries(events)
    modifies r
    ensures Logged(r.log, base, longer, r.read) && Queries(longer) && events <= longer
    ensures p == start.(entries := p.entries, view := p.view, head := p.head)
    ensures refused.None? ==> Merge(longer, o, p, r.read)
    ensures refused.Some? ==> refused.value in {GithubEvidence, OwnedHeads, RemoteHead}
    ensures refused == Some(RemoteHead) ==> Saw(longer, Trouble(RemoteHead, ""), r.read)
    ensures refused == Some(GithubEvidence) && !Saw(longer, Trouble(GithubEvidence, ""), r.read) ==>
      ProvenHead(p.entries, p.view, o.number, o.branch).None? && Asked(longer, o, p, r.read)
    ensures refused == Some(OwnedHeads) ==>
      ProvenHead(p.entries, p.view, o.number, o.branch) == Some(p.head) && Asked(longer, o, p, r.read) && !HeadsProven(o, p)
      && !o.verifyOnly
  {
    p := start;
    var evidence;
    evidence, longer := AskGithub(r, o, base, events);
    if evidence.None? {
      return Some(GithubEvidence), p, longer;
    }
    p := p.(entries := evidence.value.0, view := evidence.value.1);
    var head := ProvenHead(p.entries, p.view, o.number, o.branch);
    if head.None? {
      return Some(GithubEvidence), p, longer;
    }
    p := p.(head := head.value);
    if !o.verifyOnly && !HeadsProven(o, p) {
      return Some(OwnedHeads), p, longer;
    }
    ghost var asked := longer;
    var absent;
    absent, longer := CheckRemote(r, o, base, longer);
    SawOn(asked, longer, r.read);
    refused := if absent then None else Some(RemoteHead);
  }

  /** ls-remote --exit-code answers 2, and only 2, when the branch is absent. */
  method CheckRemote(r: Runner, o: Options, ghost base: seq<Event>, ghost events: seq<Event>)
    returns (absent: bool, ghost longer: seq<Event>)
    requires Logged(r.log, base, events, r.read) && Queries(events)
    modifies r
    ensures Logged(r.log, base, longer, r.read) && Queries(longer) && events <= longer
    ensures if absent then Saw(longer, NoRemote(o.branch), r.read) else Saw(longer, Trouble(RemoteHead, ""), r.read)
  {
    var remote;
    ghost var e;
    remote, e, longer := Look(r, LsRemote(o.branch), base, events);
    absent := remote.exitCode == 2;
  }

  lemma LocatedOn(events: seq<Event>, longer: seq<Event>, o: Options, p: Proof, read: Readers)
    requires Located(events, o, p.checkout, read) && events <= longer
    ensures Located(longer, o, p.checkout, read)
    ensures Identified(events, o, p.owned) ==> Identified(longer, o, p.owned)
  {
    assert longer[..4] == events[..4] && longer[4..8] == events[4..8];
  }

  /** The guards up to ownership. */
  method Establish(r: Runner, o: Options, ghost base: seq<Event>)
    returns (refused: Option<Stage>, p: Proof, ghost events: seq<Event>)
    requires r.log == base && ValidOptions(o)
    modifies r
    ensures Logged(r.log, base, events, r.read) && Queries(events) && p.head == ""
    ensures refused.None? ==> Established(events, o, p, r.read)
    ensures refused.Some? ==> Justified(events, refused.value, o, p, r.read)
  {
    p := Proof(Checkout("", "", "", "", []), [], map[], [], View(None, None, Neither, None, None), "");
    var c, owned;
    c, events := Locate(r, o, base);
    if c.None? {
      return Some(Checkouts), p, events;
    }
    p := p.(checkout := c.value);
    ghost var located := events;
    owned, events := IdentifyOwned(r, o, base, events);
    if owned.None? {
      return Some(OwnedWorktrees), p, events;
    }
    p := p.(owned := owned.value);
    LocatedOn(located, events, o, p, r.read);
    refused, events := OwnershipGuards(r, o, p, base, events);
  }

  method OwnershipGuards(r: Runner, o: Options, p: Proof, ghost base: seq<Event>, ghost events: seq<Event>)
    returns (refused: Option<Stage>, ghost longer: seq<Event>)
    requires Logged(r.log, base, events, r.read) && Queries(events) && ValidOptions(o) && p.head == ""
    requires Located(events, o, p.checkout, r.read) && Identified(events, o, p.owned)
    modifies r
    ensures Logged(r.log, base, longer, r.read) && Queries(longer)
    ensures refused.None? ==> Established(longer, o, p, r.read)
    ensures refused.Some? ==> Justified(longer, refused.value, o, p, r.read)
  {
    refused, longer := CheckOwnership(r, o, p.checkout, p.owned, base, events);
    LocatedOn(events, longer, o, p, r.read);
    if refused.Some? {
      OwnershipRefused(longer, refused.value, o, p, r.read);
    }
  }

  lemma OwnershipRefused(events: seq<Event>, stage: Stage, o: Options, p: Proof, read: Readers)
    requires Located(events, o, p.checkout, read) && Identified(events, o, p.owned) && p.head == ""
    requires
      || (stage == Checkouts && !ControlAllowed(o, p.checkout))
      || (stage == OwnedWorktrees
          && (Saw(events, Trouble(OwnedWorktrees, ""), read) || !PathsOwnable(o, p.checkout, p.owned)))
      || (stage == OwnedBranches && !Distinct(o.branches))
      || (stage == OwnedBranches && PathsOwnable(o, p.checkout, p.owned) && !o.verifyOnly
          && !BranchesAttached(o, p.checkout, p.owned))
    ensures Justified(events, stage, o, p, read)
  {
  }

  lemma MergeRefused(events: seq<Event>, stage: Stage, o: Options, p: Proof, read: Readers)
    requires Surveyed(events, o, p, read)
    requires stage in {GithubEvidence, OwnedHeads, RemoteHead}
    requires stage == RemoteHead ==> Saw(events, Trouble(RemoteHead, ""), read)
    requires stage == GithubEvidence && !Saw(events, Trouble(GithubEvidence, ""), read) ==>
      ProvenHead(p.entries, p.view, o.number, o.branch).None? && Asked(events, o, p, read)
    requires stage == OwnedHeads ==>
      ProvenHead(p.entries, p.view, o.number, o.branch) == Some(p.head) && Asked(events, o, p, read) && !HeadsProven(o, p)
      && !o.verifyOnly
    ensures Justified(events, stage, o, p, read)
  {
    if stage != OwnedHeads && Saw(events, Trouble(stage, ""), read) {
      TroubleAtAnyHead(events, stage, p.head, read);
    }
  }

  /** Every check that precedes the first change. */
  method Check(r: Runner, o: Options, ghost base: seq<Event>)
    returns (refused: Option<Stage>, p: Proof, ghost checks: seq<Event>)
    requires r.log == base && ValidOptions(o)
    modifies r
    ensures Logged(r.log, base, checks, r.read) && Queries(checks)
    ensures refused.None? ==> Proven(checks, o, p, r.read)
    ensures refused.Some? ==> Justified(checks, refused.value, o, p, r.read)
  {
    refused, p, checks := Establish(r, o, base);
    if refused.Some? {
      return;
    }
    refused, p, checks := SurveyAndProve(r, o, p, base, checks);
  }

  method SurveyAndProve(r: Runner, o: Options, start: Proof, ghost base: seq<Event>, ghost events: seq<Event>)
    returns (refused: Option<Stage>, p: Proof, ghost checks: seq<Event>)
    requires Logged(r.log, base, events, r.read) && Queries(events) && Established(events, o, start, r.read)
    requires start.head == ""
    modifies r
    ensures Logged(r.log, base, checks, r.read) && Queries(checks)
    ensures refused.None? ==> Proven(checks, o, p, r.read)
    ensures refused.Some? ==> Justified(checks, refused.value, o, p, r.read)
  {
    refused, p, checks := Survey(r, o, start, base, events);
    if refused.Some? {
      SurveyRefused(checks, refused.value, o, p, r.read);
      return;
    }
    EstablishedOn(events, checks, o, start, p, r.read);
    refused, p, checks := ProveSurveyed(r, o, p, base, checks);
  }

  lemma SurveyRefused(events: seq<Event>, stage: Stage, o: Options, p: Proof, read: Readers)
    requires stage != OwnedHeads && p.head == ""
    requires !Saw(events, Trouble(stage, ""), read) ==>
      stage == OwnedBranches && Saw(events, RefsAre(p.refs), read) && !RefsPresent(o, p.refs)
    ensures Justified(events, stage, o, p, read)
  {
  }

  method ProveSurveyed(r: Runner, o: Options, start: Proof, ghost base: seq<Event>, ghost events: seq<Event>)
    returns (refused: Option<Stage>, p: Proof, ghost checks: seq<Event>)
    requires Logged(r.log, base, events, r.read) && Queries(events)
    requires Established(events, o, start, r.read) && Surveyed(events, o, start, r.read)
    modifies r
    ensures Logged(r.log, base, checks, r.read) && Queries(checks)
    ensures refused.None? ==> Proven(checks, o, p, r.read)
    ensures refused.Some? ==> Justified(checks, refused.value, o, p, r.read)
  {
    refused, p, checks := ProveMerge(r, o, start, base, events);
    SurveyedOn(events, checks, o, start, p, r.read);
    if refused.Some? {
      MergeRefused(checks, refused.value, o, p, r.read);
      return;
    }
    EstablishedOn(events, checks, o, start, p, r.read);
  }

  // ----- The changes -----

  /** Issues a permitted command. */
  method Act(r: Runner, c: Command, o: Options, p: Proof, ghost base: seq<Event>, ghost acts: seq<Event>)
    returns (reply: Reply, ghost e: Event, ghost longer: seq<Event>)
    requires Logged(r.log, base, acts, r.read) && Disciplined(acts, o, p, r.read) && Permitted(acts, c, o, p, r.read)
    modifies r
    ensures Logged(r.log, base, longer, r.read) && Disciplined(longer, o, p, r.read)
    ensures longer == acts + [e] && e.command == c && e.reply == reply
  {
    reply, e := r.Execute(c);
    longer := acts + [e];
    assert r.log == base + longer;
    DisciplinedSnoc(acts, e, o, p, r.read);
  }

  /** The status of a half-removed tree: does it show an interrupted delete and nothing else? */
  method OnlyDeleted(r: Runner, path: string, o: Options, p: Proof, ghost base: seq<Event>, ghost acts: seq<Event>)
    returns (ok: bool, ghost longer: seq<Event>)
    requires Logged(r.log, base, acts, r.read) && Disciplined(acts, o, p, r.read)
    modifies r
    ensures Logged(r.log, base, longer, r.read) && Disciplined(longer, o, p, r.read)
    ensures |longer| == |acts| + 1 && acts <= longer && longer[|acts|].command == StatusNul(path)
    ensures ok == (longer[|acts|].reply.exitCode == 0 && OnlyDeletions(longer[|acts|].reply.stdout))
  {
    var status;
    ghost var e;
    status, e, longer := Act(r, StatusNul(path), o, p, base, acts);
    ok := false;
    if status.exitCode == 0 {
      ok := CheckDeletions(status.stdout);
    }
  }

  lemma ForcePermitted(acts: seq<Event>, longer: seq<Event>, path: string, o: Options, p: Proof, read: Readers)
    requires acts != [] && acts <= longer && |longer| == |acts| + 2 && path in p.owned
    requires acts[|acts| - 1].command == Remove(path, false) && acts[|acts| - 1].reply.exitCode != 0
    requires longer[|acts|].command == Exists(path) && longer[|acts|].reply.exitCode == 0
    requires longer[|acts| + 1].command == StatusNul(path) && longer[|acts| + 1].reply.exitCode == 0
    requires OnlyDeletions(longer[|acts| + 1].reply.stdout)
    ensures Permitted(longer, Remove(path, true), o, p, read)
  {
  }

  /** resumePartialWorktreeRemoval: after a failed removal, a forced one if the tree shows an
      interrupted delete and nothing else. */
  method ResumeRemoval(r: Runner, path: string, o: Options, p: Proof, ghost base: seq<Event>, ghost acts: seq<Event>)
    returns (resumed: bool, ghost longer: seq<Event>)
    requires Logged(r.log, base, acts, r.read) && Disciplined(acts, o, p, r.read) && path in p.owned
    requires acts != [] && acts[|acts| - 1].command == Remove(path, false) && acts[|acts| - 1].reply.exitCode != 0
    modifies r
    ensures Logged(r.log, base, longer, r.read) && Disciplined(longer, o, p, r.read) && acts <= longer
    ensures resumed ==> Saw(longer, Gone(path), r.read)
  {
    var there, forced, deletions;
    ghost var e;
    there, e, longer := Act(r, Exists(path), o, p, base, acts);
    if there.exitCode != 0 {
      SawThis(longer, e, Gone(path), r.read);
      return true, longer;
    }
    deletions, longer := OnlyDeleted(r, path, o, p, base, longer);
    if !deletions {
      return false, longer;
    }
    ForcePermitted(acts, longer, path, o, p, r.read);
    forced, e, longer := Act(r, Remove(path, true), o, p, base, longer);
    resumed := forced.exitCode == 0;
    if resumed {
      SawThis(longer, e, Gone(path), r.read);
    }
  }

  /** A removal was tried, and the worktree is gone. */
  predicate Settled(acts: seq<Event>, path: string, read: Readers) {
    Saw(acts, Tried(path), read) && Saw(acts, Gone(path), read)
  }

  predicate SettledUpTo(acts: seq<Event>, paths: seq<string>, n: nat, read: Readers)
    requires n <= |paths|
  {
    forall i :: 0 <= i < n ==> Settled(acts, paths[i], read)
  }

  lemma SettledOn(acts: seq<Event>, longer: seq<Event>, paths: seq<string>, n: nat, read: Readers)
    requires acts <= longer && n <= |paths| && SettledUpTo(acts, paths, n, read)
    ensures SettledUpTo(longer, paths, n, read)
  {
    SawOn(acts, longer, read);
  }

  /** The removal itself, resumed if it fails half-way. */
  method RemoveProven(r: Runner, path: string, o: Options, p: Proof, ghost base: seq<Event>, ghost acts: seq<Event>)
    returns (ok: bool, ghost longer: seq<Event>)
    requires Logged(r.log, base, acts, r.read) && Disciplined(acts, o, p, r.read)
    requires Permitted(acts, Remove(path, false), o, p, r.read)
    modifies r
    ensures Logged(r.log, base, longer, r.read) && Disciplined(longer, o, p, r.read) && acts <= longer
    ensures if ok then Settled(longer, path, r.read) else Saw(longer, Trouble(RemoveWorktree, p.head), r.read)
  {
    var removed;
    ghost var e;
    removed, e, longer := Act(r, Remove(path, false), o, p, base, acts);
    SawThis(longer, e, Tried(path), r.read);
    ok := removed.exitCode == 0;
    if ok {
      SawThis(longer, e, Gone(path), r.read);
    } else {
      SawThis(longer, e, Trouble(RemoveWorktree, p.head), r.read);
      ghost var tried := longer;
      ok, longer := ResumeRemoval(r, path, o, p, base, longer);
      SawOn(tried, longer, r.read);
    }
  }

  /** One owned worktree: its head is read again, and only then is it removed. */
  method RemoveOwned(r: Runner, path: string, o: Options, p: Proof, ghost base: seq<Event>, ghost acts: seq<Event>)
    returns (refused: Option<Stage>, ghost longer: seq<Event>)
    requires Logged(r.log, base, acts, r.read) && Disciplined(acts, o, p, r.read) && path in p.owned
    modifies r
    ensures Logged(r.log, base, longer, r.read) && Disciplined(longer, o, p, r.read) && acts <= longer
    ensures refused.None? ==> Settled(longer, path, r.read)
    ensures refused.Some? ==> Saw(longer, Trouble(refused.value, p.head), r.read)
  {
    var head, ok;
    ghost var e;
    head, e, longer := Act(r, RevParseHead(path), o, p, base, acts);
    if head.exitCode != 0 || Trimmed(head.stdout) != p.head {
      SawThis(longer, e, Trouble(OwnedHeads, p.head), r.read);
      return Some(OwnedHeads), longer;
    }
    ok, longer := RemoveProven(r, path, o, p, base, longer);
    refused := if ok then None else Some(RemoveWorktree);
  }

  method RemoveNext(r: Runner, i: nat, o: Options, p: Proof, ghost base: seq<Event>, ghost acts: seq<Event>)
    returns (refused: Option<Stage>, ghost longer: seq<Event>)
    requires Logged(r.log, base, acts, r.read) && Disciplined(acts, o, p, r.read)
    requires i < |p.owned| && SettledUpTo(acts, p.owned, i, r.read)
    modifies r
    ensures Logged(r.log, base, longer, r.read) && Disciplined(longer, o, p, r.read)
    ensures refused.None? ==> SettledUpTo(longer, p.owned, i + 1, r.read)
    ensures refused.Some? ==> Saw(longer, Trouble(refused.value, p.head), r.read)
  {
    refused, longer := RemoveOwned(r, p.owned[i], o, p, base, acts);
    SettledOn(acts, longer, p.owned, i, r.read);
  }

  method RemoveAll(r: Runner, o: Options, p: Proof, ghost base: seq<Event>)
    returns (refused: Option<Stage>, ghost acts: seq<Event>)
    requires r.log == base
    modifies r
    ensures Logged(r.log, base, acts, r.read) && Disciplined(acts, o, p, r.read)
    ensures refused.None? ==> SettledUpTo(acts, p.owned, |p.owned|, r.read)
    ensures refused.Some? ==> Saw(acts, Trouble(refused.value, p.head), r.read)
  {
    acts := [];
    for i := 0 to |p.owned|
      invariant Logged(r.log, base, acts, r.read) && Disciplined(acts, o, p, r.read)
      invariant SettledUpTo(acts, p.owned, i, r.read)
    {
      refused, acts := RemoveNext(r, i, o, p, base, acts);
      if refused.Some? {
        return;
      }
    }
    refused := None;
  }

  /** The rehearsal of the prune. */
  method RehearsePrune(r: Runner, o: Options, p: Proof, ghost base: seq<Event>, ghost acts: seq<Event>)
    returns (quiet: bool, ghost longer: seq<Event>)
    requires Logged(r.log, base, acts, r.read) && Disciplined(acts, o, p, r.read)
    modifies r
    ensures Logged(r.log, base, longer, r.read) && Disciplined(longer, o, p, r.read) && acts <= longer && longer != []
    ensures if quiet then Shows(longer[|longer| - 1], NothingToPrune, r.read)
      else Saw(longer, Trouble(PrunePrecondition, p.head), r.read)
  {
    quiet, longer := CheckPrunePrecondition(r, base, acts);
    assert longer == acts + [longer[|acts|]];
    DisciplinedSnoc(acts, longer[|acts|], o, p, r.read);
    if !quiet {
      TroubleAtAnyHead(longer, PrunePrecondition, p.head, r.read);
    }
  }

  method PruneAfterRemovals(r: Runner, o: Options, p: Proof, ghost base: seq<Event>, ghost acts: seq<Event>)
    returns (refused: Option<Stage>, ghost longer: seq<Event>)
    requires Logged(r.log, base, acts, r.read) && Disciplined(acts, o, p, r.read) && AllTried(acts, p.owned, r.read)
    modifies r
    ensures Logged(r.log, base, longer, r.read) && Disciplined(longer, o, p, r.read) && acts <= longer
    ensures refused.None? ==> Saw(longer, Pruned, r.read)
    ensures refused.Some? ==> Saw(longer, Trouble(refused.value, p.head), r.read)
  {
    var quiet, pruned;
    ghost var e;
    quiet, longer := RehearsePrune(r, o, p, base, acts);
    if !quiet {
      return Some(PrunePrecondition), longer;
    }
    SawOn(acts, longer, r.read);
    pruned, e, longer := Act(r, Prune, o, p, base, longer);
    if pruned.exitCode != 0 {
      SawThis(longer, e, Trouble(PruneWorktrees, p.head), r.read);
      return Some(PruneWorktrees), longer;
    }
    SawThis(longer, e, Pruned, r.read);
    refused := None;
  }

  predicate RefsGone(acts: seq<Event>, o: Options, p: Proof, n: nat, read: Readers)
    requires n <= |o.branches|
  {
    forall i :: 0 <= i < n ==> Saw(acts, RefGone(OwnedRefs(o)[i], p.head), read)
  }

  lemma OneMoreGone(acts: seq<Event>, longer: seq<Event>, o: Options, p: Proof, n: nat, read: Readers)
    requires acts <= longer && n < |o.branches| && RefsGone(acts, o, p, n, read) && Saw(acts, Pruned, read)
    requires Saw(longer, RefGone(OwnedRefs(o)[n], p.head), read)
    ensures RefsGone(longer, o, p, n + 1, read) && Saw(longer, Pruned, read)
  {
    SawOn(acts, longer, read);
  }

  /** Deletes a ref, provided that it is still at the proven head. */
  method DeleteOwnedRef(r: Runner, i: nat, o: Options, p: Proof, ghost base: seq<Event>, ghost acts: seq<Event>)
    returns (ok: bool, ghost longer: seq<Event>)
    requires Logged(r.log, base, acts, r.read) && Disciplined(acts, o, p, r.read) && Saw(acts, Pruned, r.read)
    requires i < |o.branches|
    modifies r
    ensures Logged(r.log, base, longer, r.read) && Disciplined(longer, o, p, r.read) && acts <= longer
    ensures if ok then Saw(longer, RefGone(OwnedRefs(o)[i], p.head), r.read)
      else Saw(longer, Trouble(DeleteBranch, p.head), r.read)
  {
    var ref := OwnedRefs(o)[i];
    var deleted;
    ghost var e;
    deleted, e, longer := Act(r, DeleteRef(ref, p.head), o, p, base, acts);
    ok := deleted.exitCode == 0;
    SawThis(longer, e, if ok then RefGone(ref, p.head) else Trouble(DeleteBranch, p.head), r.read);
  }

  method DeleteOwnedRefs(r: Runner, o: Options, p: Proof, ghost base: seq<Event>, ghost acts: seq<Event>)
    returns (refused: Option<Stage>, ghost longer: seq<Event>)
    requires Logged(r.log, base, acts, r.read) && Disciplined(acts, o, p, r.read) && Saw(acts, Pruned, r.read)
    modifies r
    ensures Logged(r.log, base, longer, r.read) && Disciplined(longer, o, p, r.read) && acts <= longer
    ensures refused.None? ==> RefsGone(longer, o, p, |o.branches|, r.read)
    ensures refused.Some? ==> Saw(longer, Trouble(refused.value, p.head), r.read)
  {
    longer := acts;
    for i := 0 to |o.branches|
      invariant Logged(r.log, base, longer, r.read) && Disciplined(longer, o, p, r.read) && acts <= longer
      invariant Saw(longer, Pruned, r.read) && RefsGone(longer, o, p, i, r.read)
    {
      ghost var earlier := longer;
      var ok;
      ok, longer := DeleteOwnedRef(r, i, o, p, base, longer);
      if !ok {
        return Some(DeleteBranch), longer;
      }
      OneMoreGone(earlier, longer, o, p, i, r.read);
    }
    refused := None;
  }

  /** All that the changes set out to do was done. */
  predicate CleanedUp(acts: seq<Event>, o: Options, p: Proof, read: Readers) {
    && SettledUpTo(acts, p.owned, |p.owned|, read)
    && Saw(acts, Pruned, read) && RefsGone(acts, o, p, |o.branches|, read)
  }

  method CleanUp(r: Runner, o: Options, p: Proof, ghost base: seq<Event>)
    returns (refused: Option<Stage>, ghost acts: seq<Event>)
    requires r.log == base
    modifies r
    ensures Logged(r.log, base, acts, r.read) && Disciplined(acts, o, p, r.read)
    ensures refused.None? ==> CleanedUp(acts, o, p, r.read)
    ensures refused.Some? ==> Saw(acts, Trouble(refused.value, p.head), r.read)
  {
    refused, acts := RemoveAll(r, o, p, base);
    if refused.Some? {
      return;
    }
    ghost var removed := acts;
    refused, acts := PruneAfterRemovals(r, o, p, base, acts);
    if refused.Some? {
      return;
    }
    ghost var pruned := acts;
    refused, acts := DeleteOwnedRefs(r, o, p, base, acts);
    SettledOn(removed, acts, p.owned, |p.owned|, r.read);
    SawOn(pruned, acts, r.read);
  }

  // ----- The postconditions -----

  /** What the last snapshots must say: nothing owned is left, and nothing else changed. */
  predicate Confirmed(finals: seq<Event>, o: Options, p: Proof, worktrees: seq<Worktree>, refs: Refs, read: Readers) {
    && Saw(finals, Inventory(worktrees), read) && Saw(finals, RefsAre(refs), read)
    && Texts(ByPath(worktrees)) == Texts(ByPath(p.checkout.inventory)) - (set path | path in p.owned)
    && refs == p.refs - (set ref | ref in OwnedRefs(o))
    && forall i :: 0 <= i < |o.branches| ==> Saw(finals, NoBranch(o.branches[i]), read)
  }

  predicate Unconfirmed(finals: seq<Event>, stage: Stage, o: Options, p: Proof, worktrees: seq<Worktree>,
                        refs: Refs, read: Readers) {
    match stage
    case PostconditionWorktrees =>
      Saw(finals, Inventory(worktrees), read) && !InventoryMatches(p.checkout.inventory, worktrees, p.owned)
    case PostconditionBranches => Saw(finals, RefsAre(refs), read) && !RefsMatch(p.refs, refs, OwnedRefs(o))
    case _ => false
  }

  method ListFinalWorktrees(r: Runner, p: Proof, ghost base: seq<Event>)
    returns (worktrees: Option<seq<Worktree>>, ghost finals: seq<Event>)
    requires r.log == base
    modifies r
    ensures Logged(r.log, base, finals, r.read) && Queries(finals)
    ensures if worktrees.Some? then Saw(finals, Inventory(worktrees.value), r.read)
      else Saw(finals, Trouble(PostconditionWorktrees, p.head), r.read)
  {
    var reply;
    ghost var e;
    reply, e, finals := Look(r, ListWorktrees, base, []);
    worktrees := if reply.exitCode != 0 then None else Inventoried(reply.stdout, r.read);
  }

  /** git branch --list for every owned branch: a failure stops the loop, output is collected. */
  method LookForBranches(r: Runner, o: Options, ghost base: seq<Event>, ghost events: seq<Event>)
    returns (ok: bool, ghost longer: seq<Event>)
    requires Logged(r.log, base, events, r.read) && Queries(events)
    modifies r
    ensures Logged(r.log, base, longer, r.read) && Queries(longer) && events <= longer
    ensures ok ==> forall i :: 0 <= i < |o.branches| ==> Saw(longer, NoBranch(o.branches[i]), r.read)
    ensures !ok ==> Saw(longer, Trouble(PostconditionBranches, ""), r.read)
  {
    longer := events;
    var remaining: seq<string> := [];
    for i := 0 to |o.branches|
      invariant Logged(r.log, base, longer, r.read) && Queries(longer) && events <= longer
      invariant remaining == [] ==> forall j :: 0 <= j < i ==> Saw(longer, NoBranch(o.branches[j]), r.read)
      invariant remaining != [] ==> Saw(longer, Trouble(PostconditionBranches, ""), r.read)
    {
      var listed;
      ghost var e;
      listed, e, longer := Look(r, ListBranch(o.branches[i]), base, longer);
      if listed.exitCode != 0 {
        return false, longer;
      }
      if Trimmed(listed.stdout) != "" {
        remaining := remaining + [o.branches[i]];
      }
    }
    ok := remaining == [];
  }

  /** The refs as they are at the end, the owned branches looked for one by one, the four filters. */
  method ConfirmRefs(r: Runner, o: Options, p: Proof, ghost base: seq<Event>, ghost events: seq<Event>)
    returns (ok: bool, refs: Refs, ghost longer: seq<Event>)
    requires Logged(r.log, base, events, r.read) && Queries(events)
    modifies r
    ensures Logged(r.log, base, longer, r.read) && Queries(longer) && events <= longer
    ensures ok ==> Saw(longer, RefsAre(refs), r.read) && refs == p.refs - (set ref | ref in OwnedRefs(o))
    ensures ok ==> forall i :: 0 <= i < |o.branches| ==> Saw(longer, NoBranch(o.branches[i]), r.read)
    ensures !ok && !Saw(longer, Trouble(PostconditionBranches, p.head), r.read) ==>
      Saw(longer, RefsAre(refs), r.read) && !RefsMatch(p.refs, refs, OwnedRefs(o))
  {
    refs := map[];
    var snapshot, none;
    snapshot, longer := SnapshotRefs(r, PostconditionBranches, base, events);
    if snapshot.None? {
      TroubleAtAnyHead(longer, PostconditionBranches, p.head, r.read);
      return false, refs, longer;
    }
    refs := snapshot.value;
    ghost var seen := longer;
    none, longer := LookForBranches(r, o, base, longer);
    SawOn(seen, longer, r.read);
    if !none {
      TroubleAtAnyHead(longer, PostconditionBranches, p.head, r.read);
    }
    ok := none && RefsMatch(p.refs, refs, OwnedRefs(o));
    RefsExactly(p.refs, refs, OwnedRefs(o));
  }

  method ConfirmWorktrees(r: Runner, o: Options, p: Proof, ghost base: seq<Event>)
    returns (ok: bool, worktrees: seq<Worktree>, ghost finals: seq<Event>)
    requires r.log == base
    modifies r
    ensures Logged(r.log, base, finals, r.read) && Queries(finals)
    ensures ok ==> Saw(finals, Inventory(worktrees), r.read)
    ensures ok ==> Texts(ByPath(worktrees)) == Texts(ByPath(p.checkout.inventory)) - (set path | path in p.owned)
    ensures !ok && !Saw(finals, Trouble(PostconditionWorktrees, p.head), r.read) ==>
      Saw(finals, Inventory(worktrees), r.read) && !InventoryMatches(p.checkout.inventory, worktrees, p.owned)
  {
    var listed;
    listed, finals := ListFinalWorktrees(r, p, base);
    if listed.None? {
      return false, [], finals;
    }
    worktrees := listed.value;
    InventoryExactly(p.checkout.inventory, worktrees, p.owned);
    ok := InventoryMatches(p.checkout.inventory, worktrees, p.owned);
  }

  method Confirm(r: Runner, o: Options, p: Proof, ghost base: seq<Event>)
    returns (refused: Option<Stage>, worktrees: seq<Worktree>, refs: Refs, ghost finals: seq<Event>)
    requires r.log == base
    modifies r
    ensures Logged(r.log, base, finals, r.read) && Queries(finals)
    ensures refused.None? ==> Confirmed(finals, o, p, worktrees, refs, r.read)
    ensures refused.Some? ==>
      Saw(finals, Trouble(refused.value, p.head), r.read) || Unconfirmed(finals, refused.value, o, p, worktrees, refs, r.read)
  {
    refs := map[];
    var ok;
    ok, worktrees, finals := ConfirmWorktrees(r, o, p, base);
    if !ok {
      return Some(PostconditionWorktrees), worktrees, refs, finals;
    }
    ghost var seen := finals;
    ok, refs, finals := ConfirmRefs(r, o, p, base, finals);
    SawOn(seen, finals, r.read);
    refused := if ok then None else Some(PostconditionBranches);
  }

  // ----- The whole run -----

  datatype Outcome =
    | Failed(stage: Stage)
    | Completed(head: string, worktrees: seq<string>, branches: seq<string>, verifyOnly: bool)

  /** The three phases of a run, in order; the changes only if every check passed. */
  datatype Phases = Phases(checks: seq<Event>, acts: seq<Event>, finals: seq<Event>)

  ghost predicate Phased(log: seq<Event>, base: seq<Event>, t: Phases, o: Options, p: Proof, read: Readers) {
    && log == base + t.checks + t.acts + t.finals
    && Faithful(t.checks, read) && Faithful(t.acts, read) && Faithful(t.finals, read)
    && Queries(t.checks) && Queries(t.finals) && Disciplined(t.acts, o, p, read)
    && (o.verifyOnly ==> t.acts == [])
  }

  ghost predicate Ran(log: seq<Event>, base: seq<Event>, t: Phases, o: Options, p: Proof, read: Readers) {
    Phased(log, base, t, o, p, read) && (t.acts + t.finals != [] ==> Proven(t.checks, o, p, read))
  }

  predicate Stopped(t: Phases, stage: Stage, o: Options, p: Proof, worktrees: seq<Worktree>, refs: Refs,
                    read: Readers) {
    || Saw(t.acts, Trouble(stage, p.head), read) || Saw(t.finals, Trouble(stage, p.head), read)
    || Unconfirmed(t.finals, stage, o, p, worktrees, refs, read)
  }

  /** The changes, unless only verifying. */
  method Change(r: Runner, o: Options, p: Proof, ghost base: seq<Event>)
    returns (refused: Option<Stage>, ghost acts: seq<Event>)
    requires r.log == base
    modifies r
    ensures Logged(r.log, base, acts, r.read) && Disciplined(acts, o, p, r.read)
    ensures o.verifyOnly ==> acts == [] && refused.None?
    ensures refused.None? ==> o.verifyOnly || CleanedUp(acts, o, p, r.read)
    ensures refused.Some? ==> Saw(acts, Trouble(refused.value, p.head), r.read)
  {
    if o.verifyOnly {
      return None, [];
    }
    refused, acts := CleanUp(r, o, p, base);
  }

  /** After the checks: the changes, unless only verifying, and the postconditions. */
  method ChangeAndConfirm(r: Runner, o: Options, p: Proof, ghost base: seq<Event>, ghost checks: seq<Event>)
    returns (refused: Option<Stage>, ghost t: Phases, ghost worktrees: seq<Worktree>, ghost refs: Refs)
    requires Logged(r.log, base, checks, r.read) && Queries(checks)
    modifies r
    ensures Phased(r.log, base, t, o, p, r.read) && t.checks == checks
    ensures refused.None? || t.finals != [] ==> o.verifyOnly || CleanedUp(t.acts, o, p, r.read)
    ensures refused.None? ==> Confirmed(t.finals, o, p, worktrees, refs, r.read)
    ensures refused.Some? ==> Stopped(t, refused.value, o, p, worktrees, refs, r.read)
  {
    ghost var acts;
    refused, acts := Change(r, o, p, base + checks);
    t, worktrees, refs := Phases(checks, acts, []), [], map[];
    if refused.Some? {
      return;
    }
    ghost var finals;
    var finalWorktrees, finalRefs;
    refused, finalWorktrees, finalRefs, finals := Confirm(r, o, p, base + checks + acts);
    t, worktrees, refs := Phases(checks, acts, finals), finalWorktrees, finalRefs;
  }

  /** A run as it ends, and why: a failure has its cause at its stage, and the last snapshots are taken
      only when all changes are done. */
  ghost predicate Explained(outcome: Outcome, log: seq<Event>, base: seq<Event>, t: Phases, o: Options, p: Proof,
                            worktrees: seq<Worktree>, refs: Refs, read: Readers) {
    && Ran(log, base, t, o, p, read)
    && (t.finals != [] ==> o.verifyOnly || CleanedUp(t.acts, o, p, read))
    && (outcome.Failed? ==>
          Justified(t.checks, outcome.stage, o, p, read) || Stopped(t, outcome.stage, o, p, worktrees, refs, read))
  }

  /** completePullRequest.  In every run, with any replies and whatever others do: only queries come
      before all the checks have passed; what follows is disciplined; success means the last
      snapshots are the first ones less what was owned; and failure has a cause at its stage. */
  method CompletePullRequest(r: Runner, o: Options)
    returns (outcome: Outcome, ghost t: Phases, ghost p: Proof, ghost worktrees: seq<Worktree>, ghost refs: Refs)
    modifies r
    ensures Explained(outcome, r.log, old(r.log), t, o, p, worktrees, refs, r.read)
    ensures outcome.Completed? ==>
      && outcome == Completed(p.head, p.owned, o.branches, o.verifyOnly) && Proven(t.checks, o, p, r.read)
      && (o.verifyOnly || CleanedUp(t.acts, o, p, r.read)) && Confirmed(t.finals, o, p, worktrees, refs, r.read)
  {
    t, worktrees, refs := Phases([], [], []), [], map[];
    p := Proof(Checkout("", "", "", "", []), [], map[], [], View(None, None, Neither, None, None), "");
    if !ValidOptions(o) {
      return Failed(Input), t, p, worktrees, refs;
    }
    ghost var base := r.log;
    var refused, proof;
    ghost var checks;
    refused, proof, checks := Check(r, o, base);
    p, t := proof, Phases(checks, [], []);
    if refused.Some? {
      return Failed(refused.value), t, p, worktrees, refs;
    }
    refused, t, worktrees, refs := ChangeAndConfirm(r, o, proof, base, checks);
    if refused.Some? {
      return Failed(refused.value), t, p, worktrees, refs;
    }
    outcome := Completed(proof.head, proof.owned, o.branches, o.verifyOnly);
  }

  predicate OneLinePaths(worktrees: seq<Record>) {
    forall i :: 0 <= i < |worktrees| ==> '\n' !in worktrees[i].listed
  }

  /** The worktrees as they are read. */
  function WorktreesOf(repo: Repo, read: Readers): seq<Worktree> {
    AllAsRead(repo.worktrees, read.resolve)
  }

  /** What a listing showed was so when it ran: the first and the last snapshot are the repository's
      own branches and worktrees at two moments of the run, the worktrees if no path held a newline. */
  lemma CleanupIsExact(log: seq<Event>, base: seq<Event>, t: Phases, o: Options, p: Proof,
                       worktrees: seq<Worktree>, refs: Refs, read: Readers)
    requires Ran(log, base, t, o, p, read) && Proven(t.checks, o, p, read)
    requires Confirmed(t.finals, o, p, worktrees, refs, read)
    ensures exists e, f ::
      && e in t.checks && f in t.finals && e.command == f.command == ListRefs
      && Heads(f.before.refs) == Heads(e.before.refs) - (set ref | ref in OwnedRefs(o))
    ensures exists e, f ::
      && e in t.checks && f in t.finals && e.command == f.command == ListWorktrees
      && (OneLinePaths(e.before.worktrees) && OneLinePaths(f.before.worktrees) ==>
            Texts(ByPath(WorktreesOf(f.before, read)))
            == Texts(ByPath(WorktreesOf(e.before, read))) - (set path | path in p.owned))
  {
    var e := RefsWereReal(t.checks, p.refs, read);
    var f := RefsWereReal(t.finals, refs, read);
    SawThis(t.checks, t.checks[7], Inventory(p.checkout.inventory), read);
    var g := WorktreesWereReal(t.checks, p.checkout.inventory, read);
    var h := WorktreesWereReal(t.finals, worktrees, read);
  }

  lemma RefsWereReal(events: seq<Event>, refs: Refs, read: Readers) returns (e: Event)
    requires Faithful(events, read) && Saw(events, RefsAre(refs), read)
    ensures e in events && e.command == ListRefs && Heads(e.before.refs) == refs
  {
    e :| e in events && Shows(e, RefsAre(refs), read);
    assert Effect(e, read);
    ShownIsRead(e.reply.stdout, Heads(e.before.refs));
  }

  lemma ShownIsRead(stdout: string, refs: Refs)
    requires Shown(stdout, refs)
    ensures LocalRefs(stdout) == Some(refs)
  {
    var listing :| Lists(listing, refs) && stdout == Printed(listing);
    ParsePrinted(listing, refs);
  }

  lemma WorktreesWereReal(events: seq<Event>, worktrees: seq<Worktree>, read: Readers) returns (e: Event)
    requires Faithful(events, read) && Saw(events, Inventory(worktrees), read)
    ensures e in events && e.command == ListWorktrees
    ensures OneLinePaths(e.before.worktrees) ==> WorktreesOf(e.before, read) == worktrees
  {
    e :| e in events && Shows(e, Inventory(worktrees), read);
    assert Effect(e, read);
    if OneLinePaths(e.before.worktrees) {
      Reads(e.before.worktrees, read.resolve);
    }
  }
}
