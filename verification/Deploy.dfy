/** packaging/scripts/deploy.sh: publishing a release and swapping the current link to it. */
module Deploy {
  import opened Decimal
  import opened DeployDisk

  datatype Command =
    | Verify | MakeReleases | MakeStaging | Copying | Copy | Find | Chmod | Publish
    | LinkNext | Rename | RemoveCurrent | Restart | Curl(body: string) | Sleep | Tell | RemoveNext | RemoveStaging

  /** A command, whether it succeeded, and the disk it left. */
  datatype Event = Event(command: Command, ok: bool, disk: Disk)

  /** How the machine answers: whether the n-th command of a run succeeds if it can, what the service
      reports then, whether grep gets to see it, how far cp comes, and the name mktemp makes up. */
  datatype World = World(
    ok: (nat, Command) -> bool, body: nat -> string, heard: nat -> bool, partial: Dir, suffix: string)

  predicate Contains(s: string, part: string) {
    exists i :: 0 <= i <= |s| - |part| && s[i..][..|part|] == part
  }

  predicate AllSafe(start: Disk, events: seq<Event>, o: Options) {
    forall i :: 0 <= i < |events| ==> Safe(start, events[i].disk, o)
  }

  /** A command that undoes the swap failed. */
  predicate UndoFailed(events: seq<Event>) {
    exists i :: 0 <= i < |events| && !events[i].ok && Undoes(events[i].command)
  }

  predicate Undoes(c: Command) {
    c == LinkNext || c == Rename || c == RemoveCurrent
  }

  lemma UndoFailedSnoc(events: seq<Event>, e: Event)
    ensures UndoFailed(events + [e]) <==> UndoFailed(events) || (!e.ok && Undoes(e.command))
  {
    var longer := events + [e];
    if UndoFailed(events) {
      var i :| 0 <= i < |events| && !events[i].ok && Undoes(events[i].command);
      assert longer[i] == events[i];
    }
    if !e.ok && Undoes(e.command) {
      assert longer[|events|] == e;
    }
  }

  predicate SomethingFailed(events: seq<Event>) {
    exists i :: 0 <= i < |events| && !events[i].ok
  }

  lemma FailedSnoc(events: seq<Event>, e: Event)
    ensures SomethingFailed(events + [e]) <==> SomethingFailed(events) || !e.ok
  {
    var longer := events + [e];
    if SomethingFailed(events) {
      var i :| 0 <= i < |events| && !events[i].ok;
      assert longer[i] == events[i];
    }
    if !e.ok {
      assert longer[|events|] == e;
    }
  }

  predicate CommandFailed(events: seq<Event>, c: Command) {
    exists i :: 0 <= i < |events| && !events[i].ok && events[i].command == c
  }

  lemma CommandFailedOn(events: seq<Event>, longer: seq<Event>, c: Command)
    requires events <= longer && CommandFailed(events, c)
    ensures CommandFailed(longer, c)
  {
    var i :| 0 <= i < |events| && !events[i].ok && events[i].command == c;
    assert longer[i] == events[i];
  }

  // ----- Machines on which things go well, and machines on which a rollback is lost -----

  function StagingName(o: Options, w: World): (name: string)
    ensures name != o.revision && name != ""
  {
    "." + o.revision + "." + w.suffix
  }

  /** Every command but the restart succeeds if it can, and mktemp finds a free name. */
  ghost predicate Smooth(w: World, start: Disk, o: Options) {
    StagingName(o, w) !in start.releases && Obeys(w)
  }

  ghost predicate Obeys(w: World) {
    forall n, c :: c != Restart ==> w.ok(n, c)
  }

  ghost predicate Restarts(w: World) {
    forall n :: w.ok(n, Restart)
  }

  ghost predicate Reports(w: World, o: Options) {
    forall n :: w.heard(n) && Contains(w.body(n), o.revision)
  }

  /** With a stderr that takes nothing the restart fails; else it succeeds, and the service reports
      the revision just when stdout takes nothing. */
  ghost predicate Spoils(w: World, o: Options) {
    if !o.errWritable then forall n :: !w.ok(n, Restart)
    else Restarts(w) && if o.outWritable then forall n :: !w.heard(n) else Reports(w, o)
  }

  ghost function Longest(names: set<string>): (n: nat)
    ensures forall s :: s in names ==> |s| <= n
  {
    if names == {} then 0
    else
      var s :| s in names;
      var n := Longest(names - {s});
      if |s| > n then |s| else n
  }

  /** There are such machines, whatever the disk. */
  lemma WorldsExist(start: Disk, o: Options) returns (fine: World, spoiling: World)
    ensures Smooth(fine, start, o) && Restarts(fine) && Reports(fine, o)
    ensures Smooth(spoiling, start, o) && Spoils(spoiling, o)
  {
    var suffix := seq(Longest(start.releases.Keys) + 1, _ => 'x');
    var body := (n: nat) => o.revision;
    fine := World((n, c) => true, body, n => true, o.artifact, suffix);
    spoiling := World((n, c) => c != Restart || o.errWritable, body, n => !o.outWritable, o.artifact, suffix);
    assert o.revision[0..][..|o.revision|] == o.revision;
    assert forall n :: Contains(body(n), o.revision);
    assert |StagingName(o, fine)| > |suffix|;
  }

  // ----- The script -----

  datatype Verdict = Healthy | Unhealthy | Ended

  /** One run of the script: the disk it works on, its variables, and what it has done. */
  class Deployment {
    const o: Options
    const world: World
    var disk: Disk
    var previous: string
    var staging: string
    var nextLink: bool
    var events: seq<Event>

    constructor (o: Options, world: World, disk: Disk)
      ensures this.o == o && this.world == world && this.disk == disk
      ensures events == [] && previous == "" && staging == "" && !nextLink
    {
      this.o, this.world, this.disk, events := o, world, disk, [];
      previous, staging, nextLink := "", "", false;
    }

    /** Verification comes first: nothing else runs unless it succeeded. */
    ghost predicate VerifiedFirst()
      reads this
    {
      events != [] ==> events[0].command == Verify && (|events| > 1 ==> events[0].ok)
    }

    ghost predicate Verified()
      reads this
    {
      events != [] && events[0].command == Verify && events[0].ok
    }

    /** What every step keeps: the promise made to those who rely on the disk as it was, if any. */
    ghost predicate Sound(kept: Option<Disk>)
      reads this
    {
      && VerifiedFirst()
      && (kept.Some? ==> AllSafe(kept.value, events, o) && Safe(kept.value, disk, o) && StagingIsNew(kept.value))
    }

    ghost predicate StagingIsNew(start: Disk)
      reads this
    {
      staging != "" ==> staging !in start.releases && staging != o.revision
    }

    ghost predicate Keeps(kept: Option<Disk>, after: Disk) {
      kept.Some? ==> Safe(kept.value, after, o)
    }

    /** A command that leaves the disk as `after` when it succeeds, and untouched when it fails. */
    method Record(c: Command, ok: bool, after: Disk, ghost kept: Option<Disk>)
      requires Sound(kept) && (ok ==> Keeps(kept, after))
      requires if events == [] then c == Verify else events[0].ok
      modifies this`disk, this`events
      ensures Sound(kept) && disk == if ok then after else old(disk)
      ensures events == old(events) + [Event(c, ok, disk)] && events[0].command == Verify
      ensures UndoFailed(events) <==> UndoFailed(old(events)) || (!ok && Undoes(c))
      ensures SomethingFailed(events) <==> SomethingFailed(old(events)) || !ok
    {
      if ok {
        disk := after;
      }
      events := events + [Event(c, ok, disk)];
      UndoFailedSnoc(old(events), Event(c, ok, disk));
      FailedSnoc(old(events), Event(c, ok, disk));
    }

    /** The machine decides whether a command that can succeed does. */
    method Do(c: Command, possible: bool, after: Disk, ghost kept: Option<Disk>) returns (ok: bool)
      requires Sound(kept) && (possible ==> Keeps(kept, after))
      requires if events == [] then c == Verify else events[0].ok
      modifies this`disk, this`events
      ensures ok <==> possible && world.ok(|old(events)|, c)
      ensures Sound(kept) && disk == if ok then after else old(disk)
      ensures events == old(events) + [Event(c, ok, disk)] && events[0].command == Verify
      ensures UndoFailed(events) <==> UndoFailed(old(events)) || (!ok && Undoes(c))
      ensures SomethingFailed(events) <==> SomethingFailed(old(events)) || !ok
    {
      ok := possible && world.ok(|events|, c);
      Record(c, ok, after, kept);
    }

    /** mktemp and cp.  The copy can stop anywhere, and so can the machine while it runs. */
    method Stage(start: Disk) returns (ok: bool)
      requires Sound(Some(start)) && disk == start && staging == "" && Verified() && !UndoFailed(events)
      modifies this`disk, this`events, this`staging
      ensures Sound(Some(start)) && Verified() && !UndoFailed(events)
      ensures disk == start || (staging in disk.releases && disk == Staged(start, staging, disk.releases[staging]))
      ensures ok ==> staging in disk.releases && disk.releases[staging] == o.artifact && staging != ""
      ensures !ok ==> SomethingFailed(events)
      ensures Smooth(world, start, o) ==> ok
    {
      var directory := StagingName(o, world);
      if directory !in start.releases {
        StagedIsSafe(start, directory, Dir(map[], MODE_0700), o);
      }
      ok := Do(MakeStaging, directory !in disk.releases,
               Staged(disk, directory, Dir(map[], MODE_0700)), Some(start));
      if !ok {
        return;
      }
      staging := directory;
      StagedIsSafe(start, directory, world.partial, o);
      var begun := Do(Copying, true, Staged(start, directory, world.partial), Some(start));
      StagedIsSafe(start, directory, o.artifact, o);
      ok := Do(Copy, begun, Staged(start, directory, o.artifact), Some(start));
    }

    /** The guards and the verification, before anything is changed; 0 when the script may go on. */
    method Guard(ghost start: Disk) returns (status: int)
      requires disk == start && events == [] && staging == "" && !nextLink && previous == ""
      requires start.current.Link? ==> start.current.target != ""
      modifies this`disk, this`events, this`previous
      ensures Sound(Some(start)) && disk == start && !UndoFailed(events)
      ensures status == 0 ==> Verified()
      ensures status == 0 ==> (Refused(start, o) <==> Unsafe(o.artifact))
      ensures status == 0 ==> start.current == if previous == "" then Absent else Link(previous)
      ensures status != 0 ==> Refused(start, o) || SomethingFailed(events)
      ensures Smooth(world, start, o) && !Refused(start, o) ==> status == 0
    {
      if !SafeRevision(o.revision) || !o.executable {
        return if o.errWritable then 2 else 1;
      }
      var ok := Do(Verify, true, disk, Some(start));
      if !ok {
        return 1;
      }
      ok := Do(MakeReleases, true, disk, Some(start));
      if !ok {
        return 1;
      }
      if ReleaseExists(disk, o.revision) || disk.current.File? || disk.current.Directory? {
        return if o.errWritable then 2 else 1;
      }
      if disk.current.Link? {
        previous := disk.current.target;
      }
      status := 0;
    }

    /** Copies the artifact aside, refuses writable payloads, opens the copy, and renames it into place. */
    method Publish(start: Disk) returns (status: int)
      requires Sound(Some(start)) && disk == start && staging == ""
      requires Verified() && !UndoFailed(events)
      requires Refused(start, o) <==> Unsafe(o.artifact)
      modifies this`disk, this`events, this`staging
      ensures Sound(Some(start)) && Verified() && !UndoFailed(events)
      ensures status == 0 ==> staging == "" && disk == Prepared(start, o) && !Refused(start, o)
      ensures status != 0 ==> Safe(start, disk, o) && disk.current == start.current && disk.next == start.next
      ensures status != 0 ==> Unsafe(o.artifact) || SomethingFailed(events)
      ensures Smooth(world, start, o) && !Unsafe(o.artifact) ==> status == 0
    {
      var ok := Stage(start);
      if !ok {
        return 1;
      }
      ok := Do(Find, true, disk, Some(start));
      if !ok {
        return 1;
      }
      if Unsafe(disk.releases[staging]) {
        return if o.errWritable then 2 else 1;
      }
      var tree := disk.releases[staging].(mode := MODE_0755);
      StagedIsSafe(start, staging, tree, o);
      ok := Do(Chmod, true, Staged(start, staging, tree), Some(start));
      if !ok {
        return 1;
      }
      StagedThenRenamed(start, staging, tree, o);
      PreparedIsSafe(start, o);
      ok := Do(Command.Publish, true, disk.(releases := (disk.releases - {staging})[o.revision := tree]), Some(start));
      if !ok {
        return 1;
      }
      staging := "";
      status := 0;
    }

    /** The swap can be taken through without breaking the promise. */
    ghost predicate SwapKeeps(kept: Option<Disk>, target: string)
      reads this
    {
      var linked := Linked(disk, target, o);
      linked.Some? ==>
        Keeps(kept, linked.value) && (Renamed(linked.value).Some? ==> Keeps(kept, Renamed(linked.value).value))
    }

    /** swap_current.  Under errexit the first failing command ends the script; inside `rollback || true`
        errexit is off and every command runs. */
    method SwapCurrent(target: string, errexit: bool, ghost kept: Option<Disk>) returns (ok: bool)
      requires Sound(kept) && Verified() && SwapKeeps(kept, target) && (errexit || disk.next.Absent?)
      modifies this`disk, this`events, this`nextLink
      ensures Sound(kept) && Verified() && old(events) < events && events[|events| - 1].disk == disk
      ensures var linked := Linked(old(disk), target, o);
        if ok then linked.Some? && Renamed(linked.value) == Some(disk)
        else UndoFailed(events) && (disk == old(disk) || linked == Some(disk))
      ensures UndoFailed(old(events)) ==> UndoFailed(events)
      ensures ok && errexit ==> (UndoFailed(events) <==> UndoFailed(old(events)))
      ensures nextLink <==> errexit && !ok
      ensures ok || !errexit ==> |events| == |old(events)| + 2 && events[|old(events)|].command == LinkNext
      ensures SomethingFailed(old(events)) || !ok ==> SomethingFailed(events)
      ensures var linked := Linked(old(disk), target, o);
        Obeys(world) && linked.Some? && Renamed(linked.value).Some? ==> ok
    {
      nextLink := true;
      var linked := Linked(disk, target, o);
      ok := Do(LinkNext, linked.Some?, OrSame(linked, disk), kept);
      if !ok && errexit {
        return;
      }
      var renamed := Renamed(disk);
      ok := Do(Rename, renamed.Some?, OrSame(renamed, disk), kept);
      if !ok && errexit {
        return;
      }
      nextLink := false;
    }

    /** Where `previous` says the link led. */
    function Before(): Node
      reads this
    {
      if previous == "" then Absent else Link(previous)
    }

    /** rollback, with errexit off: back to the previous target, or to none. */
    method Rollback(ghost kept: Option<Disk>)
      requires Sound(kept) && Verified() && disk.next.Absent?
      requires kept.Some? ==> kept.value.current == Before()
      modifies this`disk, this`events, this`nextLink
      ensures Sound(kept) && Verified() && old(events) <= events
      ensures disk.releases == old(disk).releases
      ensures disk.current != Before() ==> UndoFailed(events) && disk.current == old(disk).current
      ensures !disk.next.Absent? ==> UndoFailed(events)
      ensures |old(events)| < |events| && events[|events| - 1].command == Restart
      ensures SomethingFailed(old(events)) ==> SomethingFailed(events)
    {
      if previous != "" {
        var swapped := SwapCurrent(previous, false, kept);
      } else {
        var removed := Do(RemoveCurrent, !disk.current.Directory?, disk.(current := Absent), kept);
      }
      var restarted := Do(Restart, true, disk, kept);
    }

    /** The health loop.  Finding the revision takes a body that contains it; the pipeline can fail
        on such a body too, when grep stops reading early.  A `sleep` that fails ends the script. */
    method AwaitHealth(ghost kept: Option<Disk>) returns (verdict: Verdict, body: string)
      requires Sound(kept) && Verified()
      modifies this`disk, this`events
      ensures Sound(kept) && Verified() && old(events) <= events && disk == old(disk)
      ensures UndoFailed(events) <==> UndoFailed(old(events))
      ensures verdict.Healthy? ==> Looks(o) >= 1 && Contains(body, o.revision) && events[|events| - 1] == Event(Curl(body), true, disk)
      ensures verdict.Ended? ==> Looks(o) >= 1 && SleepsAfter(o, 1) && !o.intervalAccepted
      ensures Reports(world, o) && Looks(o) >= 1 ==> verdict.Healthy?
      ensures (forall n :: !world.heard(n)) && Looks(o) >= 1 && SleepsAfter(o, 1) && !o.intervalAccepted ==> verdict.Ended?
      ensures !verdict.Healthy? ==> Looks(o) <= 0 || SomethingFailed(events)
    {
      body := "";
      var attempt := 1;
      while attempt <= Looks(o)
        invariant Sound(kept) && Verified() && old(events) <= events && disk == old(disk)
        invariant UndoFailed(events) <==> UndoFailed(old(events))
        invariant 1 <= attempt
        invariant attempt > 1 ==> SomethingFailed(events) && !Reports(world, o)
        invariant attempt > 1 ==> !SleepsAfter(o, 1) || o.intervalAccepted
      {
        body := world.body(|events|);
        var found := world.heard(|events|) && Contains(body, o.revision);
        Record(Curl(body), found, disk, kept);
        if found {
          return Healthy, body;
        }
        if SleepsAfter(o, attempt) {
          Record(Sleep, o.intervalAccepted, disk, kept);
          if !o.intervalAccepted {
            return Ended, body;
          }
        }
        attempt := attempt + 1;
      }
      verdict := Unhealthy;
    }

    /** The message before a rollback, and the rollback if the message goes out. */
    method GiveUp(ghost kept: Option<Disk>)
      requires Sound(kept) && Verified() && disk.next.Absent?
      requires kept.Some? ==> kept.value.current == Before()
      modifies this`disk, this`events, this`nextLink
      ensures Sound(kept) && Verified() && old(events) <= events
      ensures SomethingFailed(old(events)) || !o.errWritable ==> SomethingFailed(events)
      ensures disk.current == old(disk).current || disk.current == Before()
      ensures o.errWritable && disk.current != Before() ==> UndoFailed(events)
      ensures !disk.next.Absent? ==> UndoFailed(events)
      ensures !o.errWritable ==> disk == old(disk) && (UndoFailed(events) <==> UndoFailed(old(events)))
    {
      Record(Tell, o.errWritable, disk, kept);
      if o.errWritable {
        Rollback(kept);
      }
    }

    /** After the swap: restart, wait for health, and take the swap back when they fail.  What makes
        the script end of itself, under errexit, makes it end without a rollback. */
    method Judge(ghost kept: Option<Disk>) returns (status: int, body: string)
      requires Sound(kept) && Verified() && !UndoFailed(events) && disk.next.Absent?
      requires kept.Some? ==> kept.value.current == Before()
      modifies this`disk, this`events, this`nextLink
      ensures Sound(kept) && Verified() && old(events) <= events
      ensures |old(events)| < |events| && events[|old(events)|].command == Restart
      ensures status == 0 ==> disk == old(disk) && nextLink == old(nextLink) && Succeeded(body)
      ensures disk.current == old(disk).current || disk.current == Before()
      ensures status != 0 && RollbackAssured(o) && !UndoFailed(events) ==> disk.current == Before()
      ensures !disk.next.Absent? ==> UndoFailed(events)
      ensures status != 0 ==> Looks(o) <= 0 || SomethingFailed(events)
      ensures Restarts(world) && Reports(world, o) && Looks(o) >= 1 && o.outWritable ==> status == 0
      ensures Spoils(world, o) && !RollbackAssured(o) ==> status != 0 && !UndoFailed(events) && disk == old(disk)
    {
      body := "";
      var restarted := Do(Restart, true, disk, kept);
      if !restarted {
        GiveUp(kept);
        return 1, body;
      }
      if o.attempts.Unbound? {
        return 1, body;
      }
      status, body := Watch(kept);
    }

    /** The health loop and what follows it. */
    method Watch(ghost kept: Option<Disk>) returns (status: int, body: string)
      requires Sound(kept) && Verified() && !UndoFailed(events) && disk.next.Absent? && !o.attempts.Unbound?
      requires kept.Some? ==> kept.value.current == Before()
      modifies this`disk, this`events, this`nextLink
      ensures Sound(kept) && Verified() && old(events) <= events
      ensures status == 0 ==> disk == old(disk) && nextLink == old(nextLink) && Succeeded(body)
      ensures disk.current == old(disk).current || disk.current == Before()
      ensures status != 0 && RollbackAssured(o) && !UndoFailed(events) ==> disk.current == Before()
      ensures !disk.next.Absent? ==> UndoFailed(events)
      ensures status != 0 ==> Looks(o) <= 0 || SomethingFailed(events)
      ensures Reports(world, o) && Looks(o) >= 1 && o.outWritable ==> status == 0
      ensures Spoils(world, o) && o.errWritable && !RollbackAssured(o) ==>
        status != 0 && !UndoFailed(events) && disk == old(disk)
    {
      var verdict;
      verdict, body := AwaitHealth(kept);
      match verdict
      case Healthy =>
        Record(Tell, o.outWritable, disk, kept);
        status := if o.outWritable then 0 else 1;
      case Ended =>
        status := 1;
      case Unhealthy =>
        GiveUp(kept);
        status := 1;
    }

    /** The last things done: the service reported the revision, and the script said so. */
    ghost predicate Succeeded(body: string)
      reads this
    {
      && Contains(body, o.revision) && |events| >= 2
      && events[|events| - 2] == Event(Curl(body), true, disk)
      && events[|events| - 1] == Event(Tell, true, disk)
    }

    /** What is promised from the swap on: nothing when the start is a trap or the text misleads. */
    ghost function Kept(start: Disk): Option<Disk> {
      if Endangered(start, o) then None else Some(start)
    }

    /** After publication: swap and judge. */
    method Activate(ghost start: Disk) returns (status: int, body: string)
      requires Sound(Some(start)) && Verified() && !UndoFailed(events) && staging == "" && !nextLink
      requires disk == Prepared(start, o) && !Refused(start, o) && start.current == Before()
      modifies this`disk, this`events, this`nextLink
      ensures Sound(Kept(start)) && Verified()
      ensures status == 0 ==> !nextLink && Succeeded(body)
      ensures !Trapped(start, o) && status == 0 ==>
        start.next.Absent? && disk == Prepared(start, o).(current := Link(ReleasePath(o)))
      ensures status != 0 && !UndoFailed(events) && RollbackAssured(o) ==> disk.current == start.current
      ensures !Trapped(start, o) && !start.next.Absent? ==> disk.current == start.current
      ensures start.next.Absent? && !disk.next.Absent? ==> UndoFailed(events)
      ensures start.next.Absent? && Obeys(world) && Spoils(world, o) && !RollbackAssured(o) ==>
        status != 0 && !UndoFailed(events) && disk.current == Link(ReleasePath(o))
      ensures Endangered(start, o) && Obeys(world) ==> !AllSafe(start, events, o)
      ensures Endangered(start, o) && FineRun() ==> status == 0 && !Safe(start, disk, o)
      ensures status != 0 ==> Looks(o) <= 0 || SomethingFailed(events)
    {
      if Trapped(start, o) {
        TrapSprung(start, o);
      } else if start.next.Absent? {
        SwapFromClear(start, o);
      } else {
        SwapStopped(start, o);
      }
      body := "";
      var swapped := SwapCurrent(ReleasePath(o), true, Kept(start));
      if !swapped {
        return 1, body;
      }
      ghost var swap := |events| - 1;
      status, body := Judge(Kept(start));
      assert Endangered(start, o) ==> !Safe(start, events[swap].disk, o);
    }

    /** A machine on which nothing goes wrong, asked to look at least once. */
    ghost predicate FineRun() {
      Obeys(world) && Restarts(world) && Reports(world, o) && Looks(o) >= 1 && o.outWritable
    }

    /** The exit trap: what is left of the next link and of the staging directory is removed. */
    method Cleanup(ghost kept: Option<Disk>)
      requires Sound(kept) && (events == [] || !events[0].ok ==> !nextLink && staging == "")
      modifies this`disk, this`events
      ensures Sound(kept) && old(events) <= events && (UndoFailed(events) <==> UndoFailed(old(events)))
      ensures disk.current == old(disk).current && disk.strays == old(disk).strays
      ensures staging in disk.releases ==> staging == "" || CommandFailed(events, RemoveStaging)
      ensures if nextLink && old(disk).next.Link?
        then disk.next.Absent? || CommandFailed(events, RemoveNext)
        else disk.next == old(disk).next
      ensures !nextLink && staging == "" ==> events == old(events) && disk == old(disk)
      ensures SomethingFailed(old(events)) ==> SomethingFailed(events)
    {
      CleanLink(kept);
      ghost var middle := events;
      CleanStaging(kept);
      if CommandFailed(middle, RemoveNext) {
        CommandFailedOn(middle, events, RemoveNext);
      }
    }

    method CleanLink(ghost kept: Option<Disk>)
      requires Sound(kept) && (events == [] || !events[0].ok ==> !nextLink && staging == "")
      modifies this`disk, this`events
      ensures Sound(kept) && old(events) <= events && (UndoFailed(events) <==> UndoFailed(old(events)))
      ensures disk.(next := old(disk).next) == old(disk)
      ensures if nextLink && old(disk).next.Link?
        then disk.next.Absent? || CommandFailed(events, RemoveNext)
        else events == old(events) && disk == old(disk)
      ensures events == [] || !events[0].ok ==> staging == ""
      ensures SomethingFailed(old(events)) ==> SomethingFailed(events)
    {
      if nextLink && disk.next.Link? {
        var removed := Do(RemoveNext, true, disk.(next := Absent), kept);
        assert events[|events| - 1] == Event(RemoveNext, removed, disk);
      }
    }

    method CleanStaging(ghost kept: Option<Disk>)
      requires Sound(kept) && (events == [] || !events[0].ok ==> staging == "")
      modifies this`disk, this`events
      ensures Sound(kept) && old(events) <= events && (UndoFailed(events) <==> UndoFailed(old(events)))
      ensures disk.(releases := old(disk).releases) == old(disk)
      ensures staging in disk.releases ==> staging == "" || CommandFailed(events, RemoveStaging)
      ensures staging == "" ==> events == old(events) && disk == old(disk)
      ensures SomethingFailed(old(events)) ==> SomethingFailed(events)
    {
      if staging != "" && staging in disk.releases {
        var removed := Do(RemoveStaging, true, disk.(releases := disk.releases - {staging}), kept);
        assert events[|events| - 1] == Event(RemoveStaging, removed, disk);
      }
    }

    /** The script.  At every moment the current link is what it was or leads to the published release,
        and no release that was there has changed, unless the start is a trap or the text of the new
        link misleads; then neither holds on a machine on which everything goes well.  Exit 0 means
        that the revision was reported, and that the link is the new one; it leads to the release if
        the text resolves.  A failed run in which no command that takes the swap back failed ends
        where it started if rollback is assured; and if it is not, there are machines on which it does
        not.  No run fails without a refusal or a failed command. */
    method Run() returns (status: int, body: string)
      requires events == [] && staging == "" && !nextLink && previous == ""
      requires disk.current.Link? ==> disk.current.target != ""
      modifies this
      ensures VerifiedFirst()
      ensures !Endangered(old(disk), o) || Refused(old(disk), o) ==>
        AllSafe(old(disk), events, o) && Safe(old(disk), disk, o)
      ensures Endangered(old(disk), o) && !Refused(old(disk), o) && Smooth(world, old(disk), o) ==>
        !AllSafe(old(disk), events, o)
      ensures Endangered(old(disk), o) && !Refused(old(disk), o) && Smooth(world, old(disk), o) && FineRun() ==>
        status == 0 && !Safe(old(disk), disk, o)
      ensures status == 0 ==> Succeeded(body) && !Refused(old(disk), o)
      ensures status == 0 && !Trapped(old(disk), o) ==>
        disk == Prepared(old(disk), o).(current := Link(ReleasePath(o)))
      ensures status == 0 && !Trapped(old(disk), o) && IsAbsolute(o.root) ==>
        LeadsTo(o, disk.current.target) == Release(o.revision)
      ensures status != 0 && !UndoFailed(events) && RollbackAssured(o) ==> disk.current == old(disk).current
      ensures !old(disk).next.Absent? && !Trapped(old(disk), o) ==>
        status != 0 && disk.current == old(disk).current
      ensures old(disk).next.Absent? && !Refused(old(disk), o) && !RollbackAssured(o)
              && Smooth(world, old(disk), o) && Spoils(world, o) ==>
        status != 0 && !UndoFailed(events) && disk.current == Link(ReleasePath(o))
      ensures old(disk).next.Absent? && !disk.next.Absent? ==> UndoFailed(events)
      ensures status != 0 ==> Refused(old(disk), o) || Looks(o) <= 0 || SomethingFailed(events)
      ensures staging != "" && staging in disk.releases ==> CommandFailed(events, RemoveStaging)
    {
      ghost var start := disk;
      body := "";
      status := Guard(start);
      if status != 0 {
        return;
      }
      status := Publish(disk);
      if status != 0 {
        Cleanup(Some(start));
        return;
      }
      status, body := Activate(start);
      Cleanup(Kept(start));
      if IsAbsolute(o.root) {
        AbsoluteRootResolves(o);
      }
    }
  }
}
