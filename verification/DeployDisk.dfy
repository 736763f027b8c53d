/** packaging/scripts/deploy.sh: the disk a deployment works on, and what must hold of it. */
module DeployDisk {
  import opened Decimal

  datatype Mode = Mode(groupWrite: bool, otherWrite: bool, traversable: bool)

  const MODE_0700 := Mode(false, false, false)
  const MODE_0755 := Mode(false, false, true)

  datatype Entry = Entry(content: string, mode: Mode, symlink: bool)

  /** A directory tree and the mode of its root. */
  datatype Dir = Dir(entries: map<string, Entry>, mode: Mode)

  predicate Writable(mode: Mode) {
    mode.groupWrite || mode.otherWrite
  }

  /** What `find` looks for: anything but a symlink that the group or the world may write. */
  predicate Unsafe(dir: Dir) {
    Writable(dir.mode) || exists p :: p in dir.entries && !dir.entries[p].symlink && Writable(dir.entries[p].mode)
  }

  /** What stands under a name; of a directory, the names taken in it. */
  datatype Node = Absent | Link(target: string) | File | Directory(names: set<string>)

  /** What a path leads to: a release, another directory with these names taken, or no directory. */
  datatype Place = NoDirectory | Release(name: string) | Elsewhere(names: set<string>)

  /** The releases directory; the current link; whatever stands under the name that this run gives
      to the link that is to replace it; and the links made in directories that are no releases. */
  datatype Disk = Disk(releases: map<string, Dir>, current: Node, next: Node, strays: seq<string>)

  /** HEALTH_ATTEMPTS: as an arithmetic expression it has a value, is malformed, or names an unset
      variable; `test` reads `shown`, or nothing when it is not a plain number. */
  datatype Attempts = Count(looks: int, shown: Option<int>) | Malformed | Unbound

  /** `cwd` is the directory the script runs in and `linkDirectory` the one that holds the current
      link, both absolute; `places` tells what absolute paths that are spelt otherwise than as a
      release of this root lead to. */
  datatype Options = Options(
    revision: string, root: string, artifact: Dir, executable: bool,
    attempts: Attempts, intervalAccepted: bool, outWritable: bool, errWritable: bool,
    cwd: string, linkDirectory: string, places: string -> Place)

  function ReleasePath(o: Options): string {
    o.root + "/releases/" + o.revision
  }

  // ----- Where paths lead -----

  predicate IsAbsolute(path: string) {
    path != "" && path[0] == '/'
  }

  function From(directory: string, path: string): string {
    if IsAbsolute(path) then path else directory + "/" + path
  }

  /** The releases directory, which the script reaches from where it runs. */
  function Releases(o: Options): string {
    From(o.cwd, o.root) + "/releases/"
  }

  predicate PlainName(name: string) {
    name != "" && name != "." && name != ".." && '/' !in name
  }

  function At(o: Options, path: string): Place {
    var n := |Releases(o)|;
    if Releases(o) <= path && PlainName(path[n..]) then Release(path[n..]) else o.places(path)
  }

  /** The text of a link is followed from the directory that holds the link. */
  function LeadsTo(o: Options, text: string): Place {
    At(o, From(o.linkDirectory, text))
  }

  /** The text that the script gives the new link leads to the new release. */
  predicate Resolves(o: Options) {
    LeadsTo(o, ReleasePath(o)) == Release(o.revision)
  }

  /** An absolute root does it. */
  lemma AbsoluteRootResolves(o: Options)
    requires IsAbsolute(o.root) && SafeRevision(o.revision) && o.revision != "." && o.revision != ".."
    ensures Resolves(o)
  {
    var path := ReleasePath(o);
    assert path == Releases(o) + o.revision && path[0] == o.root[0];
    assert path[|Releases(o)|..] == o.revision;
  }

  /** A relative root is taken twice when the link has its default place in the root: the text leads
      to a place under the root's own name inside the root. */
  lemma RelativeRootTakenTwice(o: Options)
    requires o.root != "" && !IsAbsolute(o.root) && o.linkDirectory == From(o.cwd, o.root)
    ensures LeadsTo(o, ReleasePath(o)) == o.places(From(o.cwd, o.root) + "/" + ReleasePath(o))
  {
    var path := From(o.cwd, o.root) + "/" + ReleasePath(o);
    var n, slash := |Releases(o)|, |path| - |o.revision| - 1;
    assert ReleasePath(o)[0] == o.root[0];
    if Releases(o) <= path {
      assert path[slash] == '/' && path[n..][slash - n] == path[slash];
    }
  }

  /** How often the loop looks at the service: a malformed bound makes bash skip the loop. */
  function Looks(o: Options): int {
    if o.attempts.Count? then o.attempts.looks else 0
  }

  predicate SleepsAfter(o: Options, attempt: int) {
    o.attempts.Count? && o.attempts.shown.Some? && attempt < o.attempts.shown.value
  }

  predicate SafeRevision(revision: string) {
    revision != "" && forall i :: 0 <= i < |revision| ==>
      'A' <= revision[i] <= 'Z' || 'a' <= revision[i] <= 'z' || '0' <= revision[i] <= '9'
      || revision[i] == '.' || revision[i] == '_' || revision[i] == '-'
  }

  /** `[ -e releases/REVISION ]`: the two names every directory has exist too. */
  predicate ReleaseExists(disk: Disk, revision: string) {
    revision in disk.releases || revision == "." || revision == ".."
  }

  /** The reasons for which the script refuses a deploy before the current link is in play. */
  predicate Refused(start: Disk, o: Options) {
    || !SafeRevision(o.revision) || !o.executable || ReleaseExists(start, o.revision)
    || start.current.File? || start.current.Directory? || Unsafe(o.artifact)
  }

  // ----- The name of a link inside a directory -----

  function AfterSlash(path: string): string {
    if path == "" || path[|path| - 1] == '/' then ""
    else AfterSlash(path[..|path| - 1]) + [path[|path| - 1]]
  }

  function Stripped(path: string): string {
    if path != "" && path[|path| - 1] == '/' then Stripped(path[..|path| - 1]) else path
  }

  /** The last component of a path. */
  function LastName(path: string): string {
    AfterSlash(Stripped(path))
  }

  lemma {:induction false} AfterSlashOf(directory: string, name: string)
    requires '/' !in name
    ensures AfterSlash(directory + "/" + name) == name
  {
    var path := directory + "/" + name;
    if name == "" {
      assert path[|path| - 1] == '/';
    } else {
      var shorter := name[..|name| - 1];
      AfterSlashOf(directory, shorter);
      assert path[..|path| - 1] == directory + "/" + shorter;
      assert name == shorter + [name[|name| - 1]] && path[|path| - 1] == name[|name| - 1];
    }
  }

  lemma ReleaseName(o: Options)
    requires SafeRevision(o.revision)
    ensures LastName(ReleasePath(o)) == o.revision
  {
    assert ReleasePath(o) == o.root + "/releases" + "/" + o.revision;
    AfterSlashOf(o.root + "/releases", o.revision);
  }

  // ----- ln -s and mv -Tf -----

  /** `ln -s TARGET NEXT`: makes the link, or, where NEXT is or leads to a directory, makes a link
      inside that directory; no answer when it fails. */
  function Linked(disk: Disk, target: string, o: Options): Option<Disk> {
    var name := LastName(target);
    match disk.next
    case Absent => Some(disk.(next := Link(target)))
    case File => None
    case Directory(names) => if name in names then None else Some(disk.(next := Directory(names + {name})))
    case Link(stale) =>
      match LeadsTo(o, stale)
      case NoDirectory => None
      case Elsewhere(names) => if name in names then None else Some(disk.(strays := disk.strays + [stale]))
      case Release(r) =>
        if r !in disk.releases || name in disk.releases[r].entries then None
        else Some(disk.(releases := disk.releases[r := WithLink(disk.releases[r], name, target)]))
  }

  function WithLink(dir: Dir, name: string, target: string): Dir {
    dir.(entries := dir.entries[name := Entry(target, Mode(true, true, true), true)])
  }

  /** `mv -Tf NEXT CURRENT`: whatever NEXT is becomes the current link. */
  function Renamed(disk: Disk): Option<Disk> {
    if disk.next.Absent? || disk.current.Directory? || (disk.next.Directory? && !disk.current.Absent?) then None
    else Some(disk.(current := disk.next, next := Absent))
  }

  /** A command that fails leaves the disk as it is. */
  function OrSame(result: Option<Disk>, disk: Disk): Disk {
    if result.Some? then result.value else disk
  }

  // ----- What must hold at every moment -----

  /** The new release as it is published: every file of the artifact, none of them writable by
      others, open for traversal. */
  predicate Published(dir: Dir, o: Options) {
    dir == Dir(o.artifact.entries, MODE_0755) && !Unsafe(o.artifact)
  }

  /** No release that was there is changed and nothing is written elsewhere; the current link is what
      it was, or leads to the new release, fully copied and checked. */
  predicate Safe(start: Disk, disk: Disk, o: Options) {
    && (forall r :: r in start.releases ==> r in disk.releases && disk.releases[r] == start.releases[r])
    && (o.revision in disk.releases && o.revision !in start.releases ==> Published(disk.releases[o.revision], o))
    && (disk.current == start.current
        || (disk.current == Link(ReleasePath(o)) && Resolves(o)
            && o.revision in disk.releases && o.revision !in start.releases))
    && disk.strays == start.strays
  }

  // ----- Which starts are safe -----

  /** What stands under the name of the next link catches the new link: it leads to a directory in
      which the new link's name is free, or it is such a directory and there is no current link. */
  predicate Trapped(start: Disk, o: Options) {
    match start.next
    case Absent => false
    case File => false
    case Directory(names) => o.revision !in names && start.current.Absent?
    case Link(stale) =>
      match LeadsTo(o, stale)
      case NoDirectory => false
      case Elsewhere(names) => o.revision !in names
      case Release(r) =>
        if r == o.revision then o.revision !in o.artifact.entries
        else r in start.releases && o.revision !in start.releases[r].entries
  }

  /** The name of the next link is free and the swap goes through, to a link that does not lead to the
      new release. */
  predicate Misled(start: Disk, o: Options) {
    start.next.Absent? && start.current != Link(ReleasePath(o)) && !Resolves(o)
  }

  predicate Endangered(start: Disk, o: Options) {
    Trapped(start, o) || Misled(start, o)
  }

  /** The disk when the release has been published. */
  function Prepared(start: Disk, o: Options): Disk {
    start.(releases := start.releases[o.revision := Dir(o.artifact.entries, MODE_0755)])
  }

  /** The disk as it was, with this tree in a directory of this name beside the releases. */
  function Staged(start: Disk, name: string, tree: Dir): Disk {
    start.(releases := start.releases[name := tree])
  }

  lemma StagedIsSafe(start: Disk, name: string, tree: Dir, o: Options)
    requires name !in start.releases && name != o.revision
    ensures Safe(start, Staged(start, name, tree), o)
  {
  }

  /** Renaming the staging directory into place. */
  lemma StagedThenRenamed(start: Disk, name: string, tree: Dir, o: Options)
    requires name !in start.releases && tree == Dir(o.artifact.entries, MODE_0755)
    ensures var staged := Staged(start, name, tree);
      staged.(releases := (staged.releases - {name})[o.revision := tree]) == Prepared(start, o)
  {
    assert start.releases[name := tree] - {name} == start.releases;
  }

  lemma PreparedIsSafe(start: Disk, o: Options)
    requires !Refused(start, o)
    ensures Safe(start, Prepared(start, o), o)
  {
  }

  lemma TrapSprung(start: Disk, o: Options)
    requires !Refused(start, o) && Trapped(start, o)
    ensures var linked := Linked(Prepared(start, o), ReleasePath(o), o);
      && linked.Some? && Renamed(linked.value).Some?
      && !Safe(start, Renamed(linked.value).value, o)
  {
    ReleaseName(o);
    var linked := Linked(Prepared(start, o), ReleasePath(o), o);
    if start.next.Link? && LeadsTo(o, start.next.target).Release? {
      var r := LeadsTo(o, start.next.target).name;
      assert o.revision in linked.value.releases[r].entries;
    }
  }

  /** A free name takes the new link, and the rename is the swap. */
  lemma SwapFromClear(start: Disk, o: Options)
    requires !Refused(start, o) && start.next.Absent?
    ensures var disk := Prepared(start, o);
      && Linked(disk, ReleasePath(o), o) == Some(disk.(next := Link(ReleasePath(o))))
      && Renamed(disk.(next := Link(ReleasePath(o)))) == Some(disk.(current := Link(ReleasePath(o))))
      && Safe(start, disk.(next := Link(ReleasePath(o))), o)
      && (Safe(start, disk.(current := Link(ReleasePath(o))), o) <==> !Misled(start, o))
  {
    PreparedIsSafe(start, o);
  }

  /** The failing start: a relative root, the link in its default place, a free name, and nothing
      under the root's name inside the root. */
  lemma RelativeRootMisleads(start: Disk, o: Options)
    requires o.root != "" && !IsAbsolute(o.root) && o.linkDirectory == From(o.cwd, o.root)
    requires o.places(From(o.cwd, o.root) + "/" + ReleasePath(o)) == NoDirectory
    requires start.next.Absent? && start.current.Absent?
    ensures Misled(start, o)
  {
    RelativeRootTakenTwice(o);
  }

  /** Anything else that is no trap stops one of the two commands, and no harm is done. */
  lemma SwapStopped(start: Disk, o: Options)
    requires !Refused(start, o) && !Trapped(start, o) && !start.next.Absent?
    ensures var linked := Linked(Prepared(start, o), ReleasePath(o), o);
      linked.Some? ==> Renamed(linked.value).None? && linked.value.current == start.current
                       && Safe(start, linked.value, o)
  {
    ReleaseName(o);
  }

  /** How a trap is set: a run killed right after its `ln` leaves a link to its release behind, and a
      run of another revision that meets the link does harm. */
  lemma KilledRunTraps(start: Disk, o: Options, later: Options)
    requires !Refused(start, o) && start.next.Absent?
    requires LeadsTo(later, ReleasePath(o)) == Release(o.revision) && later.revision !in o.artifact.entries
    ensures var killed := Linked(Prepared(start, o), ReleasePath(o), o);
      && killed.Some?
      && (!Refused(killed.value, later) ==>
            var linked := Linked(Prepared(killed.value, later), ReleasePath(later), later);
            && Trapped(killed.value, later) && linked.Some? && Renamed(linked.value).Some?
            && !Safe(killed.value, Renamed(linked.value).value, later))
  {
    var killed := Linked(Prepared(start, o), ReleasePath(o), o).value;
    if !Refused(killed, later) {
      TrapSprung(killed, later);
    }
  }

  // ----- When a failed run ends where it started -----

  /** The bound of the loop is no unset variable, stderr takes the message before a rollback, stdout
      the one before exit 0, and `sleep` accepts the interval, wherever they are used. */
  predicate RollbackAssured(o: Options) {
    && !o.attempts.Unbound? && o.errWritable
    && (Looks(o) >= 1 ==> o.outWritable && (o.intervalAccepted || !SleepsAfter(o, 1)))
  }
}
