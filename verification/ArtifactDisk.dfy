/** packaging/manifest.go: the directory on disk, where a name can be a hard link or a symbolic one, so
    that what is written under one name can show under another. */
module ArtifactDisk {
  import opened Decimal
  import opened Packaging

  /** A place: a path inside the artifact directory or a path outside it. */
  datatype Spot = Inside(name: string) | Outside(path: string)

  /** What stands there; `Plain` names the file by its number. */
  datatype Node = Plain(id: nat) | Folder | Link(to: Spot) | Device

  /** `next` is the number the next file to be created will have. */
  datatype Disk = Disk(nodes: map<Spot, Node>, contents: map<nat, string>, next: nat)

  predicate Valid(d: Disk) {
    && (forall s :: s in d.nodes && d.nodes[s].Plain? ==> d.nodes[s].id in d.contents)
    && (forall id :: id in d.contents ==> id < d.next)
    && Inside(".") in d.nodes && d.nodes[Inside(".")].Folder?
  }

  /** How many links the system follows before it gives up. */
  const HOPS: nat := 40

  function Follow(d: Disk, s: Spot, hops: nat): Option<Spot>
    decreases hops
  {
    if s !in d.nodes || !d.nodes[s].Link? then Some(s)
    else if hops == 0 then None
    else Follow(d, d.nodes[s].to, hops - 1)
  }

  /** Where opening a name ends. */
  function End(d: Disk, s: Spot): Option<Spot> {
    Follow(d, s, HOPS)
  }

  /** A file, or nothing yet. */
  predicate Fillable(d: Disk, e: Spot) {
    e !in d.nodes || d.nodes[e].Plain?
  }

  predicate LeadsToFile(d: Disk, s: Spot) {
    End(d, s).Some? && Fillable(d, End(d, s).value)
  }

  function ReadAt(d: Disk, s: Spot): Option<string> {
    match End(d, s)
    case None => None
    case Some(e) =>
      if e in d.nodes && d.nodes[e].Plain? && d.nodes[e].id in d.contents then Some(d.contents[d.nodes[e].id])
      else None
  }

  /** O_CREATE and O_TRUNC, links followed: a new file or new content for the one that is there; what
      a device is sent leaves no trace. */
  function Written(d: Disk, s: Spot, content: string): Disk {
    match End(d, s)
    case None => d
    case Some(e) =>
      if e !in d.nodes then Disk(d.nodes[e := Plain(d.next)], d.contents[d.next := content], d.next + 1)
      else if d.nodes[e].Plain? then d.(contents := d.contents[d.nodes[e].id := content])
      else d
  }

  /** The tree as a walk and a reader see it. */
  function View(d: Disk): Tree {
    map s | s in d.nodes && s.Inside? :: s.name := Seen(d, s)
  }

  function Seen(d: Disk, s: Spot): Entry
    requires s in d.nodes
  {
    match d.nodes[s]
    case Plain(id) => Regular(if id in d.contents then d.contents[id] else "")
    case Folder => Directory
    case Link(_) => Symlink(ReadAt(d, s))
    case Device => Special
  }

  lemma ViewReads(d: Disk, name: string)
    requires Valid(d)
    ensures ReadFileAt(View(d), name) == ReadAt(d, Inside(name))
  {
  }

  // ----- Two places, one file -----

  predicate SameFile(d: Disk, e: Spot, f: Spot) {
    e == f || (e in d.nodes && f in d.nodes && d.nodes[e].Plain? && d.nodes[f] == d.nodes[e])
  }

  /** A path that a manifest would list. */
  predicate PayloadSpot(s: Spot) {
    s.Inside? && s.name != "." && s.name != MANIFEST_NAME && s.name != SIGNATURE_NAME
  }

  ghost predicate InPayload(d: Disk, e: Spot) {
    exists p :: PayloadSpot(p) && SameFile(d, e, p)
  }

  lemma {:induction false} FollowAfterWrite(d: Disk, s: Spot, content: string, q: Spot, hops: nat)
    ensures Follow(Written(d, s, content), q, hops) == Follow(d, q, hops)
    decreases hops
  {
    if q in d.nodes && d.nodes[q].Link? && hops > 0 {
      FollowAfterWrite(d, s, content, d.nodes[q].to, hops - 1);
    }
  }

  lemma WrittenIsValid(d: Disk, s: Spot, content: string)
    requires Valid(d)
    ensures Valid(Written(d, s, content))
  {
  }

  /** What is written under one name is read under every name of the same file, and no other. */
  lemma ReadAfterWrite(d: Disk, s: Spot, content: string, q: Spot)
    requires Valid(d) && LeadsToFile(d, s)
    ensures ReadAt(Written(d, s, content), q)
      == if End(d, q).Some? && SameFile(d, End(d, s).value, End(d, q).value) then Some(content) else ReadAt(d, q)
  {
    FollowAfterWrite(d, s, content, q, HOPS);
  }

  /** Being one file, or being in the payload, does not change by writing. */
  lemma SameFileAfterWrite(d: Disk, s: Spot, content: string, e: Spot, f: Spot)
    requires Valid(d)
    ensures SameFile(Written(d, s, content), e, f) <==> SameFile(d, e, f)
  {
  }

  lemma InPayloadAfterWrite(d: Disk, s: Spot, content: string, e: Spot)
    requires Valid(d)
    ensures InPayload(Written(d, s, content), e) <==> InPayload(d, e)
  {
    forall p ensures SameFile(Written(d, s, content), e, p) <==> SameFile(d, e, p) {
      SameFileAfterWrite(d, s, content, e, p);
    }
  }

  // ----- Writing and the payload -----

  /** Writing under this name leaves every payload path alone. */
  ghost predicate Spares(d: Disk, s: Spot) {
    LeadsToFile(d, s) ==> !InPayload(d, End(d, s).value)
  }

  lemma PayloadAt(d: Disk, name: string)
    ensures name in Payload(View(d)) <==>
      PayloadSpot(Inside(name)) && Inside(name) in d.nodes && !d.nodes[Inside(name)].Folder?
    ensures name in Payload(View(d)) ==> Payload(View(d))[name] == Seen(d, Inside(name))
  {
  }

  lemma SparedAt(d: Disk, s: Spot, content: string, name: string)
    requires Valid(d) && Collectable(View(d)) && Spares(d, s)
    ensures var after := Payload(View(Written(d, s, content)));
      && (name in after <==> name in Payload(View(d)))
      && (name in after ==> after[name] == Payload(View(d))[name])
  {
    PayloadAt(d, name);
    PayloadAt(Written(d, s, content), name);
    if name in Payload(View(d)) {
      assert View(d)[name].Regular?;
    }
    if PayloadSpot(Inside(name)) && LeadsToFile(d, s) {
      assert !SameFile(d, End(d, s).value, Inside(name));
    }
  }

  lemma SparedPayload(d: Disk, s: Spot, content: string)
    requires Valid(d) && Collectable(View(d)) && Spares(d, s)
    ensures Payload(View(Written(d, s, content))) == Payload(View(d))
  {
    var after := Payload(View(Written(d, s, content)));
    forall name
      ensures name in after <==> name in Payload(View(d))
      ensures name in after ==> after[name] == Payload(View(d))[name]
    {
      SparedAt(d, s, content, name);
    }
  }

  /** What is written to a file that a payload path names shows there. */
  lemma ShowsInPayload(d: Disk, s: Spot, content: string, name: string)
    requires Valid(d) && LeadsToFile(d, s)
    requires PayloadSpot(Inside(name)) && SameFile(d, End(d, s).value, Inside(name))
    ensures var payload := Payload(View(Written(d, s, content)));
      name in payload && payload[name] == Regular(content)
  {
    PayloadAt(Written(d, s, content), name);
  }

  /** And nowhere else. */
  lemma StaysInPayload(d: Disk, s: Spot, content: string, name: string)
    requires Valid(d) && name in Payload(View(d)) && Payload(View(d))[name].Regular?
    requires LeadsToFile(d, s) ==> !SameFile(d, End(d, s).value, Inside(name))
    ensures var payload := Payload(View(Written(d, s, content)));
      name in payload && payload[name] == Payload(View(d))[name]
  {
    PayloadAt(d, name);
    PayloadAt(Written(d, s, content), name);
  }
}
