/** packaging/manifest.go: sealing an artifact directory on disk and verifying it. */
module Sealing {
  import opened ArtifactDisk
  import opened Decimal
  import opened Environment
  import opened ManifestJson
  import opened Ordering
  import opened Packaging

  const MANIFEST := Inside(MANIFEST_NAME)
  const SIGNATURE := Inside(SIGNATURE_NAME)

  function SignatureText(m: Manifest, key: string, c: Primitives): string {
    c.encode64(c.sign(key, c.utf8(Marshal(m))))
  }

  /** Both files written, the manifest first. */
  function Sealed(d: Disk, m: Manifest, key: string, c: Primitives): Disk {
    Written(Written(d, MANIFEST, c.utf8(Marshal(m))), SIGNATURE, SignatureText(m, key, c))
  }

  predicate CanOpen(d: Disk, s: Spot) {
    End(d, s).Some? && (End(d, s).value in d.nodes ==> !d.nodes[End(d, s).value].Folder?)
  }

  // ----- Two names, two files, neither in the payload -----

  ghost predicate SparesPayload(d: Disk) {
    Spares(d, MANIFEST) && Spares(d, SIGNATURE)
  }

  predicate TwoFiles(d: Disk) {
    && LeadsToFile(d, MANIFEST) && LeadsToFile(d, SIGNATURE)
    && !SameFile(d, End(d, MANIFEST).value, End(d, SIGNATURE).value)
  }

  ghost predicate Apart(d: Disk) {
    TwoFiles(d) && SparesPayload(d)
  }

  lemma SparesAfterWrite(d: Disk, s: Spot, content: string, q: Spot)
    requires Valid(d)
    ensures Spares(Written(d, s, content), q) <==> Spares(d, q)
  {
    FollowAfterWrite(d, s, content, q, HOPS);
    if End(d, q).Some? {
      InPayloadAfterWrite(d, s, content, End(d, q).value);
    }
  }

  lemma SparedTwice(d: Disk, first: string, second: string)
    requires Valid(d) && Collectable(View(d)) && SparesPayload(d)
    ensures Payload(View(Written(Written(d, MANIFEST, first), SIGNATURE, second))) == Payload(View(d))
  {
    var between := Written(d, MANIFEST, first);
    SparedPayload(d, MANIFEST, first);
    WrittenIsValid(d, MANIFEST, first);
    SamePayloadSameFiles(View(d), View(between), s => s);
    SparesAfterWrite(d, MANIFEST, first, SIGNATURE);
    SparedPayload(between, SIGNATURE, second);
  }

  lemma ReadTwice(d: Disk, first: string, second: string)
    requires Valid(d) && TwoFiles(d)
    ensures var after := Written(Written(d, MANIFEST, first), SIGNATURE, second);
      ReadAt(after, MANIFEST) == Some(first) && ReadAt(after, SIGNATURE) == Some(second)
  {
    var between := Written(d, MANIFEST, first);
    WrittenIsValid(d, MANIFEST, first);
    FollowAfterWrite(d, MANIFEST, first, SIGNATURE, HOPS);
    FollowAfterWrite(d, MANIFEST, first, MANIFEST, HOPS);
    SameFileAfterWrite(d, MANIFEST, first, End(d, SIGNATURE).value, End(d, MANIFEST).value);
    ReadAfterWrite(d, MANIFEST, first, MANIFEST);
    ReadAfterWrite(between, SIGNATURE, second, MANIFEST);
    ReadAfterWrite(between, SIGNATURE, second, SIGNATURE);
  }

  predicate Listable(tree: Tree) {
    Collectable(tree) && forall p :: p in Payload(tree) ==> WalkName(p) && InRange(|tree[p].content|)
  }

  lemma DescribedIsWritable(tree: Tree, metadata: Metadata, hash: string -> string)
    requires Listable(tree) && InRange(metadata.ciRunId)
    ensures var m := Described(metadata, FilesOf(tree, hash));
      ManifestJson.Writable(m) && forall i :: 0 <= i < |m.files| ==> SafeRelativePath(m.files[i].path)
  {
    var m := Described(metadata, FilesOf(tree, hash));
    var paths := SortedKeys(Payload(tree).Keys);
    forall i | 0 <= i < |m.files| ensures InRange(m.files[i].bytes) && SafeRelativePath(m.files[i].path) {
      assert paths[i] in Payload(tree);
      SafeExactly(paths[i]);
    }
  }

  /** A sealed artifact is authentic for every list of trusted keys that has the signing key's
      public half in it, wherever it stands. */
  lemma SealThenVerify(d: Disk, metadata: Metadata, key: string, keys: seq<string>, c: Primitives)
    requires Valid(d) && Apart(d) && Listable(View(d))
    requires Lawful(c) && InRange(metadata.ciRunId) && c.publicOf(key) in keys
    ensures var m := Described(metadata, FilesOf(View(d), c.hash));
      Authentic(View(Sealed(d, m, key, c)), keys, m, c)
  {
    var m := Described(metadata, FilesOf(View(d), c.hash));
    var bytes, sealed := c.utf8(Marshal(m)), Sealed(d, m, key, c);
    SparedTwice(d, bytes, SignatureText(m, key, c));
    SamePayloadSameFiles(View(d), View(sealed), c.hash);
    ReadTwice(d, bytes, SignatureText(m, key, c));
    SealedIsValid(d, m, key, c);
    ViewReads(sealed, MANIFEST_NAME);
    ViewReads(sealed, SIGNATURE_NAME);
    DescribedIsWritable(View(d), metadata, c.hash);
    ManifestRoundTrip(m);
    var i :| 0 <= i < |keys| && keys[i] == c.publicOf(key);
    assert c.verify(keys[i], bytes, c.sign(key, bytes));
    assert Trusted(keys, bytes, c.sign(key, bytes), c);
  }

  lemma SealedIsValid(d: Disk, m: Manifest, key: string, c: Primitives)
    requires Valid(d)
    ensures Valid(Sealed(d, m, key, c))
  {
    WrittenIsValid(d, MANIFEST, c.utf8(Marshal(m)));
    WrittenIsValid(Written(d, MANIFEST, c.utf8(Marshal(m))), SIGNATURE, SignatureText(m, key, c));
  }

  // ----- Otherwise -----

  /** Primitives that hide nothing: whatever is hashed or signed shows, and the armour adds a letter. */
  function Transparent(): Primitives {
    Primitives(s => s, key => key, (key, message) => message, (key, message, signature) => signature == message,
               s => "x" + s, t => if t == "" then None else Some(t[1..]), s => s, s => s)
  }

  lemma TransparentIsLawful()
    ensures Lawful(Transparent())
  {
  }

  predicate OneFile(d: Disk) {
    && LeadsToFile(d, MANIFEST) && LeadsToFile(d, SIGNATURE)
    && SameFile(d, End(d, MANIFEST).value, End(d, SIGNATURE).value)
  }

  /** What ends up under a payload path that names the file at the end of one of the two names. */
  function Left(d: Disk, s: Spot, m: Manifest, key: string): string {
    if s == SIGNATURE || OneFile(d) then SignatureText(m, key, Transparent()) else Marshal(m)
  }

  lemma LeftDiffers(d: Disk, s: Spot, m: Manifest, n: Manifest, key: string)
    requires ManifestJson.Writable(m) && ManifestJson.Writable(n) && m != n
    ensures Left(d, s, m, key) != Left(d, s, n, key)
  {
    if Marshal(m) == Marshal(n) {
      MarshalInjective(m, n);
    }
    assert SignatureText(m, key, Transparent())[1..] == Marshal(m);
    assert SignatureText(n, key, Transparent())[1..] == Marshal(n);
  }

  lemma LeadsToFileAfterWrite(d: Disk, s: Spot, content: string, q: Spot)
    ensures End(Written(d, s, content), q) == End(d, q)
    ensures LeadsToFile(Written(d, s, content), q) <==> LeadsToFile(d, q)
  {
    FollowAfterWrite(d, s, content, q, HOPS);
  }

  lemma LeftByManifest(d: Disk, name: string, m: Manifest, key: string)
    requires Valid(d) && LeadsToFile(d, MANIFEST)
    requires PayloadSpot(Inside(name)) && SameFile(d, End(d, MANIFEST).value, Inside(name))
    ensures var payload := Payload(View(Sealed(d, m, key, Transparent())));
      name in payload && payload[name] == Regular(Left(d, MANIFEST, m, key))
  {
    NamesDiffer();
    var bytes, text := Marshal(m), SignatureText(m, key, Transparent());
    var between := Written(d, MANIFEST, bytes);
    WrittenIsValid(d, MANIFEST, bytes);
    ShowsInPayload(d, MANIFEST, bytes, name);
    LeadsToFileAfterWrite(d, MANIFEST, bytes, SIGNATURE);
    if LeadsToFile(d, SIGNATURE) {
      SameFileAfterWrite(d, MANIFEST, bytes, End(d, SIGNATURE).value, Inside(name));
    }
    if OneFile(d) {
      ShowsInPayload(between, SIGNATURE, text, name);
    } else {
      StaysInPayload(between, SIGNATURE, text, name);
    }
  }

  lemma LeftBySignature(d: Disk, name: string, m: Manifest, key: string)
    requires Valid(d) && LeadsToFile(d, SIGNATURE)
    requires PayloadSpot(Inside(name)) && SameFile(d, End(d, SIGNATURE).value, Inside(name))
    ensures var payload := Payload(View(Sealed(d, m, key, Transparent())));
      name in payload && payload[name] == Regular(Left(d, SIGNATURE, m, key))
  {
    var bytes := Marshal(m);
    WrittenIsValid(d, MANIFEST, bytes);
    LeadsToFileAfterWrite(d, MANIFEST, bytes, SIGNATURE);
    SameFileAfterWrite(d, MANIFEST, bytes, End(d, SIGNATURE).value, Inside(name));
    ShowsInPayload(Written(d, MANIFEST, bytes), SIGNATURE, SignatureText(m, key, Transparent()), name);
  }

  predicate Leaves(d: Disk, name: string, s: Spot, m: Manifest, key: string) {
    var payload := Payload(View(Sealed(d, m, key, Transparent())));
    name in payload && payload[name] == Regular(Left(d, s, m, key))
  }

  /** A payload path that sealing overwrites, and what it leaves there whatever the manifest. */
  lemma Overwritten(d: Disk) returns (name: string, s: Spot)
    requires Valid(d) && !SparesPayload(d)
    ensures forall m, key :: Leaves(d, name, s, m, key)
  {
    s := if Spares(d, MANIFEST) then SIGNATURE else MANIFEST;
    var p :| PayloadSpot(p) && SameFile(d, End(d, s).value, p);
    name := p.name;
    forall m, key ensures Leaves(d, name, s, m, key) {
      if s == MANIFEST {
        LeftByManifest(d, name, m, key);
      } else {
        LeftBySignature(d, name, m, key);
      }
    }
  }

  function Plainly(version: string): Metadata {
    Metadata(version, "", "", None, 0, "")
  }

  /** Of two versions at least one is not kept. */
  lemma NotKept(d: Disk) returns (metadata: Metadata)
    requires Valid(d) && Listable(View(d)) && !SparesPayload(d)
    ensures InRange(metadata.ciRunId)
    ensures var m := Described(metadata, FilesOf(View(d), Transparent().hash));
      Payload(View(Sealed(d, m, "", Transparent()))) != Payload(View(d))
  {
    var name, s := Overwritten(d);
    var one, two := Plainly("1"), Plainly("2");
    var m := Described(one, FilesOf(View(d), Transparent().hash));
    var n := Described(two, FilesOf(View(d), Transparent().hash));
    DescribedIsWritable(View(d), one, Transparent().hash);
    DescribedIsWritable(View(d), two, Transparent().hash);
    assert m.version != n.version;
    assert Leaves(d, name, s, m, "") && Leaves(d, name, s, n, "");
    LeftDiffers(d, s, m, n, "");
    metadata := if Payload(View(Sealed(d, m, "", Transparent()))) == Payload(View(d)) then two else one;
  }

  ghost predicate Keeps(d: Disk, metadata: Metadata, key: string, c: Primitives)
    requires Collectable(View(d))
  {
    Payload(View(Sealed(d, Described(metadata, FilesOf(View(d), c.hash)), key, c))) == Payload(View(d))
  }

  ghost predicate AlwaysKeeps(d: Disk)
    requires Collectable(View(d))
  {
    forall metadata: Metadata, key, c :: Lawful(c) && InRange(metadata.ciRunId) ==> Keeps(d, metadata, key, c)
  }

  /** Whatever is sealed with whatever key, the payload is kept, if and only if neither name leads to
      a payload path or to a file that one names. */
  lemma KeepsExactly(d: Disk)
    requires Valid(d) && Listable(View(d))
    ensures AlwaysKeeps(d) <==> SparesPayload(d)
  {
    if SparesPayload(d) {
      forall metadata: Metadata, key, c | Lawful(c) && InRange(metadata.ciRunId) ensures Keeps(d, metadata, key, c) {
        var m := Described(metadata, FilesOf(View(d), c.hash));
        SparedTwice(d, c.utf8(Marshal(m)), SignatureText(m, key, c));
      }
    } else {
      var metadata := NotKept(d);
      TransparentIsLawful();
      assert !Keeps(d, metadata, "", Transparent());
    }
  }

  ghost predicate Verifies(d: Disk, metadata: Metadata, key: string, keys: seq<string>, c: Primitives)
    requires Collectable(View(d))
  {
    exists m :: Authentic(View(Sealed(d, Described(metadata, FilesOf(View(d), c.hash)), key, c)), keys, m, c)
  }

  ghost predicate AlwaysVerifies(d: Disk)
    requires Collectable(View(d))
  {
    forall metadata: Metadata, key, keys, c: Primitives :: Lawful(c) && InRange(metadata.ciRunId) && c.publicOf(key) in keys ==>
      Verifies(d, metadata, key, keys, c)
  }

  /** What is authentic can be read, and both files are there. */
  lemma AuthenticReads(d: Disk, keys: seq<string>, m: Manifest, c: Primitives)
    requires Valid(d) && Authentic(View(d), keys, m, c)
    ensures ReadAt(d, MANIFEST).Some? && ReadAt(d, SIGNATURE).Some?
    ensures c.decode64(ReadAt(d, SIGNATURE).value).Some?
    ensures Trusted(keys, ReadAt(d, MANIFEST).value, c.decode64(ReadAt(d, SIGNATURE).value).value, c)
    ensures Unmarshal(c.text(ReadAt(d, MANIFEST).value)) == Some(m)
    ensures Collectable(View(d)) && m.files == FilesOf(View(d), c.hash)
  {
    ViewReads(d, MANIFEST_NAME);
    ViewReads(d, SIGNATURE_NAME);
  }

  /** A name that leads to no file is no more readable after the writing. */
  lemma StaysUnreadable(d: Disk, m: Manifest, key: string, c: Primitives, s: Spot)
    requires Valid(d) && !LeadsToFile(d, s)
    ensures ReadAt(Sealed(d, m, key, c), s) == None
  {
    var between := Written(d, MANIFEST, c.utf8(Marshal(m)));
    LeadsToFileAfterWrite(d, MANIFEST, c.utf8(Marshal(m)), s);
    LeadsToFileAfterWrite(between, SIGNATURE, SignatureText(m, key, c), s);
  }

  /** Two names for one file: both read the signature, which does not sign itself. */
  lemma OneFileFails(d: Disk, m: Manifest, key: string, keys: seq<string>, n: Manifest)
    requires Valid(d) && OneFile(d)
    ensures !Authentic(View(Sealed(d, m, key, Transparent())), keys, n, Transparent())
  {
    var c := Transparent();
    var between, sealed := Written(d, MANIFEST, Marshal(m)), Sealed(d, m, key, c);
    WrittenIsValid(d, MANIFEST, Marshal(m));
    SealedIsValid(d, m, key, c);
    LeadsToFileAfterWrite(d, MANIFEST, Marshal(m), SIGNATURE);
    LeadsToFileAfterWrite(d, MANIFEST, Marshal(m), MANIFEST);
    SameFileAfterWrite(d, MANIFEST, Marshal(m), End(d, SIGNATURE).value, End(d, MANIFEST).value);
    ReadAfterWrite(between, SIGNATURE, SignatureText(m, key, c), MANIFEST);
    ReadAfterWrite(between, SIGNATURE, SignatureText(m, key, c), SIGNATURE);
    assert |SignatureText(m, key, c)| == |Marshal(m)| + 1;
    if Authentic(View(sealed), keys, n, c) {
      AuthenticReads(sealed, keys, n, c);
    }
  }

  /** With hashes that hide nothing, an artifact that is authentic has the payload that was sealed. */
  lemma AuthenticKeeps(d: Disk, metadata: Metadata, key: string, keys: seq<string>, n: Manifest)
    requires Valid(d) && Listable(View(d)) && TwoFiles(d) && InRange(metadata.ciRunId)
    requires var m := Described(metadata, FilesOf(View(d), Transparent().hash));
      Authentic(View(Sealed(d, m, key, Transparent())), keys, n, Transparent())
    ensures Keeps(d, metadata, key, Transparent())
  {
    var c := Transparent();
    var m := Described(metadata, FilesOf(View(d), c.hash));
    var sealed := Sealed(d, m, key, c);
    SealedIsValid(d, m, key, c);
    AuthenticReads(sealed, keys, n, c);
    ReadTwice(d, Marshal(m), SignatureText(m, key, c));
    DescribedIsWritable(View(d), metadata, c.hash);
    ManifestRoundTrip(m);
    SameListing(View(d), View(sealed));
  }

  lemma SameListing(tree: Tree, other: Tree)
    requires Collectable(tree) && Collectable(other)
    requires FilesOf(tree, Transparent().hash) == FilesOf(other, Transparent().hash)
    ensures Payload(tree) == Payload(other)
  {
    FilesOfExactly(tree, other, Transparent().hash);
    forall p | p in Payload(tree) ensures tree[p] == other[p] {
      assert FileAt(tree, p, Transparent().hash).sha256 == FileAt(other, p, Transparent().hash).sha256;
    }
  }

  lemma NotApartFails(d: Disk) returns (metadata: Metadata)
    requires Valid(d) && Listable(View(d)) && !Apart(d)
    ensures InRange(metadata.ciRunId) && !Verifies(d, metadata, "", [""], Transparent())
  {
    var c := Transparent();
    metadata := Plainly("");
    if !TwoFiles(d) {
      var m := Described(metadata, FilesOf(View(d), c.hash));
      forall n ensures !Authentic(View(Sealed(d, m, "", c)), [""], n, c) {
        if OneFile(d) {
          OneFileFails(d, m, "", [""], n);
        } else {
          var s := if LeadsToFile(d, MANIFEST) then SIGNATURE else MANIFEST;
          StaysUnreadable(d, m, "", c, s);
          SealedIsValid(d, m, "", c);
          if Authentic(View(Sealed(d, m, "", c)), [""], n, c) {
            AuthenticReads(Sealed(d, m, "", c), [""], n, c);
          }
        }
      }
    } else {
      metadata := NotKept(d);
      if Verifies(d, metadata, "", [""], c) {
        var m := Described(metadata, FilesOf(View(d), c.hash));
        var n :| Authentic(View(Sealed(d, m, "", c)), [""], n, c);
        AuthenticKeeps(d, metadata, "", [""], n);
      }
    }
  }

  /** Whatever is sealed, and verified with the signing key among the trusted ones, is accepted, if
      and only if the two names lead to two files and neither of them is in the payload. */
  lemma VerifiesExactly(d: Disk)
    requires Valid(d) && Listable(View(d))
    ensures AlwaysVerifies(d) <==> Apart(d)
  {
    if Apart(d) {
      forall metadata: Metadata, key, keys, c: Primitives | Lawful(c) && InRange(metadata.ciRunId) && c.publicOf(key) in keys
        ensures Verifies(d, metadata, key, keys, c)
      {
        SealThenVerify(d, metadata, key, keys, c);
      }
    } else {
      var metadata := NotApartFails(d);
      TransparentIsLawful();
      assert Transparent().publicOf("") in [""];
    }
  }

  // ----- The two failing inputs -----

  /** An application file, and a manifest name that leads to it; or a signature name that leads to the
      manifest. */
  function LinkedDisk(manifest: Node, signature: Node, app: string): Disk {
    Disk(map[Inside(".") := Folder, Inside("app") := Plain(0), MANIFEST := manifest, SIGNATURE := signature],
         map[0 := app, 1 := "", 2 := ""], 3)
  }

  lemma LinksFail(app: string)
    ensures !Spares(LinkedDisk(Link(Inside("app")), Plain(1), app), MANIFEST)
    ensures OneFile(LinkedDisk(Plain(1), Link(MANIFEST), app))
  {
    NamesDiffer();
    assert |MANIFEST_NAME| == 13 && |SIGNATURE_NAME| == 16 && |"app"| == 3 && |"."| == 1;
    var d := LinkedDisk(Link(Inside("app")), Plain(1), app);
    assert PayloadSpot(Inside("app")) && SameFile(d, Inside("app"), Inside("app"));
  }

  class Artifact {
    const c: Primitives
    var disk: Disk

    constructor (c: Primitives, disk: Disk)
      ensures this.c == c && this.disk == disk
    {
      this.c, this.disk := c, disk;
    }

    /** collectFiles: the walk may meet the entries in any order and may fail at any of them. */
    method CollectFiles() returns (files: Option<seq<File>>, broken: bool)
      ensures files.Some? ==> Collectable(View(disk)) && files.value == FilesOf(View(disk), c.hash)
      ensures files.None? ==> broken || !Collectable(View(disk))
    {
      var tree := View(disk);
      var walk := ListKeys(tree);
      ghost var names := walk[..];
      var found: seq<File> := [];
      for i := 0 to walk.Length
        invariant walk[..] == names && Gatherable(names[..i], tree)
        invariant found == Gathered(names[..i], tree, c.hash)
      {
        assert names[..i + 1] == names[..i] + [names[i]] && names[i] in Elements(names);
        broken := Any();
        if broken {
          return None, true;
        }
        var path := walk[i];
        if IsPayload(tree, path) {
          if !tree[path].Regular? {
            return None, false;
          }
          found := found + [FileAt(tree, path, c.hash)];
        }
      }
      assert names[..walk.Length] == names;
      WholeWalk(names, tree, c.hash);
      files, broken := Some(SortByPath(found)), false;
    }

    /** writePrivateFile, which can fail before it has written anything or half-way through. */
    method WriteFile(s: Spot, content: string) returns (ok: bool, broken: bool)
      modifies this`disk
      ensures !ok ==> broken || !CanOpen(old(disk), s)
      ensures ok ==> disk == Written(old(disk), s, content)
      ensures disk == old(disk) || exists text :: disk == Written(old(disk), s, text)
    {
      if !CanOpen(disk, s) {
        return false, false;
      }
      broken := Any();
      var open: bool := Any();
      if broken && !open {
        return false, true;
      }
      ok := !broken;
      var written: string := Any();
      disk := Written(disk, s, if ok then content else written);
    }

    /** The two files of Seal, the manifest first. */
    method WriteBoth(bytes: string, signatureText: string) returns (ok: bool, broken: bool)
      requires Valid(disk) && Collectable(View(disk))
      modifies this`disk
      ensures !ok && !broken ==> !CanOpen(old(disk), MANIFEST) || !CanOpen(old(disk), SIGNATURE)
      ensures ok ==> disk == Written(Written(old(disk), MANIFEST, bytes), SIGNATURE, signatureText)
      ensures SparesPayload(old(disk)) ==> Payload(View(disk)) == Payload(View(old(disk)))
    {
      ok, broken := WriteFile(MANIFEST, bytes);
      KeptSoFar(old(disk), disk, MANIFEST);
      if !ok {
        return;
      }
      ghost var between := disk;
      CanOpenAfterWrite(old(disk), MANIFEST, bytes, SIGNATURE);
      ok, broken := WriteFile(SIGNATURE, signatureText);
      if SparesPayload(old(disk)) {
        KeptSoFar(between, disk, SIGNATURE);
      }
    }

    /** Seal.  Success leaves the sealed disk; and however it ends, a payload that is not at the end of
        one of the two names is kept. */
    method Seal(metadata: Metadata, key: string) returns (artifact: Option<(string, string)>, broken: bool)
      requires Valid(disk)
      modifies this`disk
      ensures artifact.None? && !broken ==>
        !Collectable(View(old(disk))) || !CanOpen(old(disk), MANIFEST) || !CanOpen(old(disk), SIGNATURE)
      ensures SparesPayload(old(disk)) ==> Payload(View(disk)) == Payload(View(old(disk)))
      ensures artifact.Some? ==> Collectable(View(old(disk)))
      ensures artifact.Some? ==>
        var m := Described(metadata, FilesOf(View(old(disk)), c.hash));
        && disk == Sealed(old(disk), m, key, c)
        && artifact.value == (c.hash(c.utf8(Marshal(m))), SignatureText(m, key, c))
    {
      var files;
      files, broken := CollectFiles();
      if files.None? {
        return None, broken;
      }
      var bytes := c.utf8(Marshal(Described(metadata, files.value)));
      var signatureText := c.encode64(c.sign(key, bytes));
      var ok;
      ok, broken := WriteBoth(bytes, signatureText);
      artifact := if ok then Some((c.hash(bytes), signatureText)) else None;
    }

    /** VerifyAny: an artifact is accepted exactly when it is authentic, file-system failures apart. */
    method VerifyAny(keys: seq<string>) returns (verified: Option<Manifest>, broken: bool)
      requires Valid(disk)
      ensures verified.Some? ==> Authentic(View(disk), keys, verified.value, c)
      ensures verified.None? ==> broken || forall m :: !Authentic(View(disk), keys, m, c)
    {
      broken := Any();
      if |keys| == 0 || broken {
        return None, broken;
      }
      ViewReads(disk, MANIFEST_NAME);
      ViewReads(disk, SIGNATURE_NAME);
      var bytes, signatureText := ReadAt(disk, MANIFEST), ReadAt(disk, SIGNATURE);
      if bytes.None? || signatureText.None? {
        return None, false;
      }
      var signature := c.decode64(signatureText.value);
      if signature.None? {
        return None, false;
      }
      var authenticated := Authenticate(keys, bytes.value, signature.value, c);
      if !authenticated {
        return None, false;
      }
      var manifest := Unmarshal(c.text(bytes.value));
      if manifest.None? || manifest.value.schema != SCHEMA {
        return None, false;
      }
      var actual;
      actual, broken := CollectFiles();
      if actual.None? {
        return None, broken;
      }
      var equal := EqualFiles(manifest.value.files, actual.value);
      verified := if equal then manifest else None;
    }
  }

  lemma CanOpenAfterWrite(d: Disk, s: Spot, content: string, q: Spot)
    ensures CanOpen(Written(d, s, content), q) <==> CanOpen(d, q)
  {
    FollowAfterWrite(d, s, content, q, HOPS);
  }

  /** One write, whole or not, from a disk that spares the payload. */
  lemma KeptSoFar(d: Disk, after: Disk, s: Spot)
    requires Valid(d) && Collectable(View(d))
    requires after == d || exists text :: after == Written(d, s, text)
    ensures Valid(after)
    ensures Spares(d, s) ==> Payload(View(after)) == Payload(View(d)) && Collectable(View(after))
    ensures Spares(after, SIGNATURE) <==> Spares(d, SIGNATURE)
  {
    if after != d {
      var text :| after == Written(d, s, text);
      WrittenIsValid(d, s, text);
      if Spares(d, s) {
        SparedPayload(d, s, text);
        SamePayloadSameFiles(View(d), View(after), x => x);
      }
      SparesAfterWrite(d, s, text, SIGNATURE);
    }
  }
}
