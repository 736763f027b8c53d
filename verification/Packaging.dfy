/** packaging/manifest.go: sealing an artifact directory and verifying it after transport. */
module Packaging {
  import opened Decimal
  import opened ManifestJson
  import opened Ordering
  import opened Text

  // ----- safeRelativePath -----

  predicate Proper(s: string) {
    s != "" && s != "." && s != ".."
  }

  /** path.Clean on a relative path: `..` takes back a name, and stays where there is none. */
  function CleanedFrom(kept: seq<string>, segments: seq<string>): seq<string>
    decreases |segments|
  {
    if segments == [] then kept
    else
      var s := segments[0];
      CleanedFrom(
        if s == "" || s == "." then kept
        else if s == ".." && kept != [] && kept[|kept| - 1] != ".." then kept[..|kept| - 1]
        else kept + [s],
        segments[1..])
  }

  function CleanRelative(path: string): string {
    var kept := CleanedFrom([], Split(path, '/'));
    if kept == [] then "." else Join(kept, "/")
  }

  predicate SafeRelativePath(path: string) {
    && path != "" && path[0] != '/'
    && CleanRelative(path) == path && path != ".." && !("../" <= path)
  }

  /** What cleaning keeps: climbs first, then proper names. */
  predicate ClimbsFirst(kept: seq<string>) {
    && (forall i :: 0 <= i < |kept| ==> kept[i] != "" && kept[i] != "." && '/' !in kept[i])
    && (forall i, j :: 0 <= i < j < |kept| && kept[j] == ".." ==> kept[i] == "..")
  }

  lemma {:induction false} CleanedClimbsFirst(kept: seq<string>, segments: seq<string>)
    requires ClimbsFirst(kept) && forall i :: 0 <= i < |segments| ==> '/' !in segments[i]
    ensures ClimbsFirst(CleanedFrom(kept, segments))
    decreases |segments|
  {
    if segments != [] {
      var s := segments[0];
      CleanedClimbsFirst(
        if s == "" || s == "." then kept
        else if s == ".." && kept != [] && kept[|kept| - 1] != ".." then kept[..|kept| - 1]
        else kept + [s],
        segments[1..]);
    }
  }

  lemma {:induction false} CleaningProper(kept: seq<string>, segments: seq<string>)
    requires forall i :: 0 <= i < |segments| ==> Proper(segments[i])
    ensures CleanedFrom(kept, segments) == kept + segments
    decreases |segments|
  {
    if segments != [] {
      CleaningProper(kept + [segments[0]], segments[1..]);
      assert kept + [segments[0]] + segments[1..] == kept + segments;
    }
  }

  /** A path is safe exactly when it is `.` or all its segments are proper names. */
  lemma SafeExactly(path: string)
    ensures SafeRelativePath(path)
       <==> path == "." || forall i :: 0 <= i < |Split(path, '/')| ==> Proper(Split(path, '/')[i])
  {
    var segments := Split(path, '/');
    JoinSplit(path, '/');
    assert "/" == ['/'];
    var kept := CleanedFrom([], segments);
    if path == "." {
      assert segments == ["."] && segments[1..] == [];
      assert kept == CleanedFrom([], []);
    } else if forall i :: 0 <= i < |segments| ==> Proper(segments[i]) {
      CleaningProper([], segments);
      assert [] + segments == segments && segments == [segments[0]] + segments[1..];
      FirstSegment(segments[0], segments[1..]);
      assert path[0] != '/';
    } else if SafeRelativePath(path) {
      CleanedClimbsFirst([], segments);
      SplitJoin(kept, '/');
      assert segments == kept && kept == [kept[0]] + kept[1..];
      FirstSegment(kept[0], kept[1..]);
    }
  }

  // ----- The artifact directory -----

  /** An entry of the directory tree; reading through a symlink gives what it leads to, if anything. */
  datatype Entry = Regular(content: string) | Directory | Symlink(target: Option<string>) | Special

  type Tree = map<string, Entry>

  const MANIFEST_NAME := "manifest.json"
  const SIGNATURE_NAME := "manifest.ed25519"
  const SCHEMA := "packages-go.artifact.v1"

  /** Hashing, signing and text encoding are taken as they are; Lawful says what is relied on. */
  datatype Primitives = Primitives(
    hash: string -> string,
    publicOf: string -> string,
    sign: (string, string) -> string,
    verify: (string, string, string) -> bool,
    encode64: string -> string,
    decode64: string -> Option<string>,
    utf8: string -> string,
    text: string -> string)

  ghost predicate Lawful(c: Primitives) {
    && (forall key, message :: c.verify(c.publicOf(key), message, c.sign(key, message)))
    && (forall s :: c.decode64(c.encode64(s)) == Some(s))
    && (forall s :: c.text(c.utf8(s)) == s)
  }

  function ReadFileAt(tree: Tree, name: string): Option<string> {
    if name !in tree then None
    else match tree[name]
      case Regular(content) => Some(content)
      case Symlink(target) => target
      case _ => None
  }

  predicate IsPayload(tree: Tree, path: string) {
    path in tree && path != "." && !tree[path].Directory? && path != MANIFEST_NAME && path != SIGNATURE_NAME
  }

  function Payload(tree: Tree): Tree {
    map path | path in tree && IsPayload(tree, path) :: tree[path]
  }

  /** Nothing in the payload but regular files. */
  predicate Collectable(tree: Tree) {
    forall path :: path in Payload(tree) ==> tree[path].Regular?
  }

  function FileAt(tree: Tree, path: string, hash: string -> string): File
    requires path in tree && tree[path].Regular?
  {
    File(path, |tree[path].content|, hash(tree[path].content))
  }

  /** The payload as a manifest lists it: by path, each with its size and digest. */
  ghost function FilesOf(tree: Tree, hash: string -> string): seq<File>
    requires Collectable(tree)
  {
    var paths := SortedKeys(Payload(tree).Keys);
    seq(|paths|, i requires 0 <= i < |paths| => FileAt(tree, paths[i], hash))
  }

  /** Two payloads with the same listing have the same paths, sizes and digests, and only then. */
  lemma FilesOfExactly(tree: Tree, other: Tree, hash: string -> string)
    requires Collectable(tree) && Collectable(other)
    ensures FilesOf(tree, hash) == FilesOf(other, hash) <==>
      && Payload(tree).Keys == Payload(other).Keys
      && forall p :: p in Payload(tree) ==> FileAt(tree, p, hash) == FileAt(other, p, hash)
  {
    var paths, others := SortedKeys(Payload(tree).Keys), SortedKeys(Payload(other).Keys);
    var files, otherFiles := FilesOf(tree, hash), FilesOf(other, hash);
    if files == otherFiles {
      assert |paths| == |others|;
      forall i | 0 <= i < |paths| ensures paths[i] == others[i] {
        assert files[i].path == otherFiles[i].path;
      }
      assert paths == others;
      assert Elements(paths) == Payload(tree).Keys && Elements(others) == Payload(other).Keys;
      forall p | p in Payload(tree) ensures FileAt(tree, p, hash) == FileAt(other, p, hash) {
        var i := IndexOfKey(Payload(tree).Keys, p);
        assert files[i] == otherFiles[i];
      }
    }
  }

  // ----- Sorting by path -----

  function PathsOf(files: seq<File>): seq<string> {
    seq(|files|, i requires 0 <= i < |files| => files[i].path)
  }

  function InsertFile(f: File, files: seq<File>): (r: seq<File>)
    ensures Elements(r) == Elements(files) + {f}
  {
    if files == [] then [f]
    else
      assert files == [files[0]] + files[1..];
      if Less(f.path, files[0].path) then [f] + files
      else
        var rest := InsertFile(f, files[1..]);
        assert Elements([files[0]] + rest) == {files[0]} + Elements(rest);
        [files[0]] + rest
  }

  /** sort.Slice by path. */
  function SortByPath(files: seq<File>): (r: seq<File>)
    ensures Elements(r) == Elements(files)
  {
    if files == [] then []
    else
      assert files == [files[0]] + files[1..];
      InsertFile(files[0], SortByPath(files[1..]))
  }

  lemma {:induction false} InsertFileIsInsertKey(f: File, files: seq<File>)
    requires Ascending(PathsOf(files)) && f.path !in PathsOf(files)
    ensures PathsOf(InsertFile(f, files)) == InsertKey(f.path, PathsOf(files))
  {
    if files != [] && !Less(f.path, files[0].path) {
      assert PathsOf(files)[1..] == PathsOf(files[1..]);
      InsertFileIsInsertKey(f, files[1..]);
    }
  }

  lemma {:induction false} SortedAscends(files: seq<File>)
    requires DistinctPaths(files)
    ensures Ascending(PathsOf(SortByPath(files)))
    ensures Elements(PathsOf(SortByPath(files))) == Elements(PathsOf(files))
  {
    if files != [] {
      var rest := SortByPath(files[1..]);
      SortedAscends(files[1..]);
      assert PathsOf(files) == [files[0].path] + PathsOf(files[1..]);
      assert files[0].path !in Elements(PathsOf(files[1..]));
      InsertFileIsInsertKey(files[0], rest);
    }
  }

  /** The files of `tree` among `seen`, in the order they were seen. */
  function Gathered(seen: seq<string>, tree: Tree, hash: string -> string): (files: seq<File>)
    requires forall p :: p in seen ==> p in tree && (IsPayload(tree, p) ==> tree[p].Regular?)
  {
    if seen == [] then []
    else
      var n := |seen| - 1;
      Gathered(seen[..n], tree, hash) + if IsPayload(tree, seen[n]) then [FileAt(tree, seen[n], hash)] else []
  }

  predicate Gatherable(seen: seq<string>, tree: Tree) {
    && (forall p :: p in seen ==> p in tree && (IsPayload(tree, p) ==> tree[p].Regular?))
    && (forall i, j :: 0 <= i < j < |seen| ==> seen[i] != seen[j])
  }

  predicate FilesFrom(files: seq<File>, tree: Tree, hash: string -> string) {
    forall i :: 0 <= i < |files| ==>
      IsPayload(tree, files[i].path) && tree[files[i].path].Regular? && files[i] == FileAt(tree, files[i].path, hash)
  }

  predicate DistinctPaths(files: seq<File>) {
    forall i, j :: 0 <= i < j < |files| ==> files[i].path != files[j].path
  }

  lemma {:induction false} GatheredFiles(seen: seq<string>, tree: Tree, hash: string -> string)
    requires Gatherable(seen, tree)
    ensures FilesFrom(Gathered(seen, tree, hash), tree, hash) && DistinctPaths(Gathered(seen, tree, hash))
    ensures forall p :: p in PathsOf(Gathered(seen, tree, hash)) <==> p in seen && IsPayload(tree, p)
  {
    if seen != [] {
      var n := |seen| - 1;
      GatheredFiles(seen[..n], tree, hash);
      assert seen == seen[..n] + [seen[n]];
      var files := Gathered(seen[..n], tree, hash);
      assert seen[n] !in seen[..n];
      forall i | 0 <= i < |files| ensures files[i].path in seen[..n] {
        assert PathsOf(files)[i] == files[i].path;
      }
      if IsPayload(tree, seen[n]) {
        var f := FileAt(tree, seen[n], hash);
        assert PathsOf(files + [f]) == PathsOf(files) + [seen[n]];
      } else {
        assert files + [] == files;
      }
    }
  }

  lemma SortedMembers(files: seq<File>, i: nat, tree: Tree, hash: string -> string)
    requires FilesFrom(files, tree, hash) && i < |SortByPath(files)|
    ensures var f := SortByPath(files)[i];
      IsPayload(tree, f.path) && tree[f.path].Regular? && f == FileAt(tree, f.path, hash)
  {
    assert SortByPath(files)[i] in Elements(SortByPath(files));
  }

  /** Whatever order the walk met the files in, sorting gives the payload's listing. */
  lemma SortedListsPayload(files: seq<File>, tree: Tree, hash: string -> string)
    requires Collectable(tree) && FilesFrom(files, tree, hash) && DistinctPaths(files)
    requires Elements(PathsOf(files)) == Payload(tree).Keys
    ensures SortByPath(files) == FilesOf(tree, hash)
  {
    var sorted, paths := SortByPath(files), SortedKeys(Payload(tree).Keys);
    SortedAscends(files);
    SortedKeysUnique(PathsOf(sorted));
    assert |sorted| == |PathsOf(sorted)| == |paths|;
    forall i | 0 <= i < |sorted| ensures sorted[i] == FilesOf(tree, hash)[i] {
      SortedMembers(files, i, tree, hash);
      assert PathsOf(sorted)[i] == sorted[i].path;
    }
  }

  // ----- Authenticity -----

  predicate Trusted(keys: seq<string>, bytes: string, signature: string, c: Primitives) {
    exists i :: 0 <= i < |keys| && c.verify(keys[i], bytes, signature)
  }

  /** One of the keys signed the manifest bytes, they read as `m`, and the payload now is exactly
      what `m` lists, under safe names. */
  ghost predicate Authentic(tree: Tree, keys: seq<string>, m: Manifest, c: Primitives) {
    var bytes, signature := ReadFileAt(tree, MANIFEST_NAME), ReadFileAt(tree, SIGNATURE_NAME);
    && bytes.Some? && signature.Some? && c.decode64(signature.value).Some?
    && Trusted(keys, bytes.value, c.decode64(signature.value).value, c)
    && Unmarshal(c.text(bytes.value)) == Some(m) && m.schema == SCHEMA
    && Collectable(tree) && m.files == FilesOf(tree, c.hash)
    && forall i :: 0 <= i < |m.files| ==> SafeRelativePath(m.files[i].path)
  }

  /** equalFiles' loop. */
  method EqualFiles(left: seq<File>, right: seq<File>) returns (ok: bool)
    ensures ok <==> left == right && forall i :: 0 <= i < |left| ==> SafeRelativePath(left[i].path)
  {
    if |left| != |right| {
      return false;
    }
    for index := 0 to |left|
      invariant left[..index] == right[..index]
      invariant forall i :: 0 <= i < index ==> SafeRelativePath(left[i].path)
    {
      if left[index] != right[index] || !SafeRelativePath(left[index].path) {
        return false;
      }
    }
    assert left == left[..|left|] == right[..|left|] == right;
    ok := true;
  }

  /** The loop over the trusted keys, which stops at the first that authenticates. */
  method Authenticate(keys: seq<string>, bytes: string, signature: string, c: Primitives) returns (authenticated: bool)
    ensures authenticated == Trusted(keys, bytes, signature, c)
  {
    authenticated := false;
    for i := 0 to |keys|
      invariant !authenticated && forall j :: 0 <= j < i ==> !c.verify(keys[j], bytes, signature)
    {
      if c.verify(keys[i], bytes, signature) {
        return true;
      }
    }
  }

  datatype Metadata = Metadata(version: string, revision: string, createdAt: string,
                               mainProof: Option<MainProof>, ciRunId: int, toolingSHA256: string)

  function Described(metadata: Metadata, files: seq<File>): Manifest {
    Manifest(SCHEMA, metadata.version, metadata.revision, metadata.createdAt, files,
             metadata.mainProof, metadata.ciRunId, metadata.toolingSHA256)
  }

  lemma WholeWalk(names: seq<string>, tree: Tree, hash: string -> string)
    requires Gatherable(names, tree) && Elements(names) == tree.Keys
    ensures Collectable(tree) && SortByPath(Gathered(names, tree, hash)) == FilesOf(tree, hash)
  {
    forall p | p in Payload(tree) ensures tree[p].Regular? {
      assert p in Elements(names);
    }
    var files := Gathered(names, tree, hash);
    GatheredFiles(names, tree, hash);
    forall p ensures p in Elements(PathsOf(files)) <==> p in Payload(tree) {
      assert p in tree <==> p in Elements(names);
    }
    SortedListsPayload(files, tree, hash);
  }

  lemma SamePayloadSameFiles(before: Tree, after: Tree, hash: string -> string)
    requires Payload(after) == Payload(before) && Collectable(before)
    ensures Collectable(after) && FilesOf(after, hash) == FilesOf(before, hash)
  {
    forall p | p in Payload(after) ensures after[p] == before[p] {
      assert Payload(after)[p] == Payload(before)[p];
    }
    var paths := SortedKeys(Payload(after).Keys);
    forall i | 0 <= i < |paths| ensures after[paths[i]] == before[paths[i]] {
      assert paths[i] in Payload(after);
    }
  }

  /** A name a directory walk can give: proper segments joined by slashes. */
  predicate WalkName(path: string) {
    forall i :: 0 <= i < |Split(path, '/')| ==> Proper(Split(path, '/')[i])
  }

  lemma NamesDiffer()
    ensures MANIFEST_NAME != SIGNATURE_NAME
  {
    assert |MANIFEST_NAME| == 13 && |SIGNATURE_NAME| == 16;
  }

  /** After transport: with the same manifest, a payload that differs in its paths, or in the size or
      digest of any file, is not accepted as any manifest. */
  lemma TamperingShows(tree: Tree, other: Tree, keys: seq<string>, otherKeys: seq<string>, m: Manifest,
                       n: Manifest, c: Primitives)
    requires Authentic(tree, keys, m, c) && Authentic(other, otherKeys, n, c)
    requires ReadFileAt(tree, MANIFEST_NAME) == ReadFileAt(other, MANIFEST_NAME)
    ensures m == n && Payload(tree).Keys == Payload(other).Keys
    ensures forall p :: p in Payload(tree) ==> FileAt(tree, p, c.hash) == FileAt(other, p, c.hash)
  {
    FilesOfExactly(tree, other, c.hash);
  }
}
