/** packaging/manifest.go: the JSON form of a manifest, as encoding/json writes and reads it. */
module ManifestJson {
  import opened Decimal
  import opened Json

  datatype File = File(path: string, bytes: int, sha256: string)

  datatype MainProof = MainProof(main: string, target: string, status: string)

  datatype Manifest = Manifest(
    schema: string, version: string, revision: string, createdAt: string, files: seq<File>,
    mainProof: Option<MainProof>, ciRunId: int, toolingSHA256: string)

  // ----- Writing -----

  function FileMembers(f: File): seq<Member> {
    [Member("path", TStr(f.path)), Member("bytes", TNum(FormatInt(f.bytes))), Member("sha256", TStr(f.sha256))]
  }

  function ProofMembers(p: MainProof): seq<Member> {
    [Member("main", TStr(p.main)), Member("target", TStr(p.target)), Member("status", TStr(p.status))]
  }

  function FileTrees(files: seq<File>): seq<Tree> {
    seq(|files|, i requires 0 <= i < |files| => TObj(FileMembers(files[i])))
  }

  /** A slice that nothing was appended to is nil, and prints as null. */
  function FilesTree(files: seq<File>): Tree {
    if files == [] then TNull else TArr(FileTrees(files))
  }

  function Required(m: Manifest): seq<Member> {
    [Member("schema", TStr(m.schema)), Member("version", TStr(m.version)), Member("revision", TStr(m.revision)),
     Member("createdAt", TStr(m.createdAt)), Member("files", FilesTree(m.files))]
  }

  function ManifestMembers(m: Manifest): seq<Member> {
    Required(m)
    + (if m.mainProof.Some? then [Member("mainProof", TObj(ProofMembers(m.mainProof.value)))] else [])
    + (if m.ciRunId != 0 then [Member("ciRunId", TNum(FormatInt(m.ciRunId)))] else [])
    + (if m.toolingSHA256 != "" then [Member("toolingSHA256", TStr(m.toolingSHA256))] else [])
  }

  /** json.Marshal: the fields in their declared order, the optional ones left out when zero. */
  function Marshal(m: Manifest): string {
    Render(TObj(ManifestMembers(m)), HtmlSafe)
  }

  // ----- Reading -----

  type Fields = map<string, Tree>

  predicate DistinctKeys(members: seq<Member>) {
    forall i, j :: 0 <= i < j < |members| ==> members[i].key != members[j].key
  }

  function FieldsOf(members: seq<Member>): (fields: Fields)
    ensures forall k :: k in fields ==> exists i :: 0 <= i < |members| && members[i].key == k
  {
    if members == [] then map[] else FieldsOf(members[1..])[members[0].key := members[0].value]
  }

  /** The members of an object; null stands for none; an unknown one is refused. */
  function ReadObject(t: Tree, known: set<string>): Option<Fields> {
    match t
    case TNull => Some(map[])
    case TObj(members) =>
      if DistinctKeys(members) && forall i :: 0 <= i < |members| ==> members[i].key in known
      then Some(FieldsOf(members)) else None
    case _ => None
  }

  function ReadString(fields: Fields, key: string): Option<string> {
    if key !in fields || fields[key] == TNull then Some("")
    else if fields[key].TStr? then Some(fields[key].s)
    else None
  }

  function ReadInt(fields: Fields, key: string): Option<int> {
    if key !in fields || fields[key] == TNull then Some(0)
    else if fields[key].TNum? then ParseInt(fields[key].token)
    else None
  }

  function ReadFile(t: Tree): Option<File> {
    match ReadObject(t, {"path", "bytes", "sha256"})
    case None => None
    case Some(fields) =>
      var path, bytes, sha256 := ReadString(fields, "path"), ReadInt(fields, "bytes"), ReadString(fields, "sha256");
      if path.None? || bytes.None? || sha256.None? then None else Some(File(path.value, bytes.value, sha256.value))
  }

  function ReadEach(items: seq<Tree>): Option<seq<File>> {
    if items == [] then Some([])
    else
      var first, rest := ReadFile(items[0]), ReadEach(items[1..]);
      if first.None? || rest.None? then None else Some([first.value] + rest.value)
  }

  function ReadFiles(fields: Fields): Option<seq<File>> {
    if "files" !in fields || fields["files"] == TNull then Some([])
    else if fields["files"].TArr? then ReadEach(fields["files"].items)
    else None
  }

  function ReadProof(fields: Fields): Option<Option<MainProof>> {
    if "mainProof" !in fields || fields["mainProof"] == TNull then Some(None)
    else
      match ReadObject(fields["mainProof"], {"main", "target", "status"})
      case None => None
      case Some(inner) =>
        var main, target, status := ReadString(inner, "main"), ReadString(inner, "target"), ReadString(inner, "status");
        if main.None? || target.None? || status.None? then None
        else Some(Some(MainProof(main.value, target.value, status.value)))
  }

  const KNOWN := {"schema", "version", "revision", "createdAt", "files", "mainProof", "ciRunId", "toolingSHA256"}

  function ReadManifest(fields: Fields): Option<Manifest> {
    var schema, version := ReadString(fields, "schema"), ReadString(fields, "version");
    var revision, createdAt := ReadString(fields, "revision"), ReadString(fields, "createdAt");
    var files, mainProof := ReadFiles(fields), ReadProof(fields);
    var ciRunId, tooling := ReadInt(fields, "ciRunId"), ReadString(fields, "toolingSHA256");
    if schema.None? || version.None? || revision.None? || createdAt.None? || files.None? || mainProof.None?
       || ciRunId.None? || tooling.None? then None
    else Some(Manifest(schema.value, version.value, revision.value, createdAt.value, files.value, mainProof.value,
                       ciRunId.value, tooling.value))
  }

  /** A decoder that disallows unknown fields, and then the end of the text. */
  function Unmarshal(text: string): Option<Manifest> {
    match Parse(text)
    case None => None
    case Some(t) =>
      match ReadObject(t, KNOWN)
      case None => None
      case Some(fields) => ReadManifest(fields)
  }

  // ----- Reading undoes writing -----

  lemma {:induction false} FieldFound(members: seq<Member>, m: Member)
    requires DistinctKeys(members) && m in members
    ensures m.key in FieldsOf(members) && FieldsOf(members)[m.key] == m.value
  {
    if m != members[0] {
      assert m in members[1..];
      FieldFound(members[1..], m);
      var i :| 0 <= i < |members[1..]| && members[1..][i] == m;
      assert members[i + 1] == m;
    }
  }

  predicate InRange(n: int) {
    MIN_INT64 <= n <= MAX_INT64
  }

  lemma FileRoundTrip(f: File)
    requires InRange(f.bytes)
    ensures ReadFile(TObj(FileMembers(f))) == Some(f)
  {
    var members := FileMembers(f);
    var path, bytes, sha := "path", "bytes", "sha256";
    assert |path| == 4 && |bytes| == 5 && |sha| == 6;
    FieldFound(members, members[0]);
    FieldFound(members, members[1]);
    FieldFound(members, members[2]);
    ParseFormat(f.bytes);
  }

  lemma ProofRoundTrip(p: MainProof)
    ensures ReadObject(TObj(ProofMembers(p)), {"main", "target", "status"}) == Some(FieldsOf(ProofMembers(p)))
    ensures ReadString(FieldsOf(ProofMembers(p)), "main") == Some(p.main)
    ensures ReadString(FieldsOf(ProofMembers(p)), "target") == Some(p.target)
    ensures ReadString(FieldsOf(ProofMembers(p)), "status") == Some(p.status)
  {
    var members := ProofMembers(p);
    var main, target, status := "main", "target", "status";
    assert |main| == 4 && target[0] == 't' && status[0] == 's' && main[0] == 'm';
    FieldFound(members, members[0]);
    FieldFound(members, members[1]);
    FieldFound(members, members[2]);
  }

  lemma {:induction false} EachRead(trees: seq<Tree>, files: seq<File>)
    requires |trees| == |files| && forall i :: 0 <= i < |files| ==> ReadFile(trees[i]) == Some(files[i])
    ensures ReadEach(trees) == Some(files)
  {
    if files != [] {
      EachRead(trees[1..], files[1..]);
      assert files == [files[0]] + files[1..];
    }
  }

  lemma FilesRoundTrip(files: seq<File>)
    requires forall i :: 0 <= i < |files| ==> InRange(files[i].bytes)
    ensures ReadEach(FileTrees(files)) == Some(files)
  {
    var trees := FileTrees(files);
    forall i | 0 <= i < |files| ensures ReadFile(trees[i]) == Some(files[i]) {
      FileRoundTrip(files[i]);
    }
    EachRead(trees, files);
  }

  predicate Writable(m: Manifest) {
    InRange(m.ciRunId) && forall i :: 0 <= i < |m.files| ==> InRange(m.files[i].bytes)
  }

  /** The place of a declared name, told by its length and first letter. */
  function Slot(name: string): int {
    if name == "" then -1
    else if |name| == 6 && name[0] == 's' then 0
    else if |name| == 7 && name[0] == 'v' then 1
    else if |name| == 8 && name[0] == 'r' then 2
    else if |name| == 9 && name[0] == 'c' then 3
    else if |name| == 5 && name[0] == 'f' then 4
    else if |name| == 9 && name[0] == 'm' then 5
    else if |name| == 7 && name[0] == 'c' then 6
    else if |name| == 13 && name[0] == 't' then 7
    else -1
  }

  lemma Slots()
    ensures Slot("schema") == 0 && Slot("version") == 1 && Slot("revision") == 2 && Slot("createdAt") == 3
    ensures Slot("files") == 4 && Slot("mainProof") == 5 && Slot("ciRunId") == 6 && Slot("toolingSHA256") == 7
  {
  }

  /** Declared names, each before the next, all before slot `n`. */
  predicate Slotted(members: seq<Member>, n: int) {
    && (forall i :: 0 <= i < |members| ==> Slot(members[i].key) < n && members[i].key in KNOWN)
    && (forall i, j :: 0 <= i < j < |members| ==> Slot(members[i].key) < Slot(members[j].key))
  }

  lemma SlottedOptional(members: seq<Member>, n: int, m: Member, present: bool)
    requires Slotted(members, n) && Slot(m.key) == n && m.key in KNOWN
    ensures Slotted(members + if present then [m] else [], n + 1)
  {
  }

  lemma RequiredSlotted(m: Manifest)
    ensures Slotted(Required(m), 5)
  {
    Slots();
    var names := ["schema", "version", "revision", "createdAt", "files"];
    forall i | 0 <= i < 5 ensures Slot(names[i]) == i && names[i] in KNOWN && Required(m)[i].key == names[i] {
    }
  }

  lemma MembersSlotted(m: Manifest)
    ensures Slotted(ManifestMembers(m), 8)
  {
    Slots();
    RequiredSlotted(m);
    var members := Required(m);
    var proof := Member("mainProof", if m.mainProof.Some? then TObj(ProofMembers(m.mainProof.value)) else TNull);
    SlottedOptional(members, 5, proof, m.mainProof.Some?);
    members := members + if m.mainProof.Some? then [proof] else [];
    SlottedOptional(members, 6, Member("ciRunId", TNum(FormatInt(m.ciRunId))), m.ciRunId != 0);
    members := members + if m.ciRunId != 0 then [Member("ciRunId", TNum(FormatInt(m.ciRunId)))] else [];
    SlottedOptional(members, 7, Member("toolingSHA256", TStr(m.toolingSHA256)), m.toolingSHA256 != "");
  }

  lemma SlottedDistinct(members: seq<Member>, n: int)
    requires Slotted(members, n)
    ensures DistinctKeys(members)
  {
    forall i, j | 0 <= i < j < |members| ensures members[i].key != members[j].key {
      assert Slot(members[i].key) < Slot(members[j].key);
    }
  }

  /** A field that was written is read back; one left out has no entry. */
  lemma WrittenField(m: Manifest, member: Member)
    requires member in ManifestMembers(m)
    ensures member.key in FieldsOf(ManifestMembers(m)) && FieldsOf(ManifestMembers(m))[member.key] == member.value
  {
    MembersSlotted(m);
    SlottedDistinct(ManifestMembers(m), 8);
    FieldFound(ManifestMembers(m), member);
  }

  lemma LeftOutField(m: Manifest, key: string)
    requires forall member :: member in ManifestMembers(m) ==> member.key != key
    ensures key !in FieldsOf(ManifestMembers(m))
  {
  }

  lemma RequiredIsWritten(m: Manifest, member: Member)
    requires member in Required(m)
    ensures member.key in FieldsOf(ManifestMembers(m)) && FieldsOf(ManifestMembers(m))[member.key] == member.value
  {
    assert member in ManifestMembers(m);
    WrittenField(m, member);
  }

  lemma TextsRead(m: Manifest)
    ensures var fields := FieldsOf(ManifestMembers(m));
      && ReadString(fields, "schema") == Some(m.schema) && ReadString(fields, "version") == Some(m.version)
      && ReadString(fields, "revision") == Some(m.revision) && ReadString(fields, "createdAt") == Some(m.createdAt)
  {
    RequiredIsWritten(m, Member("schema", TStr(m.schema)));
    RequiredIsWritten(m, Member("version", TStr(m.version)));
    RequiredIsWritten(m, Member("revision", TStr(m.revision)));
    RequiredIsWritten(m, Member("createdAt", TStr(m.createdAt)));
  }

  lemma RequiredRead(m: Manifest)
    requires Writable(m)
    ensures var fields := FieldsOf(ManifestMembers(m));
      && ReadString(fields, "schema") == Some(m.schema) && ReadString(fields, "version") == Some(m.version)
      && ReadString(fields, "revision") == Some(m.revision) && ReadString(fields, "createdAt") == Some(m.createdAt)
      && ReadFiles(fields) == Some(m.files)
  {
    TextsRead(m);
    RequiredIsWritten(m, Member("files", FilesTree(m.files)));
    FilesRoundTrip(m.files);
  }

  /** Which member can have an optional name: only its own. */
  lemma OnlyOwnName(m: Manifest, member: Member)
    requires member in ManifestMembers(m)
    ensures member.key == "mainProof" ==> m.mainProof.Some?
    ensures member.key == "ciRunId" ==> m.ciRunId != 0
    ensures member.key == "toolingSHA256" ==> m.toolingSHA256 != ""
  {
    Slots();
    RequiredSlotted(m);
    if member in Required(m) {
      assert Slot(member.key) < 5;
    }
  }

  lemma OptionalRead(m: Manifest)
    requires Writable(m)
    ensures var fields := FieldsOf(ManifestMembers(m));
      && ReadProof(fields) == Some(m.mainProof) && ReadInt(fields, "ciRunId") == Some(m.ciRunId)
      && ReadString(fields, "toolingSHA256") == Some(m.toolingSHA256)
  {
    ProofRead(m);
    forall member | member in ManifestMembers(m)
      ensures member.key == "ciRunId" ==> m.ciRunId != 0
      ensures member.key == "toolingSHA256" ==> m.toolingSHA256 != ""
    {
      OnlyOwnName(m, member);
    }
    if m.ciRunId != 0 {
      WrittenField(m, Member("ciRunId", TNum(FormatInt(m.ciRunId))));
      ParseFormat(m.ciRunId);
    } else {
      LeftOutField(m, "ciRunId");
    }
    if m.toolingSHA256 != "" {
      WrittenField(m, Member("toolingSHA256", TStr(m.toolingSHA256)));
    } else {
      LeftOutField(m, "toolingSHA256");
    }
  }

  lemma ProofRead(m: Manifest)
    ensures ReadProof(FieldsOf(ManifestMembers(m))) == Some(m.mainProof)
  {
    if m.mainProof.Some? {
      WrittenField(m, Member("mainProof", TObj(ProofMembers(m.mainProof.value))));
      ProofRoundTrip(m.mainProof.value);
    } else {
      forall member | member in ManifestMembers(m) ensures member.key != "mainProof" {
        OnlyOwnName(m, member);
      }
      LeftOutField(m, "mainProof");
    }
  }

  lemma FilesNumbersValid(files: seq<File>)
    ensures ValidNumbers(FilesTree(files))
  {
    forall i | 0 <= i < |files| ensures ValidNumbers(TObj(FileMembers(files[i]))) {
      FormatIntIsNumber(files[i].bytes);
    }
  }

  lemma NumbersValid(m: Manifest)
    ensures ValidNumbers(TObj(ManifestMembers(m)))
  {
    FormatIntIsNumber(m.ciRunId);
    FilesNumbersValid(m.files);
    forall i | 0 <= i < |Required(m)| ensures ValidNumbers(Required(m)[i].value) {
    }
    forall i | 0 <= i < |ManifestMembers(m)| ensures ValidNumbers(ManifestMembers(m)[i].value) {
      assert i < |Required(m)| ==> ManifestMembers(m)[i] == Required(m)[i];
    }
  }

  /** Reading back what was written gives the manifest, optional fields and all. */
  lemma ManifestRoundTrip(m: Manifest)
    requires Writable(m)
    ensures Unmarshal(Marshal(m)) == Some(m)
  {
    NumbersValid(m);
    ParseRender(TObj(ManifestMembers(m)), HtmlSafe);
    MembersSlotted(m);
    SlottedDistinct(ManifestMembers(m), 8);
    RequiredRead(m);
    OptionalRead(m);
  }

  /** So two manifests with the same signed text are the same manifest. */
  lemma MarshalInjective(m: Manifest, n: Manifest)
    requires Writable(m) && Writable(n) && Marshal(m) == Marshal(n)
    ensures m == n
  {
    ManifestRoundTrip(m);
    ManifestRoundTrip(n);
  }
}
