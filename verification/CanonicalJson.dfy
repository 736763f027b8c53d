/** foundryoperator: the canonical JSON a proof is signed over. */
module CanonicalJson {
  import opened Decimal
  import opened Json
  import opened Ordering
  import Text

  /** A decoded value.  Objects are Go maps: unordered, one value per key. */
  datatype Value =
    | Null
    | Bool(b: bool)
    | Number(token: string)
    | Text(s: string)
    | Array(items: seq<Value>)
    | Object(fields: map<string, Value>)

  const MAX_SAFE_INTEGER := 0x1F_FFFF_FFFF_FFFF

  /** The test appendCanonical applies to a json.Number. */
  predicate SafeInteger(token: string) {
    match ParseInt(token)
    case None => false
    case Some(n) => -MAX_SAFE_INTEGER <= n <= MAX_SAFE_INTEGER && FormatInt(n) == token
  }

  predicate Printable(v: Value) {
    match v
    case Number(token) => SafeInteger(token)
    case Array(items) => forall i :: 0 <= i < |items| ==> Printable(items[i])
    case Object(fields) => forall k :: k in fields ==> Printable(fields[k])
    case _ => true
  }

  /** The syntax tree of the canonical text: every object's members in ascending key order. */
  ghost function Canon(v: Value): Tree
    decreases v, 1
  {
    match v
    case Null => TNull
    case Bool(b) => TBool(b)
    case Number(token) => TNum(token)
    case Text(s) => TStr(s)
    case Array(items) => TArr(CanonItems(items))
    case Object(fields) => TObj(CanonMembers(SortedKeys(fields.Keys), fields, v))
  }

  ghost function CanonItems(items: seq<Value>): (r: seq<Tree>)
    ensures |r| == |items|
    ensures forall i :: 0 <= i < |items| ==> r[i] == Canon(items[i])
    decreases items, 0
  {
    if items == [] then [] else [Canon(items[0])] + CanonItems(items[1..])
  }

  ghost function CanonMembers(keys: seq<string>, fields: map<string, Value>, v: Value): (r: seq<Member>)
    requires v == Object(fields)
    requires forall k :: k in keys ==> k in fields
    ensures |r| == |keys|
    ensures forall i :: 0 <= i < |keys| ==> r[i] == Member(keys[i], Canon(fields[keys[i]]))
    decreases v, 0, |keys|
  {
    if keys == [] then []
    else [Member(keys[0], Canon(fields[keys[0]]))] + CanonMembers(keys[1..], fields, v)
  }

  ghost function CanonicalText(v: Value): string {
    Render(Canon(v), Plain)
  }

  // ----- The number rule -----

  /** Accepted tokens are exactly the decimal forms of the integers within plus or minus 2^53-1. */
  lemma SafeIntegerExactly(token: string)
    ensures SafeInteger(token) <==>
      exists n :: -MAX_SAFE_INTEGER <= n <= MAX_SAFE_INTEGER && token == FormatInt(n)
  {
    forall n | -MAX_SAFE_INTEGER <= n <= MAX_SAFE_INTEGER && token == FormatInt(n)
      ensures SafeInteger(token)
    {
      ParseFormat(n);
    }
  }

  lemma {:induction false} PrintableNumbersAreValid(v: Value)
    requires Printable(v)
    ensures ValidNumbers(Canon(v))
    decreases v
  {
    match v
    case Number(token) =>
      FormatIntIsNumber(ParseInt(token).value);
    case Array(items) =>
      forall i | 0 <= i < |items| ensures ValidNumbers(Canon(items[i])) {
        PrintableNumbersAreValid(items[i]);
      }
    case Object(fields) =>
      forall k | k in fields ensures ValidNumbers(Canon(fields[k])) {
        PrintableNumbersAreValid(fields[k]);
      }
    case _ =>
  }

  // ----- Trees and the values they stand for -----

  /** Decoding a tree: the last member written for a key wins, as in encoding/json. */
  function Denote(t: Tree): Value {
    match t
    case TNull => Null
    case TBool(b) => Bool(b)
    case TNum(token) => Number(token)
    case TStr(s) => Text(s)
    case TArr(items) => Array(DenoteItems(items))
    case TObj(members) => Object(DenoteMembers(members))
  }

  function DenoteItems(items: seq<Tree>): (r: seq<Value>)
    ensures |r| == |items|
    ensures forall i :: 0 <= i < |items| ==> r[i] == Denote(items[i])
  {
    if items == [] then [] else [Denote(items[0])] + DenoteItems(items[1..])
  }

  function Keys(members: seq<Member>): (r: seq<string>)
    ensures |r| == |members|
    ensures forall i :: 0 <= i < |members| ==> r[i] == members[i].key
  {
    if members == [] then [] else [members[0].key] + Keys(members[1..])
  }

  function DenoteMembers(members: seq<Member>): (r: map<string, Value>)
    ensures r.Keys == Elements(Keys(members))
  {
    if members == [] then map[]
    else
      var rest := DenoteMembers(members[1..]);
      if members[0].key in rest then rest else rest[members[0].key := Denote(members[0].value)]
  }

  /** Keys ascend strictly in every object of the tree. */
  predicate Ordered(t: Tree) {
    match t
    case TArr(items) => forall i :: 0 <= i < |items| ==> Ordered(items[i])
    case TObj(members) =>
      && Ascending(Keys(members))
      && forall i :: 0 <= i < |members| ==> Ordered(members[i].value)
    case _ => true
  }

  lemma FirstNotRepeated(keys: seq<string>)
    requires Ascending(keys) && keys != []
    ensures Ascending(keys[1..]) && keys[0] !in keys[1..]
  {
    LessIrreflexive(keys[0]);
    forall i | 0 <= i < |keys[1..]| ensures keys[1..][i] != keys[0] {
      assert Less(keys[0], keys[i + 1]);
    }
  }

  lemma {:induction false} DenoteMembersAt(members: seq<Member>, i: nat)
    requires i < |members| && Ascending(Keys(members))
    ensures members[i].key in DenoteMembers(members)
    ensures DenoteMembers(members)[members[i].key] == Denote(members[i].value)
  {
    FirstDenoted(members);
    if i > 0 {
      DenoteMembersAt(members[1..], i - 1);
      assert members[i] == members[1..][i - 1] && Keys(members)[1..][i - 1] == members[i].key;
    }
  }

  lemma FirstDenoted(members: seq<Member>)
    requires members != [] && Ascending(Keys(members))
    ensures Keys(members)[1..] == Keys(members[1..]) && Ascending(Keys(members[1..]))
    ensures members[0].key !in Keys(members[1..])
    ensures DenoteMembers(members) == DenoteMembers(members[1..])[members[0].key := Denote(members[0].value)]
  {
    assert Keys(members)[1..] == Keys(members[1..]);
    FirstNotRepeated(Keys(members));
    assert members[0].key !in Elements(Keys(members[1..]));
  }

  lemma {:induction false} CanonIsOrdered(v: Value)
    ensures Ordered(Canon(v))
    decreases v
  {
    match v
    case Array(items) =>
      forall i | 0 <= i < |items| ensures Ordered(Canon(items[i])) {
        CanonIsOrdered(items[i]);
      }
    case Object(fields) =>
      forall k | k in fields ensures Ordered(Canon(fields[k])) {
        CanonIsOrdered(fields[k]);
      }
      CanonKeys(v);
    case _ =>
  }

  lemma CanonKeys(v: Value)
    requires v.Object?
    ensures Keys(Canon(v).members) == SortedKeys(v.fields.Keys)
  {
  }

  lemma DenoteCanonObject(v: Value)
    requires v.Object?
    requires forall k :: k in v.fields ==> Denote(Canon(v.fields[k])) == v.fields[k]
    ensures DenoteMembers(Canon(v).members) == v.fields
  {
    var members := Canon(v).members;
    CanonKeys(v);
    forall k | k in v.fields ensures DenoteMembers(members)[k] == v.fields[k] {
      var i := IndexOfKey(v.fields.Keys, k);
      DenoteMembersAt(members, i);
    }
  }

  lemma {:induction false} DenoteCanon(v: Value)
    ensures Denote(Canon(v)) == v
    decreases v
  {
    match v
    case Array(items) =>
      forall i | 0 <= i < |items| ensures Denote(Canon(items[i])) == items[i] {
        DenoteCanon(items[i]);
      }
      assert DenoteItems(CanonItems(items)) == items;
    case Object(fields) =>
      forall k | k in fields ensures Denote(Canon(fields[k])) == fields[k] {
        DenoteCanon(fields[k]);
      }
      DenoteCanonObject(v);
    case _ =>
  }

  lemma {:induction false} CanonDenote(t: Tree)
    requires Ordered(t)
    ensures Canon(Denote(t)) == t
    decreases t
  {
    match t
    case TArr(items) =>
      forall i | 0 <= i < |items| ensures Canon(Denote(items[i])) == items[i] {
        CanonDenote(items[i]);
      }
    case TObj(members) =>
      var fields := DenoteMembers(members);
      var keys := Keys(members);
      SortedKeysUnique(keys);
      var again := CanonMembers(keys, fields, Denote(t));
      forall i | 0 <= i < |members| ensures again[i] == members[i] {
        DenoteMembersAt(members, i);
        CanonDenote(members[i].value);
      }
      assert again == members;
    case _ =>
  }

  // ----- Main results -----

  predicate SafeNumbers(t: Tree) {
    match t
    case TNum(token) => SafeInteger(token)
    case TArr(items) => forall i :: 0 <= i < |items| ==> SafeNumbers(items[i])
    case TObj(members) => forall i :: 0 <= i < |members| ==> SafeNumbers(members[i].value)
    case _ => true
  }

  lemma MemberByMember(fields: map<string, Value>, keys: seq<string>, members: seq<Member>)
    requires keys == SortedKeys(fields.Keys) && |members| == |keys|
    requires forall i :: 0 <= i < |keys| ==> (SafeNumbers(members[i].value) <==> Printable(fields[keys[i]]))
    ensures Printable(Object(fields)) <==> SafeNumbers(TObj(members))
  {
    forall k | k in fields && SafeNumbers(TObj(members)) ensures Printable(fields[k]) {
      var i := IndexOfKey(fields.Keys, k);
      assert SafeNumbers(members[i].value);
    }
  }

  lemma {:induction false} PrintableIffSafeNumbers(v: Value)
    ensures Printable(v) <==> SafeNumbers(Canon(v))
    decreases v
  {
    match v
    case Array(items) =>
      forall i | 0 <= i < |items| ensures Printable(items[i]) <==> SafeNumbers(Canon(items[i])) {
        PrintableIffSafeNumbers(items[i]);
      }
    case Object(fields) =>
      var keys, members := SortedKeys(fields.Keys), Canon(v).members;
      forall i | 0 <= i < |keys| ensures SafeNumbers(members[i].value) <==> Printable(fields[keys[i]]) {
        PrintableIffSafeNumbers(fields[keys[i]]);
      }
      MemberByMember(fields, keys, members);
    case _ =>
  }

  /** Any conforming parser reads back the value itself, with the keys of every object in
      ascending order and nothing left over. */
  lemma ParseCanonicalText(v: Value)
    requires Printable(v)
    ensures Parse(CanonicalText(v)) == Some(Canon(v))
    ensures Ordered(Canon(v)) && Denote(Canon(v)) == v
  {
    PrintableNumbersAreValid(v);
    ParseRender(Canon(v), Plain);
    CanonIsOrdered(v);
    DenoteCanon(v);
  }

  /** Two values never share a canonical text. */
  lemma CanonicalTextInjective(v: Value, w: Value)
    requires Printable(v) && Printable(w)
    requires CanonicalText(v) == CanonicalText(w)
    ensures v == w
  {
    ParseCanonicalText(v);
    ParseCanonicalText(w);
  }

  /** The printer's outputs are exactly the texts that parse to an ordered tree with safe
      numbers and are already written the one compact way. */
  predicate IsCanonical(text: string) {
    match Parse(text)
    case None => false
    case Some(t) => Ordered(t) && SafeNumbers(t) && Render(t, Plain) == text
  }

  lemma CanonicalExactly(text: string)
    ensures IsCanonical(text) <==> exists v :: Printable(v) && CanonicalText(v) == text
  {
    if IsCanonical(text) {
      var t := Parse(text).value;
      CanonDenote(t);
      PrintableIffSafeNumbers(Denote(t));
      assert CanonicalText(Denote(t)) == text;
    }
    forall v | Printable(v) && CanonicalText(v) == text ensures IsCanonical(text) {
      ParseCanonicalText(v);
      PrintableIffSafeNumbers(v);
    }
  }

  /** Parsing an output and printing what was parsed changes nothing. */
  lemma PrintParsed(text: string)
    requires IsCanonical(text)
    ensures var v := Denote(Parse(text).value); Printable(v) && CanonicalText(v) == text
  {
    var t := Parse(text).value;
    CanonDenote(t);
    PrintableIffSafeNumbers(Denote(t));
  }

  // ----- The printer itself -----

  /** bytes.Buffer, as far as the printer uses it. */
  class Buffer {
    var contents: string

    constructor ()
      ensures contents == ""
    {
      contents := "";
    }

    method Write(s: string)
      modifies this
      ensures contents == old(contents) + s
    {
      contents := contents + s;
    }
  }

  lemma {:induction false} EscapeAllIsConcatMap(f: char -> string, s: string, style: Style)
    requires forall c :: f(c) == Escape(c, style)
    ensures EscapeAll(s, style) == Text.ConcatMap(f, s)
  {
    if s != "" {
      EscapeAllIsConcatMap(f, s[1..], style);
    }
  }

  lemma EscapeAllSnoc(s: string, i: nat, style: Style)
    requires i < |s|
    ensures EscapeAll(s[..i + 1], style) == EscapeAll(s[..i], style) + Escape(s[i], style)
  {
    var f := c => Escape(c, style);
    EscapeAllIsConcatMap(f, s[..i + 1], style);
    EscapeAllIsConcatMap(f, s[..i], style);
    Text.ConcatMapSnoc(f, s, i);
  }

  method AppendCharacter(output: Buffer, character: char)
    modifies output
    ensures output.contents == old(output.contents) + Escape(character, Plain)
  {
    if character == '"' || character == '\\' {
      output.Write("\\");
      output.Write([character]);
    } else if character == '\U{8}' {
      output.Write("\\b");
    } else if character == '\U{c}' {
      output.Write("\\f");
    } else if character == '\n' {
      output.Write("\\n");
    } else if character == '\r' {
      output.Write("\\r");
    } else if character == '\t' {
      output.Write("\\t");
    } else if character < ' ' {
      output.Write("\\u00");
      output.Write([HexDigit(character as int / 16)]);
      output.Write([HexDigit(character as int % 16)]);
    } else {
      output.Write([character]);
    }
  }

  method AppendJSONString(output: Buffer, value: string)
    modifies output
    ensures output.contents == old(output.contents) + Quote(value, Plain)
  {
    output.Write("\"");
    ghost var start := output.contents;
    for i := 0 to |value|
      invariant output.contents == start + EscapeAll(value[..i], Plain)
    {
      AppendCharacter(output, value[i]);
      EscapeAllSnoc(value, i, Plain);
      Text.Concatenated(start, EscapeAll(value[..i], Plain), Escape(value[i], Plain));
    }
    assert value[..|value|] == value;
    output.Write("\"");
    Text.Surrounded(old(output.contents), "\"", EscapeAll(value, Plain), "\"");
  }

  function RenderEach(items: seq<Tree>): (r: seq<string>)
    ensures |r| == |items|
    ensures forall i :: 0 <= i < |items| ==> r[i] == Render(items[i], Plain)
    ensures Text.Join(r, ",") == RenderItems(items, Plain)
  {
    if items == [] then []
    else
      var rest := RenderEach(items[1..]);
      assert ([Render(items[0], Plain)] + rest)[1..] == rest;
      [Render(items[0], Plain)] + rest
  }

  ghost function ItemTexts(items: seq<Value>): (r: seq<string>)
    ensures |r| == |items|
    ensures forall i :: 0 <= i < |items| ==> r[i] == CanonicalText(items[i])
    ensures Text.Join(r, ",") == RenderItems(CanonItems(items), Plain)
  {
    RenderEach(CanonItems(items))
  }

  function RenderEachMember(members: seq<Member>): (r: seq<string>)
    ensures |r| == |members|
    ensures forall i :: 0 <= i < |members| ==> r[i] == RenderMember(members[i], Plain)
    ensures Text.Join(r, ",") == RenderMembers(members, Plain)
  {
    if members == [] then []
    else
      var rest := RenderEachMember(members[1..]);
      assert ([RenderMember(members[0], Plain)] + rest)[1..] == rest;
      [RenderMember(members[0], Plain)] + rest
  }

  /** Succeeds exactly on values whose numbers are all safe integers, and then appends
      exactly their canonical text, whatever order maps are walked in. */
  method AppendCanonical(output: Buffer, value: Value) returns (ok: bool)
    modifies output
    ensures ok <==> Printable(value)
    ensures ok ==> output.contents == old(output.contents) + CanonicalText(value)
    decreases value, 2
  {
    match value
    case Null =>
      output.Write("null");
      ok := true;
    case Bool(b) =>
      output.Write(if b then "true" else "false");
      ok := true;
    case Text(s) =>
      AppendJSONString(output, s);
      ok := true;
    case Number(token) =>
      var parsed := ParseInt(token);
      if parsed.None? || parsed.value < -MAX_SAFE_INTEGER || parsed.value > MAX_SAFE_INTEGER
         || FormatInt(parsed.value) != token {
        return false;
      }
      output.Write(token);
      ok := true;
    case Array(items) =>
      output.Write("[");
      ok := AppendItems(output, items, value);
      CloseContainer(output, ok, "]");
      Text.Surrounded(old(output.contents), "[", RenderItems(CanonItems(items), Plain), "]");
    case Object(fields) =>
      output.Write("{");
      ok := AppendFields(output, fields, value);
      CloseContainer(output, ok, "}");
      Text.Surrounded(old(output.contents), "{", RenderMembers(Canon(value).members, Plain), "}");
  }

  /** After an error the source returns at once and writes no closing bracket. */
  method CloseContainer(output: Buffer, ok: bool, bracket: string)
    modifies output
    ensures output.contents == if ok then old(output.contents) + bracket else old(output.contents)
  {
    if ok {
      output.Write(bracket);
    }
  }

  predicate PrintableUpTo(items: seq<Value>, n: nat)
    requires n <= |items|
  {
    n == 0 || (PrintableUpTo(items, n - 1) && Printable(items[n - 1]))
  }

  lemma {:induction false} PrintableUpToExactly(items: seq<Value>, n: nat)
    requires n <= |items|
    ensures PrintableUpTo(items, n) <==> forall i :: 0 <= i < n ==> Printable(items[i])
  {
    if n > 0 {
      PrintableUpToExactly(items, n - 1);
    }
  }

  method AppendItems(output: Buffer, items: seq<Value>, ghost value: Value) returns (ok: bool)
    requires value == Array(items)
    modifies output
    ensures ok <==> Printable(value)
    ensures ok ==> output.contents == old(output.contents) + RenderItems(CanonItems(items), Plain)
    decreases value, 1
  {
    ghost var start, texts := output.contents, ItemTexts(items);
    for index := 0 to |items|
      invariant PrintableUpTo(items, index)
      invariant output.contents == start + Text.Join(texts[..index], ",")
    {
      ok := AppendItem(output, items[index], index, texts[index]);
      if !ok {
        return;
      }
      Text.JoinSnoc(texts, index, ",");
      Text.Concatenated(start, Text.Join(texts[..index], ","), Text.Between(index, ",") + texts[index]);
    }
    assert texts[..|items|] == texts;
    PrintableUpToExactly(items, |items|);
    ok := true;
  }

  method AppendItem(output: Buffer, item: Value, index: nat, ghost text: string) returns (ok: bool)
    requires text == CanonicalText(item)
    modifies output
    ensures ok <==> Printable(item)
    ensures ok ==> output.contents == old(output.contents) + (Text.Between(index, ",") + text)
    decreases item, 3
  {
    if index > 0 {
      output.Write(",");
    }
    assert output.contents == old(output.contents) + Text.Between(index, ",");
    ok := AppendCanonical(output, item);
    Text.Concatenated(old(output.contents), Text.Between(index, ","), text);
  }

  method AppendFields(output: Buffer, fields: map<string, Value>, ghost value: Value) returns (ok: bool)
    requires value == Object(fields)
    modifies output
    ensures ok <==> forall k :: k in fields ==> Printable(fields[k])
    ensures ok ==> output.contents == old(output.contents) + RenderMembers(Canon(value).members, Plain)
    decreases value, 1
  {
    var keys := ListSortedKeys(fields);
    ghost var start, texts := output.contents, RenderEachMember(Canon(value).members);
    for index := 0 to keys.Length
      invariant keys[..] == SortedKeys(fields.Keys)
      invariant forall i :: 0 <= i < index ==> Printable(fields[keys[..][i]])
      invariant output.contents == start + Text.Join(texts[..index], ",")
    {
      var key := keys[index];
      assert key == keys[..][index];
      ok := AppendField(output, key, fields, value, index, texts[index]);
      if !ok {
        return;
      }
      Text.JoinSnoc(texts, index, ",");
      Text.Concatenated(start, Text.Join(texts[..index], ","), Text.Between(index, ",") + texts[index]);
    }
    forall k | k in fields ensures Printable(fields[k]) {
      var i := IndexOfKey(fields.Keys, k);
    }
    assert texts[..keys.Length] == texts;
    ok := true;
  }

  method AppendField(output: Buffer, key: string, fields: map<string, Value>, ghost value: Value,
                     index: nat, ghost text: string)
    returns (ok: bool)
    requires value == Object(fields) && key in fields
    requires text == RenderMember(Member(key, Canon(fields[key])), Plain)
    modifies output
    ensures ok <==> Printable(fields[key])
    ensures ok ==> output.contents == old(output.contents) + (Text.Between(index, ",") + text)
    decreases value, 0
  {
    if index > 0 {
      output.Write(",");
    }
    assert output.contents == old(output.contents) + Text.Between(index, ",");
    AppendJSONString(output, key);
    output.Write(":");
    ok := AppendCanonical(output, fields[key]);
    FieldText(old(output.contents), index, key, CanonicalText(fields[key]));
  }

  lemma FieldText(start: string, index: nat, key: string, text: string)
    ensures start + Text.Between(index, ",") + Quote(key, Plain) + ":" + text
         == start + (Text.Between(index, ",") + (Quote(key, Plain) + ":" + text))
  {
  }

  /** canonicalMarshal after json.Marshal and the decoder have produced `decoded`. */
  method CanonicalMarshal(decoded: Value) returns (text: Option<string>)
    ensures text == if Printable(decoded) then Some(CanonicalText(decoded)) else None
  {
    var output := new Buffer();
    var ok := AppendCanonical(output, decoded);
    assert ok ==> "" + CanonicalText(decoded) == CanonicalText(decoded);
    text := if ok then Some(output.contents) else None;
  }
}
