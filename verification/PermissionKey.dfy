/** github/types.go and the cache key of github/client.go: which requests share a cache entry. */
module PermissionKey {
  import opened Decimal
  import opened Ordering
  import opened Text

  type Permissions = map<string, string>

  function Entry(name: string, value: string): string {
    name + "=" + value + ";"
  }

  function Entries(names: seq<string>, p: Permissions): string
    requires forall n :: n in names ==> n in p
  {
    if names == [] then ""
    else Entry(names[0], p[names[0]]) + Entries(names[1..], p)
  }

  ghost function Key(p: Permissions): string {
    Entries(SortedKeys(p.Keys), p)
  }

  lemma {:induction false} EntriesSnoc(names: seq<string>, i: nat, p: Permissions)
    requires i < |names| && forall n :: n in names ==> n in p
    ensures Entries(names[..i + 1], p) == Entries(names[..i], p) + Entry(names[i], p[names[i]])
  {
    var longer, shorter := names[..i + 1], names[..i];
    if i == 0 {
      assert longer[1..] == [] && shorter == [];
      assert Entries(longer, p) == Entry(names[0], p[names[0]]) + Entries([], p);
    } else {
      EntriesSnoc(names[1..], i - 1, p);
      assert longer[1..] == names[1..][..i] && shorter[1..] == names[1..][..i - 1];
      Concatenated(Entry(names[0], p[names[0]]), Entries(shorter[1..], p), Entry(names[i], p[names[i]]));
    }
  }

  /** Permissions.key: the map's iteration order leaves no trace in the result. */
  method PermissionsKey(p: Permissions) returns (out: string)
    ensures out == Key(p)
  {
    out := "";
    if |p| == 0 {
      assert p.Keys == {};
      return;
    }
    var keys := ListSortedKeys(p);
    for i := 0 to keys.Length
      invariant keys[..] == SortedKeys(p.Keys)
      invariant out == Entries(SortedKeys(p.Keys)[..i], p)
    {
      var k := keys[i];
      assert k == SortedKeys(p.Keys)[i];
      EntriesSnoc(SortedKeys(p.Keys), i, p);
      out := out + (k + "=" + p[k] + ";");
    }
    assert SortedKeys(p.Keys)[..keys.Length] == SortedKeys(p.Keys);
  }

  /** What makes a key readable back: GitHub's own names and values are of this kind. */
  predicate Readable(p: Permissions) {
    forall n :: n in p ==> '=' !in n && ';' !in p[n]
  }

  lemma EntryCut(n: string, v: string, x: string, m: string, w: string, y: string)
    requires '=' !in n && '=' !in m && ';' !in v && ';' !in w
    requires Entry(n, v) + x == Entry(m, w) + y
    ensures n == m && v == w && x == y
  {
    assert Entry(n, v) + x == n + ['='] + (v + [';'] + x);
    assert Entry(m, w) + y == m + ['='] + (w + [';'] + y);
    CutEqual(n, m, '=', v + [';'] + x, w + [';'] + y);
    CutEqual(v, w, ';', x, y);
  }

  lemma {:induction false} EntriesInjective(names: seq<string>, p: Permissions, others: seq<string>, q: Permissions)
    requires forall n :: n in names ==> n in p
    requires forall n :: n in others ==> n in q
    requires Readable(p) && Readable(q)
    requires Entries(names, p) == Entries(others, q)
    ensures names == others && forall n :: n in names ==> p[n] == q[n]
  {
    if names != [] && others != [] {
      EntryCut(names[0], p[names[0]], Entries(names[1..], p), others[0], q[others[0]], Entries(others[1..], q));
      EntriesInjective(names[1..], p, others[1..], q);
      assert names == [names[0]] + names[1..] && others == [others[0]] + others[1..];
    } else {
      assert names == [] == others;
    }
  }

  /** Readable permission sets share a key only when they are the same set. */
  lemma KeyInjective(p: Permissions, q: Permissions)
    requires Readable(p) && Readable(q) && Key(p) == Key(q)
    ensures p == q
  {
    EntriesInjective(SortedKeys(p.Keys), p, SortedKeys(q.Keys), q);
    assert p.Keys == Elements(SortedKeys(p.Keys)) == q.Keys;
    forall n | n in p ensures p[n] == q[n] {
      var i := IndexOfKey(p.Keys, n);
    }
  }

  lemma KeyOfOne(n: string, v: string)
    ensures Key(map[n := v]) == Entry(n, v)
  {
    assert Elements([n]) == {n};
    SortedKeysUnique([n]);
    assert map[n := v].Keys == {n};
    assert Entries([n], map[n := v]) == Entry(n, v) + Entries([n][1..], map[n := v]);
  }

  lemma KeyOfTwo(n: string, v: string, m: string, w: string)
    requires Less(n, m)
    ensures Key(map[n := v, m := w]) == Entry(n, v) + Entry(m, w)
  {
    var p := map[n := v, m := w];
    LessIrreflexive(n);
    assert Elements([n, m]) == {n, m};
    SortedKeysUnique([n, m]);
    assert p.Keys == {n, m} && [n, m][1..] == [m];
    assert Entries([n, m], p) == Entry(n, v) + Entries([m], p);
    assert Entries([m], p) == Entry(m, w) + Entries([m][1..], p);
  }

  /** Neither half of the condition can be dropped. */
  lemma KeyCollisions()
    ensures Key(map["a" := ";b="]) == Key(map["a" := "", "b" := ""])
    ensures Key(map["a=;b" := ""]) == Key(map["a" := "", "b" := ""])
  {
    KeyOfOne("a", ";b=");
    KeyOfOne("a=;b", "");
    KeyOfTwo("a", "", "b", "");
    assert Entry("a", "") + Entry("b", "") == "a=;b=;" == Entry("a", ";b=");
    assert Entry("a=;b", "") == "a=;b=;";
  }

  // ----- The cache key -----

  /** `Owner` stands for an installation-wide grant. */
  datatype Scope = Repository(name: string) | Owner(name: string)

  datatype Request = Request(installation: int, scope: Scope, permissions: Permissions)

  function Label(scope: Scope): string {
    match scope
    case Repository(name) => name
    case Owner(name) => "owner:" + name
  }

  ghost function CacheKey(r: Request): string {
    FormatInt(r.installation) + "|" + Label(r.scope) + "|" + Key(r.permissions)
  }

  predicate Clean(r: Request) {
    '|' !in Label(r.scope) && Readable(r.permissions)
  }

  lemma FormatIntHasNoBar(n: int)
    ensures '|' !in FormatInt(n)
  {
    assert forall c :: c in Natural(if n < 0 then -n else n) ==> IsDigit(c);
  }

  lemma BarsCut(a: string, b: string, c: string)
    ensures a + "|" + b + "|" + c == a + ['|'] + (b + ['|'] + c)
  {
  }

  /** Clean requests share a cache entry only when installation, label and permissions agree. */
  lemma CacheKeyInjective(r: Request, t: Request)
    requires Clean(r) && Clean(t) && CacheKey(r) == CacheKey(t)
    ensures r.installation == t.installation && Label(r.scope) == Label(t.scope) && r.permissions == t.permissions
  {
    var a, b := FormatInt(r.installation), FormatInt(t.installation);
    var l, m := Label(r.scope), Label(t.scope);
    var x, y := Key(r.permissions), Key(t.permissions);
    FormatIntHasNoBar(r.installation);
    FormatIntHasNoBar(t.installation);
    BarsCut(a, l, x);
    BarsCut(b, m, y);
    CutEqual(a, b, '|', l + ['|'] + x, m + ['|'] + y);
    CutEqual(l, m, '|', x, y);
    KeyInjective(r.permissions, t.permissions);
    FormatIntInjective(r.installation, t.installation);
  }

  /** A request for one repository is served from the entry of an owner-wide grant exactly when the
      name of the repository spells the owner's label, the rest being equal. */
  lemma EntriesMeetExactly(r: Request, t: Request)
    requires Clean(r) && Clean(t) && r.scope.Repository? && t.scope.Owner?
    ensures CacheKey(r) == CacheKey(t) <==>
      r.installation == t.installation && r.permissions == t.permissions && r.scope.name == "owner:" + t.scope.name
  {
    if CacheKey(r) == CacheKey(t) {
      CacheKeyInjective(r, t);
    }
  }

  /** Scopes whose repository names do not begin with `owner:` are told apart by their labels. */
  lemma LabelInjective(a: Scope, b: Scope)
    requires a.Repository? ==> !("owner:" <= a.name)
    requires b.Repository? ==> !("owner:" <= b.name)
    requires Label(a) == Label(b)
    ensures a == b
  {
    if a.Owner? && b.Owner? {
      assert a.name == Label(a)[6..] && b.name == Label(b)[6..];
    }
  }
}
