/** A repository's refs, symbolic ones included, and what `git update-ref -d` does to them. */
module GitRefs {
  import opened Decimal
  import opened GitReplies

  datatype Ref = Direct(oid: string) | Symbolic(target: string)

  type RefStore = map<string, Ref>

  /** How many symbolic refs git follows before it gives up. */
  const HOPS: nat := 5

  /** The direct ref at the end of a name, if there is one. */
  function Final(refs: RefStore, name: string, hops: nat): (r: Option<string>)
    ensures r.Some? ==> r.value in refs && refs[r.value].Direct?
    decreases hops
  {
    if name !in refs then None
    else match refs[name]
      case Direct(_) => Some(name)
      case Symbolic(target) => if hops == 0 then None else Final(refs, target, hops - 1)
  }

  predicate Resolves(refs: RefStore, name: string) {
    Final(refs, name, HOPS).Some?
  }

  /** Every name that leads to an object, with its object; for-each-ref leaves out dangling names. */
  function Values(refs: RefStore): Refs {
    map name | name in refs && Resolves(refs, name) :: refs[Final(refs, name, HOPS).value].oid
  }

  /** Those that `for-each-ref refs/heads` lists. */
  function Heads(refs: RefStore): Refs {
    map name | name in Values(refs) && IsHeadRef(name) :: Values(refs)[name]
  }

  /** `git update-ref -d REF OID` without `--no-deref`: the ref at the end of the name is removed, if it
      is at `oid`; git compares and deletes under one lock. */
  predicate RefDeleted(before: RefStore, after: RefStore, ref: string, oid: string) {
    && Resolves(before, ref)
    && var end := Final(before, ref, HOPS).value;
       before[end] == Direct(oid) && after == before - {end}
  }

  /** The name is a direct ref and no other name is symbolic to it. */
  predicate Untangled(refs: RefStore, ref: string) {
    ref in refs && refs[ref].Direct? && forall other :: other in refs ==> refs[other] != Symbolic(ref)
  }

  /** Without refs that no name is symbolic to, every other name leads where it led. */
  lemma {:induction false} FinalWithout(refs: RefStore, gone: set<string>, name: string, hops: nat)
    requires name !in gone && forall ref :: ref in gone ==> Untangled(refs, ref)
    ensures Final(refs - gone, name, hops) == Final(refs, name, hops)
    ensures Final(refs, name, hops).Some? ==> Final(refs, name, hops).value !in gone
    decreases hops
  {
    if name in refs && refs[name].Symbolic? && hops > 0 {
      FinalWithout(refs, gone, refs[name].target, hops - 1);
    }
  }

  lemma UntangledTaken(refs: RefStore, gone: set<string>)
    requires forall ref :: ref in gone ==> Untangled(refs, ref)
    ensures Values(refs - gone) == Values(refs) - gone && Heads(refs - gone) == Heads(refs) - gone
  {
    forall name | name !in gone
      ensures name in Values(refs - gone) <==> name in Values(refs)
      ensures name in Values(refs) ==> Values(refs - gone)[name] == Values(refs)[name]
    {
      FinalWithout(refs, gone, name, HOPS);
    }
    assert Values(refs - gone) == Values(refs) - gone;
  }

  /** A deletion takes just the named ref, of all that lead to an object, if and only if the name is
      direct and no other name is symbolic to it. */
  lemma DeletionExactly(before: RefStore, after: RefStore, ref: string, oid: string)
    requires RefDeleted(before, after, ref, oid)
    ensures Values(after) == Values(before) - {ref} <==> Untangled(before, ref)
  {
    var end := Final(before, ref, HOPS).value;
    if Untangled(before, ref) {
      UntangledTaken(before, {ref});
    } else if before[ref].Symbolic? {
      assert end != ref && end in Values(before) && end !in Values(after);
    } else {
      var other :| other in before && before[other] == Symbolic(ref);
      assert Final(before, ref, HOPS - 1) == Some(ref) && Final(after, ref, HOPS - 1) == None;
      assert other in Values(before) && other !in Values(after);
    }
  }

  /** The failing input: a branch that is symbolic to another one keeps its name, and the other one,
      at the same object, is removed. */
  lemma SymbolicRefTaken(main: string, feature: string, oid: string)
    requires main != feature
    ensures var before := map[main := Direct(oid), feature := Symbolic(main)];
      && RefDeleted(before, map[feature := Symbolic(main)], feature, oid)
      && Values(before) == map[main := oid, feature := oid] && Values(map[feature := Symbolic(main)]) == map[]
  {
    var before, after := map[main := Direct(oid), feature := Symbolic(main)], map[feature := Symbolic(main)];
    assert Final(before, main, HOPS - 1) == Some(main) && Final(after, main, HOPS - 1) == None;
    assert after == before - {main};
  }
}
