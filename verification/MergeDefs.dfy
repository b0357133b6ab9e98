/** Folding several schema files into one namespace: definitions that differ only in documentation
    are the same, and a real disagreement stops the generator. */
module MergeDefs {
  import opened Options
  import opened Schemas

  /** The schema without titles and descriptions; the raw `additionalProperties` is kept as it is. */
  function StripDocs(s: Schema): Schema
    decreases s, 0
  {
    s.(title := "",
       description := "",
       properties := map k | k in s.properties :: StripDocs(s.properties[k]),
       definitions := map k | k in s.definitions :: StripDocs(s.definitions[k]),
       items := if s.items.Some? then Some(StripDocs(s.items.value)) else None,
       oneOf := StripAll(s.oneOf),
       anyOf := StripAll(s.anyOf),
       allOf := StripAll(s.allOf))
  }

  function StripAll(arms: seq<Schema>): (r: seq<Schema>)
    ensures |r| == |arms|
    decreases arms, |arms|
  {
    if arms == [] then [] else [StripDocs(arms[0])] + StripAll(arms[1..])
  }

  /** Equality of the marshalled forms. */
  predicate SameShape(a: Schema, b: Schema) {
    StripDocs(a) == StripDocs(b)
  }

  lemma {:induction false} StripAllAt(arms: seq<Schema>, i: nat)
    requires i < |arms|
    ensures StripAll(arms)[i] == StripDocs(arms[i])
    decreases |arms|
  {
    hide StripDocs;
    if i > 0 {
      StripAllAt(arms[1..], i - 1);
    }
  }

  /** Stripping documentation twice is stripping it once. */
  lemma {:induction false} StripDocsIdempotent(s: Schema)
    ensures StripDocs(StripDocs(s)) == StripDocs(s)
    decreases s, 0
  {
    var t := StripDocs(s);
    forall k | k in s.properties
      ensures StripDocs(t.properties[k]) == t.properties[k]
    {
      StripDocsIdempotent(s.properties[k]);
    }
    forall k | k in s.definitions
      ensures StripDocs(t.definitions[k]) == t.definitions[k]
    {
      StripDocsIdempotent(s.definitions[k]);
    }
    if s.items.Some? {
      StripDocsIdempotent(s.items.value);
    }
    StripAllIdempotent(s.oneOf);
    StripAllIdempotent(s.anyOf);
    StripAllIdempotent(s.allOf);
    StripTwice(s);
  }

  lemma StripTwice(s: Schema)
    requires var t := StripDocs(s);
      && (forall k :: k in s.properties ==> StripDocs(t.properties[k]) == t.properties[k])
      && (forall k :: k in s.definitions ==> StripDocs(t.definitions[k]) == t.definitions[k])
      && (s.items.Some? ==> StripDocs(t.items.value) == t.items.value)
      && StripAll(t.oneOf) == t.oneOf && StripAll(t.anyOf) == t.anyOf && StripAll(t.allOf) == t.allOf
    ensures StripDocs(StripDocs(s)) == StripDocs(s)
  {
    hide StripAll, StripDocs;
    var t := StripDocs(s);
    var u := StripDocs(t);
    StrippedFields(s);
    StrippedFields(t);
    SameMap(u.properties, t.properties);
    SameMap(u.definitions, t.definitions);
    assert u.items == t.items;
  }

  lemma SameMap(a: map<string, Schema>, b: map<string, Schema>)
    requires a.Keys == b.Keys && forall k :: k in a ==> a[k] == b[k]
    ensures a == b
  {
  }

  /** Stripping, field by field. */
  lemma StrippedFields(s: Schema)
    ensures var t := StripDocs(s);
      && t == s.(title := "", description := "", properties := t.properties, definitions := t.definitions,
                 items := t.items, oneOf := StripAll(s.oneOf), anyOf := StripAll(s.anyOf), allOf := StripAll(s.allOf))
      && t.properties.Keys == s.properties.Keys && t.definitions.Keys == s.definitions.Keys
      && (forall k :: k in s.properties ==> t.properties[k] == StripDocs(s.properties[k]))
      && (forall k :: k in s.definitions ==> t.definitions[k] == StripDocs(s.definitions[k]))
      && (t.items.Some? <==> s.items.Some?)
      && (s.items.Some? ==> t.items.value == StripDocs(s.items.value))
  {
    hide StripAll;
  }

  lemma {:induction false} StripAllIdempotent(arms: seq<Schema>)
    ensures StripAll(StripAll(arms)) == StripAll(arms)
    decreases arms, |arms|
  {
    hide StripDocs;
    if arms != [] {
      StripDocsIdempotent(arms[0]);
      StripAllIdempotent(arms[1..]);
      assert StripAll(arms)[1..] == StripAll(arms[1..]);
    }
  }

  // ---------- what having the same shape means ----------

  /** The schemas agree in everything the generator reads but titles and descriptions, at every depth. */
  ghost predicate OnlyDocsDiffer(a: Schema, b: Schema)
    decreases a
  {
    && a.ref == b.ref && a.typ == b.typ && a.enums == b.enums && a.required == b.required
    && a.additional == b.additional && a.format == b.format && a.absent == b.absent
    && a.properties.Keys == b.properties.Keys
    && (forall k :: k in a.properties && k in b.properties ==> OnlyDocsDiffer(a.properties[k], b.properties[k]))
    && a.definitions.Keys == b.definitions.Keys
    && (forall k :: k in a.definitions && k in b.definitions ==> OnlyDocsDiffer(a.definitions[k], b.definitions[k]))
    && (a.items.Some? <==> b.items.Some?)
    && (a.items.Some? && b.items.Some? ==> OnlyDocsDiffer(a.items.value, b.items.value))
    && ArmsOnlyDiffer(a.oneOf, b.oneOf) && ArmsOnlyDiffer(a.anyOf, b.anyOf) && ArmsOnlyDiffer(a.allOf, b.allOf)
  }

  ghost predicate ArmsOnlyDiffer(a: seq<Schema>, b: seq<Schema>)
    decreases a
  {
    |a| == |b| && forall i :: 0 <= i < |a| && i < |b| ==> OnlyDocsDiffer(a[i], b[i])
  }

  ghost predicate SameMaps(a: map<string, Schema>, b: map<string, Schema>) {
    a.Keys == b.Keys && forall k :: k in a && k in b ==> SameShape(a[k], b[k])
  }

  ghost predicate SameArms(a: seq<Schema>, b: seq<Schema>) {
    |a| == |b| && forall i :: 0 <= i < |a| && i < |b| ==> SameShape(a[i], b[i])
  }

  ghost predicate SameParts(a: Schema, b: Schema) {
    && a.ref == b.ref && a.typ == b.typ && a.enums == b.enums && a.required == b.required
    && a.additional == b.additional && a.format == b.format && a.absent == b.absent
    && SameMaps(a.properties, b.properties) && SameMaps(a.definitions, b.definitions)
    && (a.items.Some? <==> b.items.Some?)
    && (a.items.Some? && b.items.Some? ==> SameShape(a.items.value, b.items.value))
    && SameArms(a.oneOf, b.oneOf) && SameArms(a.anyOf, b.anyOf) && SameArms(a.allOf, b.allOf)
  }

  lemma SameArmsIff(a: seq<Schema>, b: seq<Schema>)
    ensures StripAll(a) == StripAll(b) <==> SameArms(a, b)
  {
    hide StripAll, StripDocs;
    forall i | 0 <= i < |a|
      ensures StripAll(a)[i] == StripDocs(a[i])
    {
      StripAllAt(a, i);
    }
    forall i | 0 <= i < |b|
      ensures StripAll(b)[i] == StripDocs(b[i])
    {
      StripAllAt(b, i);
    }
  }

  lemma SameMapsIff(a: map<string, Schema>, b: map<string, Schema>, s: map<string, Schema>, t: map<string, Schema>)
    requires s.Keys == a.Keys && forall k :: k in a ==> s[k] == StripDocs(a[k])
    requires t.Keys == b.Keys && forall k :: k in b ==> t[k] == StripDocs(b[k])
    ensures s == t <==> SameMaps(a, b)
  {
    hide StripDocs;
    if SameMaps(a, b) {
      SameMap(s, t);
    }
  }

  lemma EqualByFields(s: Schema, t: Schema)
    requires s.title == t.title && s.description == t.description
    ensures s == t <==>
      && s.ref == t.ref && s.typ == t.typ && s.enums == t.enums && s.required == t.required
      && s.additional == t.additional && s.format == t.format && s.absent == t.absent
      && s.properties == t.properties && s.definitions == t.definitions && s.items == t.items
      && s.oneOf == t.oneOf && s.anyOf == t.anyOf && s.allOf == t.allOf
  {
  }

  lemma SamePartsIff(a: Schema, b: Schema)
    ensures SameShape(a, b) <==> SameParts(a, b)
  {
    StrippedFields(a);
    StrippedFields(b);
    hide StripDocs, StripAll, SameMaps, SameArms;
    var s, t := StripDocs(a), StripDocs(b);
    EqualByFields(s, t);
    SameMapsIff(a.properties, b.properties, s.properties, t.properties);
    SameMapsIff(a.definitions, b.definitions, s.definitions, t.definitions);
    SameArmsIff(a.oneOf, b.oneOf);
    SameArmsIff(a.anyOf, b.anyOf);
    SameArmsIff(a.allOf, b.allOf);
    assert s.items == t.items <==>
      (a.items.Some? <==> b.items.Some?) && (a.items.Some? && b.items.Some? ==> SameShape(a.items.value, b.items.value));
  }

  /** Two schemas have the same shape if and only if they agree in everything but documentation. */
  lemma {:induction false} SameShapeIff(a: Schema, b: Schema)
    ensures SameShape(a, b) <==> OnlyDocsDiffer(a, b)
    decreases a
  {
    hide SameShape, ArmsOnlyDiffer, SameArms;
    SamePartsIff(a, b);
    MapsDifferIff(a.properties, b.properties, a);
    MapsDifferIff(a.definitions, b.definitions, a);
    if a.items.Some? && b.items.Some? {
      SameShapeIff(a.items.value, b.items.value);
    }
    ArmsDifferIff(a.oneOf, b.oneOf, a);
    ArmsDifferIff(a.anyOf, b.anyOf, a);
    ArmsDifferIff(a.allOf, b.allOf, a);
  }

  lemma {:induction false} MapsDifferIff(a: map<string, Schema>, b: map<string, Schema>, owner: Schema)
    requires a == owner.properties || a == owner.definitions
    ensures SameMaps(a, b) <==> a.Keys == b.Keys && forall k :: k in a && k in b ==> OnlyDocsDiffer(a[k], b[k])
    decreases owner, 0
  {
    hide SameShape, OnlyDocsDiffer;
    forall k | k in a && k in b
      ensures SameShape(a[k], b[k]) <==> OnlyDocsDiffer(a[k], b[k])
    {
      SameShapeIff(a[k], b[k]);
    }
  }

  lemma {:induction false} ArmsDifferIff(a: seq<Schema>, b: seq<Schema>, owner: Schema)
    requires a == owner.oneOf || a == owner.anyOf || a == owner.allOf
    ensures SameArms(a, b) <==> ArmsOnlyDiffer(a, b)
    decreases owner, 0
  {
    hide SameShape, OnlyDocsDiffer;
    forall i | 0 <= i < |a| && i < |b|
      ensures SameShape(a[i], b[i]) <==> OnlyDocsDiffer(a[i], b[i])
    {
      SameShapeIff(a[i], b[i]);
    }
  }

  // ---------- merging ----------

  predicate Agree(a: map<string, Schema>, b: map<string, Schema>) {
    forall n :: n in a && n in b ==> SameShape(a[n], b[n])
  }

  class Generator {
    var defs: map<string, Schema>

    constructor ()
      ensures defs == map[]
    {
      defs := map[];
    }

    // False stands for the error that names a definition the files disagree on; the map is walked in
    // no particular order, and a walk that stops has added some definitions and changed none.
    method Merge(doc: map<string, Schema>) returns (ok: bool)
      modifies this
      ensures ok <==> Agree(old(defs), doc)
      ensures ok ==> defs == doc + old(defs)
      ensures forall n :: n in old(defs) ==> n in defs && defs[n] == old(defs)[n]
      ensures forall n :: n in defs && n !in old(defs) ==> n in doc && defs[n] == doc[n]
    {
      hide SameShape;
      var todo := doc.Keys;
      while todo != {}
        invariant todo <= doc.Keys
        invariant forall n :: n in old(defs) ==> n in defs && defs[n] == old(defs)[n]
        invariant forall n :: n in defs <==> n in old(defs) || (n in doc && n !in todo)
        invariant forall n :: n in defs && n !in old(defs) ==> defs[n] == doc[n]
        invariant forall n :: n in doc && n !in todo && n in old(defs) ==> SameShape(old(defs)[n], doc[n])
        decreases todo
      {
        var name :| name in todo;
        todo := todo - {name};
        if name !in defs {
          defs := defs[name := doc[name]];
          continue;
        }
        if !SameShape(defs[name], doc[name]) {
          return false;
        }
      }
      return true;
    }
  }

  /** The namespace after merging the files one after the other; None when some merge fails. */
  function MergeAll(files: seq<map<string, Schema>>): Option<map<string, Schema>> {
    if files == [] then Some(map[])
    else
      var n := |files| - 1;
      match MergeAll(files[..n])
      case None => None
      case Some(acc) => if Agree(acc, files[n]) then Some(files[n] + acc) else None
  }

  method MergeFiles(files: seq<map<string, Schema>>) returns (r: Option<map<string, Schema>>)
    ensures r == MergeAll(files)
  {
    hide Agree;
    var g := new Generator();
    for i := 0 to |files|
      invariant MergeAll(files[..i]) == Some(g.defs)
    {
      assert files[..i + 1][..i] == files[..i];
      var ok := g.Merge(files[i]);
      if !ok {
        StaysFailed(files, i + 1);
        return None;
      }
    }
    assert files[..|files|] == files;
    r := Some(g.defs);
  }

  lemma {:induction false} StaysFailed(files: seq<map<string, Schema>>, i: nat)
    requires i <= |files| && MergeAll(files[..i]).None?
    ensures MergeAll(files).None?
    decreases |files|
  {
    hide Agree;
    if i < |files| {
      assert files[..|files| - 1][..i] == files[..i];
      StaysFailed(files[..|files| - 1], i);
    } else {
      assert files[..i] == files;
    }
  }

  ghost predicate PairwiseAgree(files: seq<map<string, Schema>>) {
    forall f, g :: f in files && g in files ==> Agree(f, g)
  }

  ghost predicate DefinedIn(files: seq<map<string, Schema>>, name: string) {
    exists f :: f in files && name in f
  }

  /** The merge holds exactly the names of the files, each with the shape every file gives it. */
  ghost predicate Represents(acc: map<string, Schema>, files: seq<map<string, Schema>>) {
    && (forall n :: n in acc <==> DefinedIn(files, n))
    && (forall f :: f in files ==> Agree(acc, f))
  }

  lemma OneMoreFile(acc: map<string, Schema>, files: seq<map<string, Schema>>, f: map<string, Schema>)
    requires Represents(acc, files)
    ensures Agree(acc, f) <==> forall g :: g in files ==> Agree(g, f)
    ensures Agree(acc, f) ==> Represents(f + acc, files + [f])
  {
    hide SameShape, Agree, Represents;
    if Agree(acc, f) {
      forall g | g in files
        ensures Agree(g, f)
      {
        AgreesWithFile(acc, files, f, g);
      }
      ExtendedRepresents(acc, files, f);
    }
    if forall g :: g in files ==> Agree(g, f) {
      AgreesWithAll(acc, files, f);
    }
  }

  lemma AgreesWithFile(acc: map<string, Schema>, files: seq<map<string, Schema>>, f: map<string, Schema>, g: map<string, Schema>)
    requires Represents(acc, files) && Agree(acc, f) && g in files
    ensures Agree(g, f)
  {
    hide StripDocs;
    assert Agree(acc, g);
    forall n | n in g && n in f
      ensures SameShape(g[n], f[n])
    {
      assert DefinedIn(files, n);
      assert SameShape(acc[n], g[n]) && SameShape(acc[n], f[n]);
    }
  }

  lemma AgreesWithAll(acc: map<string, Schema>, files: seq<map<string, Schema>>, f: map<string, Schema>)
    requires Represents(acc, files) && forall g :: g in files ==> Agree(g, f)
    ensures Agree(acc, f)
  {
    hide StripDocs;
    forall n | n in acc && n in f
      ensures SameShape(acc[n], f[n])
    {
      assert DefinedIn(files, n);
      var g :| g in files && n in g;
      assert Agree(acc, g) && Agree(g, f);
      assert SameShape(acc[n], g[n]) && SameShape(g[n], f[n]);
    }
  }

  lemma ExtendedRepresents(acc: map<string, Schema>, files: seq<map<string, Schema>>, f: map<string, Schema>)
    requires Represents(acc, files) && Agree(acc, f)
    ensures Represents(f + acc, files + [f])
  {
    hide SameShape, Agree;
    assert forall g :: g in files + [f] <==> g in files || g == f;
    forall n
      ensures n in f + acc <==> DefinedIn(files + [f], n)
    {
      if n in f {
        assert f in files + [f];
      } else if DefinedIn(files, n) {
        var g :| g in files && n in g;
        assert g in files + [f];
      }
    }
    forall g | g in files + [f]
      ensures Agree(f + acc, g)
    {
      if g in files {
        AgreesWithFile(acc, files, f, g);
      }
      AgreeSymmetric(g, f);
      AgreeSymmetric(acc, f);
      BothAgree(f, acc, g);
    }
  }

  lemma BothAgree(f: map<string, Schema>, acc: map<string, Schema>, g: map<string, Schema>)
    requires Agree(f, g) && Agree(acc, g)
    ensures Agree(f + acc, g)
  {
    hide SameShape;
  }

  /** Same shape is reflexive, symmetric and transitive. */
  lemma SameShapeIsEquivalence()
    ensures forall a :: SameShape(a, a)
    ensures forall a, b :: SameShape(a, b) ==> SameShape(b, a)
    ensures forall a, b, c :: SameShape(a, b) && SameShape(b, c) ==> SameShape(a, c)
  {
    hide StripDocs;
  }

  lemma AgreeSymmetric(f: map<string, Schema>, g: map<string, Schema>)
    ensures Agree(f, g) ==> Agree(g, f)
    ensures Agree(f, f)
  {
    hide StripDocs;
  }

  /** Merging succeeds exactly when every two files agree, whatever their order. */
  lemma {:induction false} MergeSucceedsIff(files: seq<map<string, Schema>>)
    ensures MergeAll(files).Some? <==> PairwiseAgree(files)
    ensures MergeAll(files).Some? ==> Represents(MergeAll(files).value, files)
    decreases |files|
  {
    hide Agree, Represents;
    if files != [] {
      var n := |files| - 1;
      var f := files[n];
      MergeSucceedsIff(files[..n]);
      assert files == files[..n] + [f];
      PairwiseSnoc(files[..n], f);
      if MergeAll(files[..n]).Some? {
        OneMoreFile(MergeAll(files[..n]).value, files[..n], f);
      }
    } else {
      NoFiles();
    }
  }

  lemma NoFiles()
    ensures Represents(map[], [])
  {
  }

  lemma PairwiseSnoc(files: seq<map<string, Schema>>, f: map<string, Schema>)
    ensures PairwiseAgree(files + [f]) <==> PairwiseAgree(files) && forall g :: g in files ==> Agree(g, f)
  {
    hide Agree;
    assert forall g :: g in files + [f] <==> g in files || g == f;
    forall g
      ensures Agree(g, f) ==> Agree(f, g)
      ensures Agree(f, f)
    {
      AgreeSymmetric(g, f);
      AgreeSymmetric(f, f);
    }
  }

  /** The same definitions up to documentation. */
  ghost predicate Alike(a: map<string, Schema>, b: map<string, Schema>) {
    a.Keys == b.Keys && Agree(a, b)
  }

  lemma SameFilesAgree(files: seq<map<string, Schema>>, others: seq<map<string, Schema>>)
    requires forall f :: f in files <==> f in others
    ensures PairwiseAgree(files) <==> PairwiseAgree(others)
  {
    hide Agree;
  }

  lemma SameNames(files: seq<map<string, Schema>>, others: seq<map<string, Schema>>, n: string)
    requires forall f :: f in files ==> f in others
    ensures DefinedIn(files, n) ==> DefinedIn(others, n)
  {
  }

  lemma AgreeOn(a: map<string, Schema>, b: map<string, Schema>, f: map<string, Schema>, n: string)
    requires Agree(a, f) && Agree(b, f) && n in a && n in b && n in f
    ensures SameShape(a[n], b[n])
  {
    hide StripDocs;
  }

  lemma RepresentAlike(a: map<string, Schema>, files: seq<map<string, Schema>>, b: map<string, Schema>, others: seq<map<string, Schema>>)
    requires forall f :: f in files <==> f in others
    requires Represents(a, files) && Represents(b, others)
    ensures Alike(a, b)
  {
    hide SameShape, DefinedIn;
    forall n
      ensures n in a <==> n in b
    {
      SameNames(files, others, n);
      SameNames(others, files, n);
    }
    forall n | n in a && n in b
      ensures SameShape(a[n], b[n])
    {
      SharedShape(a, files, b, others, n);
    }
  }

  lemma SharedShape(a: map<string, Schema>, files: seq<map<string, Schema>>, b: map<string, Schema>, others: seq<map<string, Schema>>, n: string)
    requires forall f :: f in files <==> f in others
    requires Represents(a, files) && Represents(b, others) && n in a && n in b
    ensures SameShape(a[n], b[n])
  {
    hide SameShape, Agree;
    assert DefinedIn(files, n);
    var f :| f in files && n in f;
    AgreeOn(a, b, f, n);
  }

  /** Any order of the files either fails in every order or yields definitions of the same shape. */
  lemma MergeOrderIsIrrelevant(files: seq<map<string, Schema>>, others: seq<map<string, Schema>>)
    requires multiset(files) == multiset(others)
    ensures MergeAll(files).Some? <==> MergeAll(others).Some?
    ensures MergeAll(files).Some? ==> Alike(MergeAll(files).value, MergeAll(others).value)
  {
    hide Agree, MergeAll, Alike, Represents, PairwiseAgree;
    assert forall f :: f in files <==> f in multiset(files);
    assert forall f :: f in others <==> f in multiset(others);
    MergeSucceedsIff(files);
    MergeSucceedsIff(others);
    SameFilesAgree(files, others);
    if MergeAll(files).Some? {
      RepresentAlike(MergeAll(files).value, files, MergeAll(others).value, others);
    }
  }
}
