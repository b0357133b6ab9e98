/** Definitions of the same shape generate the same declarations, so the file a definition is taken
    from, and hence the order in which schema files are merged, cannot be seen in the output. */
module SameOutput {
  import opened Options
  import opened Strings
  import opened GoNames
  import opened Schemas
  import opened GoTypes
  import opened Declarations
  import opened MergeDefs

  ghost predicate AllAlike(xs: seq<Schema>, ys: seq<Schema>) {
    |xs| == |ys| && forall i :: 0 <= i < |xs| ==> SameShape(xs[i], ys[i])
  }

  ghost predicate PartsAlike(a: Schema, b: Schema) {
    && a.ref == b.ref && a.typ == b.typ && a.enums == b.enums && a.required == b.required
    && a.format == b.format && a.additional == b.additional
    && Alike(a.properties, b.properties)
    && (a.items.Some? <==> b.items.Some?) && (a.items.Some? ==> SameShape(a.items.value, b.items.value))
    && AllAlike(a.oneOf, b.oneOf) && AllAlike(a.anyOf, b.anyOf) && AllAlike(a.allOf, b.allOf)
  }

  lemma StrippedAlike(xs: seq<Schema>, ys: seq<Schema>)
    requires StripAll(xs) == StripAll(ys)
    ensures AllAlike(xs, ys)
  {
    hide StripAll, StripDocs;
    assert |xs| == |ys|;
    forall i | 0 <= i < |xs|
      ensures SameShape(xs[i], ys[i])
    {
      StripAllAt(xs, i);
      StripAllAt(ys, i);
    }
  }

  /** Schemas of the same shape agree in everything the generator reads. */
  lemma SameShapeParts(a: Schema, b: Schema)
    requires SameShape(a, b)
    ensures PartsAlike(a, b)
  {
    hide StripAll, StripDocs, AllAlike;
    StrippedFields(a);
    StrippedFields(b);
    StrippedAlike(a.oneOf, b.oneOf);
    StrippedAlike(a.anyOf, b.anyOf);
    StrippedAlike(a.allOf, b.allOf);
    PropertiesAlike(a, b);
  }

  lemma PropertiesAlike(a: Schema, b: Schema)
    requires SameShape(a, b)
    ensures Alike(a.properties, b.properties)
  {
    hide StripAll, StripDocs;
    StrippedFields(a);
    StrippedFields(b);
    assert a.properties.Keys == StripDocs(a).properties.Keys;
    forall k | k in a.properties
      ensures k in b.properties && SameShape(a.properties[k], b.properties[k])
    {
      assert StripDocs(a).properties[k] == StripDocs(b).properties[k];
    }
  }

  lemma {:induction false} ConcreteAlike(xs: seq<Schema>, ys: seq<Schema>)
    requires AllAlike(xs, ys)
    ensures AllAlike(Concrete(xs), Concrete(ys))
    decreases |xs|
  {
    hide SameShape, PartsAlike;
    if xs != [] {
      assert SameShape(xs[0], ys[0]);
      SameTypes(xs[0], ys[0]);
      ConcreteAlike(xs[1..], ys[1..]);
    }
  }

  lemma SameTypes(a: Schema, b: Schema)
    requires SameShape(a, b)
    ensures a.typ == b.typ && a.enums == b.enums
  {
    SameShapeParts(a, b);
  }

  lemma BaseAlike(a: Schema, b: Schema)
    requires SameShape(a, b)
    ensures SameShape(Base(a), Base(b))
  {
    hide SameShape, Concrete, Size;
    SameShapeParts(a, b);
    ConcreteAlike(a.anyOf, b.anyOf);
    assert (a.properties == map[]) <==> (a.properties.Keys == {});
    assert (b.properties == map[]) <==> (b.properties.Keys == {});
  }

  lemma EnumUnionAlike(a: Schema, b: Schema)
    requires SameShape(a, b)
    ensures EnumUnion(a) == EnumUnion(b)
  {
    hide SameShape;
    SameShapeParts(a, b);
    var xs := if a.oneOf == [] then a.anyOf else a.oneOf;
    var ys := if b.oneOf == [] then b.anyOf else b.oneOf;
    assert AllAlike(xs, ys);
    forall i | 0 <= i < |xs|
      ensures xs[i].enums == ys[i].enums && xs[i].typ == ys[i].typ
    {
      SameTypes(xs[i], ys[i]);
    }
    EnumArms(xs, ys);
  }

  lemma EnumArms(xs: seq<Schema>, ys: seq<Schema>)
    requires |xs| == |ys| && forall i :: 0 <= i < |xs| ==> xs[i].enums == ys[i].enums && xs[i].typ == ys[i].typ
    ensures (forall x :: x in xs ==> EnumArm(x)) <==> (forall y :: y in ys ==> EnumArm(y))
  {
    if forall x :: x in xs ==> EnumArm(x) {
      forall y | y in ys
        ensures EnumArm(y)
      {
        var i :| 0 <= i < |ys| && ys[i] == y;
        assert xs[i] in xs && Types(xs[i]) == Types(ys[i]);
        assert EnumArm(xs[i]);
      }
    }
    if forall y :: y in ys ==> EnumArm(y) {
      forall x | x in xs
        ensures EnumArm(x)
      {
        var i :| 0 <= i < |xs| && xs[i] == x;
        assert ys[i] in ys && Types(xs[i]) == Types(ys[i]);
        assert EnumArm(ys[i]);
      }
    }
  }

  ghost predicate ShapesAlike(q: Shape, r: Shape) {
    match q
    case Wrapper(x) => r.Wrapper? && SameShape(x, r.inner)
    case Elements(x) => r.Elements? && SameShape(x, r.inner)
    case Values(x) => r.Values? && SameShape(x, r.inner)
    case _ => q == r
  }

  lemma ShapeOfAlike(a: Schema, b: Schema)
    requires SameShape(a, b)
    ensures ShapesAlike(ShapeOf(a), ShapeOf(b))
  {
    hide SameShape, EnumUnion, Size, FirstConcrete, IsUnsigned;
    SameShapeParts(a, b);
    EnumUnionAlike(a, b);
    SameShapeIsEquivalence();
    assert (a.properties == map[]) <==> (a.properties.Keys == {});
    assert (b.properties == map[]) <==> (b.properties.Keys == {});
  }

  ghost predicate InlineAlike(x: Option<Inline>, y: Option<Inline>) {
    match x
    case None => y.None?
    case Some(i) => y.Some? && i.name == y.value.name && SameShape(i.s, y.value.s)
  }

  lemma {:induction false} GoTypeAlike(a: Schema, b: Schema, owner: string, field: string)
    requires SameShape(a, b)
    ensures GoTypeOf(a, owner, field).0 == GoTypeOf(b, owner, field).0
    ensures InlineAlike(GoTypeOf(a, owner, field).1, GoTypeOf(b, owner, field).1)
    decreases a
  {
    hide SameShape, Base, ShapeOf, Size, ExportName;
    BaseAlike(a, b);
    ShapeOfAlike(Base(a), Base(b));
    var q, r := ShapeOf(Base(a)), ShapeOf(Base(b));
    if q.Wrapper? || q.Elements? || q.Values? {
      GoTypeAlike(q.inner, r.inner, owner, field);
    }
  }

  // ---------- lists of inline objects ----------

  ghost predicate InlinesAlike(xs: seq<Inline>, ys: seq<Inline>) {
    |xs| == |ys| && forall i :: 0 <= i < |xs| ==> xs[i].name == ys[i].name && SameShape(xs[i].s, ys[i].s)
  }

  lemma InlinesConcat(xs: seq<Inline>, ys: seq<Inline>, us: seq<Inline>, vs: seq<Inline>)
    requires InlinesAlike(xs, ys) && InlinesAlike(us, vs)
    ensures InlinesAlike(xs + us, ys + vs)
  {
    hide SameShape;
  }

  lemma {:induction false} StructAlike(owner: string, a: Schema, b: Schema, keys: seq<string>, used: set<string>)
    requires SameShape(a, b) && (forall k :: k in keys ==> k in a.properties) && forall k :: k in keys ==> k in b.properties
    ensures StructFields(owner, a, keys, used) == StructFields(owner, b, keys, used)
    ensures InlinesAlike(StructInlines(owner, a, keys), StructInlines(owner, b, keys))
    decreases |keys|
  {
    hide SameShape, GoTypeOf, ExportName, Base, Size;
    if keys != [] {
      var f := keys[0];
      PropertiesAlike(a, b);
      GoTypeAlike(a.properties[f], b.properties[f], owner, f);
      StructAlike(owner, a, b, keys[1..], used);
      StructAlike(owner, a, b, keys[1..], used + {Unused(ExportName(f), used)});
      InlinesConcat(
        if ExportName(f) == "" then [] else Listed(GoTypeOf(a.properties[f], owner, f).1),
        if ExportName(f) == "" then [] else Listed(GoTypeOf(b.properties[f], owner, f).1),
        StructInlines(owner, a, keys[1..]), StructInlines(owner, b, keys[1..]));
    }
  }

  // ---------- unions ----------

  lemma PinnedAlike(xs: seq<Schema>, ys: seq<Schema>, p: string)
    requires AllAlike(xs, ys)
    ensures Pinned(xs, p) == Pinned(ys, p)
  {
    hide SameShape;
    forall i | 0 <= i < |xs|
      ensures p in xs[i].properties <==> p in ys[i].properties
      ensures p in xs[i].properties ==> xs[i].properties[p].enums == ys[i].properties[p].enums
    {
      PropertiesAlike(xs[i], ys[i]);
      if p in xs[i].properties {
        SameTypes(xs[i].properties[p], ys[i].properties[p]);
      }
    }
    if Pinned(xs, p) {
      forall y | y in ys
        ensures p in y.properties && |y.properties[p].enums| == 1
      {
        var i :| 0 <= i < |ys| && ys[i] == y;
        assert xs[i] in xs;
      }
    }
    if Pinned(ys, p) {
      forall x | x in xs
        ensures p in x.properties && |x.properties[p].enums| == 1
      {
        var i :| 0 <= i < |xs| && xs[i] == x;
        assert ys[i] in ys;
      }
    }
  }

  lemma TagAlike(a: Schema, b: Schema)
    requires SameShape(a, b)
    ensures IsTaggedUnion(a) == IsTaggedUnion(b)
    ensures IsTaggedUnion(a) ==> CommonTags(a.oneOf) == CommonTags(b.oneOf) && TagOf(a) == TagOf(b)
  {
    hide SameShape, Pinned, Leq;
    SameShapeParts(a, b);
    if |a.oneOf| >= 2 {
      PropertiesAlike(a.oneOf[0], b.oneOf[0]);
      forall p
        ensures Pinned(a.oneOf, p) == Pinned(b.oneOf, p)
      {
        PinnedAlike(a.oneOf, b.oneOf, p);
      }
      assert CommonTags(a.oneOf) == CommonTags(b.oneOf);
      if IsTaggedUnion(a) {
        LeqTotal(TagOf(a), TagOf(b));
      }
    }
  }

  lemma {:induction false} UnionAlike(owner: string, xs: seq<Schema>, ys: seq<Schema>, tag: string)
    requires AllAlike(xs, ys)
    ensures UnionOrder(xs, tag) == UnionOrder(ys, tag)
    ensures forall p :: ArmTypes(owner, xs, p) == ArmTypes(owner, ys, p)
    ensures InlinesAlike(UnionInlines(owner, xs, tag), UnionInlines(owner, ys, tag))
    decreases |xs|
  {
    hide SameShape, GoTypeOf, NewProperties, ArmInlines;
    if xs != [] {
      var n := |xs| - 1;
      UnionAlike(owner, xs[..n], ys[..n], tag);
      PropertiesAlike(xs[n], ys[n]);
      forall p
        ensures ArmTypes(owner, xs, p) == ArmTypes(owner, ys, p)
      {
        if p in xs[n].properties {
          GoTypeAlike(xs[n].properties[p], ys[n].properties[p], owner, p);
        }
      }
      var keys := Sorted(xs[n].properties.Keys);
      ArmInlinesAlike(owner, xs[n], ys[n], keys, tag);
      InlinesConcat(UnionInlines(owner, xs[..n], tag), UnionInlines(owner, ys[..n], tag),
        ArmInlines(owner, xs[n], keys, tag), ArmInlines(owner, ys[n], keys, tag));
    }
  }

  lemma {:induction false} ArmInlinesAlike(owner: string, a: Schema, b: Schema, props: seq<string>, tag: string)
    requires SameShape(a, b) && (forall p :: p in props ==> p in a.properties) && forall p :: p in props ==> p in b.properties
    ensures InlinesAlike(ArmInlines(owner, a, props, tag), ArmInlines(owner, b, props, tag))
    decreases |props|
  {
    hide SameShape, GoTypeOf;
    if props != [] {
      var n := |props| - 1;
      var p := props[n];
      ArmInlinesAlike(owner, a, b, props[..n], tag);
      PropertiesAlike(a, b);
      GoTypeAlike(a.properties[p], b.properties[p], owner, p);
      InlinesConcat(ArmInlines(owner, a, props[..n], tag), ArmInlines(owner, b, props[..n], tag),
        if p == tag then [] else Listed(GoTypeOf(a.properties[p], owner, p).1),
        if p == tag then [] else Listed(GoTypeOf(b.properties[p], owner, p).1));
    }
  }

  // ---------- kinds ----------

  lemma DefinitionAlike(a: map<string, Schema>, b: map<string, Schema>, n: string)
    requires Alike(a, b) && InjectiveNames(a)
    ensures Definition(a, n).Some? == Definition(b, n).Some?
    ensures Definition(a, n).Some? ==> SameShape(Definition(a, n).value, Definition(b, n).value)
  {
    hide SameShape, ExportName;
    if d :| d in a && ExportName(d) == n {
      assert d in b;
      assert Definition(a, n) == Some(a[d]);
      var e :| e in b && ExportName(e) == n && Definition(b, n) == Some(b[e]);
      assert e == d;
    } else {
      assert forall e :: e in b ==> e in a;
    }
  }

  lemma NextAlike(a: map<string, Schema>, b: map<string, Schema>, n: string)
    requires Alike(a, b) && InjectiveNames(a)
    ensures Next(a, n) == Next(b, n) && OwnKind(a, n) == OwnKind(b, n)
  {
    hide SameShape, ExportName, EnumUnion, IsStringEnum, Base, Definition, FirstScalar, GoNamesOf;
    DefinitionAlike(a, b, n);
    if Definition(a, n).Some? {
      var x, y := Definition(a, n).value, Definition(b, n).value;
      EnumUnionAlike(x, y);
      StringEnumAlike(x, y);
      BaseAlike(x, y);
      SameShapeParts(Base(x), Base(y));
      if |Base(x).allOf| == 1 {
        SameShapeParts(Base(x).allOf[0], Base(y).allOf[0]);
      }
    }
  }

  lemma {:induction false} NamedKindAlike(a: map<string, Schema>, b: map<string, Schema>, n: string, visited: set<string>)
    requires Alike(a, b) && InjectiveNames(a)
    ensures NamedKind(a, n, visited) == NamedKind(b, n, visited)
    decreases GoNamesOf(a) - visited
  {
    hide SameShape, ExportName, Next, OwnKind, Alike, InjectiveNames;
    NextAlike(a, b, n);
    if n !in visited && Next(a, n).Some? {
      NamedKindAlike(a, b, Next(a, n).value, visited + {n});
    }
  }

  lemma StringEnumAlike(a: Schema, b: Schema)
    requires SameShape(a, b)
    ensures IsStringEnum(a) == IsStringEnum(b)
  {
    SameTypes(a, b);
  }

  lemma KindsAlike(a: map<string, Schema>, b: map<string, Schema>)
    requires Alike(a, b) && InjectiveNames(a)
    ensures forall t :: JsonKind(a, t) == JsonKind(b, t)
  {
    hide Alike, InjectiveNames, NamedKind;
    forall t
      ensures JsonKind(a, t) == JsonKind(b, t)
    {
      if t.Named? {
        NamedKindAlike(a, b, t.name, {});
      }
    }
  }

  lemma {:induction false} FoldedAlike(a: map<string, Schema>, b: map<string, Schema>, ts: seq<GoType>)
    requires ts != [] && forall t :: JsonKind(a, t) == JsonKind(b, t)
    ensures Folded(a, ts) == Folded(b, ts)
    decreases |ts|
  {
    hide JsonKind;
    if |ts| > 1 {
      FoldedAlike(a, b, ts[..|ts| - 1]);
    }
  }

  // ---------- the whole output ----------

  ghost predicate OutputsAlike(o: Output, q: Output) {
    o.decls == q.decls && o.emitted == q.emitted && InlinesAlike(o.inline, q.inline)
  }

  lemma WithStructAlike(o: Output, q: Output, name: string, a: Schema, b: Schema)
    requires OutputsAlike(o, q) && SameShape(a, b)
    ensures OutputsAlike(WithStruct(o, name, a), WithStruct(q, name, b))
  {
    hide SameShape, InlinesAlike, StructFields, StructInlines;
    PropertiesAlike(a, b);
    var keys := Sorted(a.properties.Keys);
    if name !in o.emitted {
      StructAlike(name, a, b, keys, {});
      InlinesConcat(o.inline, q.inline, StructInlines(name, a, keys), StructInlines(name, b, keys));
    }
  }

  lemma UnionTypesAlike(a: map<string, Schema>, b: map<string, Schema>, owner: string, x: Schema, y: Schema, tag: string)
    requires Alike(a, b) && InjectiveNames(a) && SameShape(x, y)
    ensures UnionReturns(a, owner, x.oneOf, tag) <==> UnionReturns(b, owner, y.oneOf, tag)
    ensures UnionReturns(a, owner, x.oneOf, tag) ==> FieldsOfUnion(a, owner, x, tag) == FieldsOfUnion(b, owner, y, tag)
  {
    hide SameShape, Alike, InjectiveNames, UnionOrder, ArmTypes, Folded, UnionFields, JsonKind, ExportName;
    KindsAlike(a, b);
    SameShapeParts(x, y);
    UnionAlike(owner, x.oneOf, y.oneOf, tag);
    forall p | ArmTypes(owner, x.oneOf, p) != []
      ensures Folded(a, ArmTypes(owner, x.oneOf, p)) == Folded(b, ArmTypes(owner, y.oneOf, p))
    {
      FoldedAlike(a, b, ArmTypes(owner, x.oneOf, p));
    }
    assert forall p :: FieldReturns(a, owner, x.oneOf, p) <==> FieldReturns(b, owner, y.oneOf, p);
    if UnionReturns(a, owner, x.oneOf, tag) {
      UnionTypesKeys(a, owner, x.oneOf, tag);
      UnionTypesKeys(b, owner, y.oneOf, tag);
      assert UnionTypes(a, owner, x.oneOf, tag) == UnionTypes(b, owner, y.oneOf, tag);
    }
  }

  ghost predicate MaybeAlike(o: Option<Output>, q: Option<Output>) {
    o.Some? == q.Some? && (o.Some? ==> OutputsAlike(o.value, q.value))
  }

  lemma WithDefinitionAlike(a: map<string, Schema>, b: map<string, Schema>, o: Output, q: Output, name: string, x: Schema, y: Schema)
    requires Alike(a, b) && InjectiveNames(a)
    requires OutputsAlike(o, q) && SameShape(x, y)
    ensures MaybeAlike(WithDefinition(a, o, name, x), WithDefinition(b, q, name, y))
  {
    hide SameShape, Alike, InjectiveNames, InlinesAlike, EnumUnion, IsStringEnum, CommonTags, TagOf, FieldsOfUnion, UnionInlines, GoTypeOf, WithStruct, UnionReturns;
    EnumUnionAlike(x, y);
    StringEnumAlike(x, y);
    SameTypes(x, y);
    TagAlike(x, y);
    SameFields(x, y);
    if name in o.emitted || IsEnumDefinition(x) {
    } else if IsTaggedUnion(x) {
      var tag := TagOf(x);
      UnionTypesAlike(a, b, name, x, y, tag);
      UnionInlinesAlike(name, x, y, tag);
      InlinesConcat(o.inline, q.inline, UnionInlines(name, x.oneOf, tag), UnionInlines(name, y.oneOf, tag));
    } else if x.properties != map[] {
      WithStructAlike(o, q, name, x, y);
    } else {
      GoTypeAlike(x, y, name, "");
      ListedAlike(GoTypeOf(x, name, "").1, GoTypeOf(y, name, "").1);
      InlinesConcat(o.inline, q.inline, Listed(GoTypeOf(x, name, "").1), Listed(GoTypeOf(y, name, "").1));
    }
  }

  lemma SameFields(x: Schema, y: Schema)
    requires SameShape(x, y)
    ensures x.properties == map[] <==> y.properties == map[]
  {
    PropertiesAlike(x, y);
    assert x.properties == map[] <==> x.properties.Keys == {};
    assert y.properties == map[] <==> y.properties.Keys == {};
  }

  lemma UnionInlinesAlike(owner: string, x: Schema, y: Schema, tag: string)
    requires SameShape(x, y)
    ensures InlinesAlike(UnionInlines(owner, x.oneOf, tag), UnionInlines(owner, y.oneOf, tag))
  {
    hide SameShape, UnionInlines;
    SameShapeParts(x, y);
    UnionAlike(owner, x.oneOf, y.oneOf, tag);
  }

  lemma ListedAlike(x: Option<Inline>, y: Option<Inline>)
    requires InlineAlike(x, y)
    ensures InlinesAlike(Listed(x), Listed(y))
  {
  }

  lemma {:induction false} WithDefinitionsAlike(a: map<string, Schema>, b: map<string, Schema>, names: seq<string>)
    requires Alike(a, b) && InjectiveNames(a)
    requires (forall n :: n in names ==> n in a) && forall n :: n in names ==> n in b
    ensures MaybeAlike(WithDefinitions(a, names), WithDefinitions(b, names))
    decreases |names|
  {
    hide SameShape, InjectiveNames, WithDefinition, ExportName;
    if names != [] {
      var n := |names| - 1;
      WithDefinitionsAlike(a, b, names[..n]);
      if WithDefinitions(a, names[..n]).Some? {
        WithDefinitionAlike(a, b, WithDefinitions(a, names[..n]).value, WithDefinitions(b, names[..n]).value,
          ExportName(names[n]), a[names[n]], b[names[n]]);
      }
    }
  }

  lemma {:induction false} WithInlinesAlike(o: Output, q: Output, i: nat)
    requires OutputsAlike(o, q) && i <= |o.inline|
    ensures OutputsAlike(WithInlines(o, i), WithInlines(q, i))
    decreases Weight(o.inline[i..])
  {
    hide SameShape, WithStruct, Weight;
    if i < |o.inline| {
      WorklistShrinks(o, i);
      WorklistShrinks(q, i);
      var x, y := o.inline[i], q.inline[i];
      WithStructAlike(o, q, x.name, x.s, y.s);
      WithInlinesAlike(WithStruct(o, x.name, x.s), WithStruct(q, y.name, y.s), i + 1);
    }
  }

  /** Rendering returns for both or neither of two namespaces that are alike up to documentation, and
      declares the same. */
  lemma AlikeRenderAlike(a: map<string, Schema>, b: map<string, Schema>)
    requires Alike(a, b) && InjectiveNames(a)
    ensures Rendered(a).Some? <==> Rendered(b).Some?
    ensures Rendered(a).Some? ==> Rendered(a).value.decls == Rendered(b).value.decls
  {
    hide SameShape, InjectiveNames, WithDefinitions, WithInlines, Sorted;
    var names := Sorted(a.Keys);
    WithDefinitionsAlike(a, b, names);
    if WithDefinitions(a, names).Some? {
      WithInlinesAlike(WithDefinitions(a, names).value, WithDefinitions(b, names).value, 0);
    }
  }

  /** The order in which schema files are merged changes neither whether the generator stops with an
      error, nor whether it returns, nor a single declaration it writes. */
  lemma MergeOrderCannotBeSeen(files: seq<map<string, Schema>>, others: seq<map<string, Schema>>)
    requires multiset(files) == multiset(others)
    requires MergeAll(files).Some? ==> InjectiveNames(MergeAll(files).value)
    ensures MergeAll(files).Some? <==> MergeAll(others).Some?
    ensures MergeAll(files).Some? ==>
      var o, q := Rendered(MergeAll(files).value), Rendered(MergeAll(others).value);
      o.Some? == q.Some? && (o.Some? ==> o.value.decls == q.value.decls)
  {
    hide MergeAll, Alike, InjectiveNames, Rendered;
    MergeOrderIsIrrelevant(files, others);
    if MergeAll(files).Some? {
      AlikeRenderAlike(MergeAll(files).value, MergeAll(others).value);
    }
  }
}
