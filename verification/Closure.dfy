/** What the whole generated file promises: every name that is handed out is declared, nothing is
    declared twice but the discriminators named below, and every name that is used is declared. */
module Closure {
  import opened Options
  import opened Strings
  import opened GoNames
  import opened Schemas
  import opened GoTypes
  import opened Declarations

  ghost function DeclNames(ds: seq<Decl>): set<string> {
    set d | d in ds :: d.name
  }

  ghost function InlineNames(items: seq<Inline>): set<string> {
    set it | it in items :: it.name
  }

  ghost predicate OnlyTagsRepeat(ds: seq<Decl>) {
    forall i, j :: 0 <= i < j < |ds| && ds[i].name == ds[j].name ==> ds[j].body.Discriminator?
  }

  ghost predicate HasRepeat(ds: seq<Decl>) {
    exists i, j :: 0 <= i < j < |ds| && ds[i].name == ds[j].name
  }

  ghost predicate Sound(o: Output) {
    o.emitted == DeclNames(o.decls) && OnlyTagsRepeat(o.decls)
  }

  lemma RepeatAppended(ds: seq<Decl>, d: Decl)
    ensures HasRepeat(ds + [d]) <==> HasRepeat(ds) || d.name in DeclNames(ds)
  {
    var t := ds + [d];
    if HasRepeat(ds) {
      var i, j :| 0 <= i < j < |ds| && ds[i].name == ds[j].name;
      assert t[i].name == t[j].name;
    } else if d.name in DeclNames(ds) {
      var i :| 0 <= i < |ds| && ds[i].name == d.name;
      assert t[i].name == t[|ds|].name;
    }
  }

  lemma TagsAppended(ds: seq<Decl>, d: Decl)
    requires OnlyTagsRepeat(ds) && (d.name in DeclNames(ds) ==> d.body.Discriminator?)
    ensures OnlyTagsRepeat(ds + [d])
  {
    var t := ds + [d];
    forall i, j | 0 <= i < j < |t| && t[i].name == t[j].name
      ensures t[j].body.Discriminator?
    {
      assert ds[i] in ds;
    }
  }

  lemma Appended(ds: seq<Decl>, d: Decl)
    ensures DeclNames(ds + [d]) == DeclNames(ds) + {d.name}
    ensures HasRepeat(ds + [d]) <==> HasRepeat(ds) || d.name in DeclNames(ds)
    ensures OnlyTagsRepeat(ds) && (d.name in DeclNames(ds) ==> d.body.Discriminator?) ==> OnlyTagsRepeat(ds + [d])
  {
    hide HasRepeat, OnlyTagsRepeat;
    assert forall x :: x in ds + [d] <==> x in ds || x == d;
    RepeatAppended(ds, d);
    if OnlyTagsRepeat(ds) && (d.name in DeclNames(ds) ==> d.body.Discriminator?) {
      TagsAppended(ds, d);
    }
  }

  // ---------- names, declared and repeated ----------

  lemma StructKeepsSound(o: Output, name: string, s: Schema)
    requires Sound(o)
    ensures var t := WithStruct(o, name, s);
      Sound(t) && t.emitted == o.emitted + {name} && (HasRepeat(t.decls) <==> HasRepeat(o.decls))
  {
    hide StructFields, StructInlines, HasRepeat, OnlyTagsRepeat, DeclNames;
    Appended(o.decls, Decl(name, Struct(StructFields(name, s, Sorted(s.properties.Keys), {}))));
  }

  /** Two declarations: a flattened union and its discriminator type. */
  lemma UnionKeepsSound(o: Output, u: Decl, d: Decl)
    requires Sound(o) && u.name !in o.emitted && d.name == u.name + "Type" && d.body.Discriminator?
    ensures var ds := o.decls + [u, d];
      && DeclNames(ds) == o.emitted + {u.name, d.name} && OnlyTagsRepeat(ds)
      && (HasRepeat(ds) <==> HasRepeat(o.decls) || d.name in o.emitted)
  {
    hide HasRepeat, OnlyTagsRepeat, DeclNames;
    Appended(o.decls, u);
    Appended(o.decls + [u], d);
    assert o.decls + [u] + [d] == o.decls + [u, d];
    assert |d.name| != |u.name|;
  }

  /** The Go names that declaring one definition claims. */
  function Claims(goName: string, s: Schema): set<string> {
    if IsUnionDefinition(s) then {goName, goName + "Type"} else {goName}
  }

  lemma DefinitionKeepsSound(defs: map<string, Schema>, o: Output, name: string, s: Schema)
    requires Sound(o) && WithDefinition(defs, o, name, s).Some?
    ensures var t := WithDefinition(defs, o, name, s).value;
      && Sound(t)
      && t.emitted == o.emitted + (if name in o.emitted then {} else Claims(name, s))
      && (HasRepeat(t.decls) <==>
          (HasRepeat(o.decls) || (IsUnionDefinition(s) && name !in o.emitted && name + "Type" in o.emitted)))
  {
    hide HasRepeat, OnlyTagsRepeat, DeclNames, GoTypeOf, FieldsOfUnion, UnionInlines, WithStruct, EnumUnion, IsStringEnum, TagOf, CommonTags, UnionReturns;
    if name in o.emitted {
    } else if IsEnumDefinition(s) {
      Appended(o.decls, Decl(name, StringEnum));
    } else if IsTaggedUnion(s) {
      UnionKeepsSound(o, Decl(name, FlatUnion(TagOf(s), FieldsOfUnion(defs, name, s, TagOf(s)))), Decl(name + "Type", Discriminator));
    } else if s.properties != map[] {
      StructKeepsSound(o, name, s);
    } else {
      Appended(o.decls, Decl(name, Alias(GoTypeOf(s, name, "").0)));
    }
  }

  /** The Go names taken once the definitions `names` were declared: computed from the definition
      names alone. */
  function Taken(defs: map<string, Schema>, names: seq<string>): set<string>
    requires forall n :: n in names ==> n in defs
  {
    if names == [] then {}
    else
      var n := |names| - 1;
      var before := Taken(defs, names[..n]);
      var goName := ExportName(names[n]);
      before + (if goName in before then {} else Claims(goName, defs[names[n]]))
  }

  /** The discriminator of the k-th definition has a name that an earlier definition took. */
  predicate ClashAt(defs: map<string, Schema>, names: seq<string>, k: nat)
    requires k < |names| && forall n :: n in names ==> n in defs
  {
    && IsUnionDefinition(defs[names[k]])
    && ExportName(names[k]) !in Taken(defs, names[..k])
    && ExportName(names[k]) + "Type" in Taken(defs, names[..k])
  }

  predicate Clashes(defs: map<string, Schema>, names: seq<string>)
    requires forall n :: n in names ==> n in defs
  {
    exists k :: 0 <= k < |names| && ClashAt(defs, names, k)
  }

  lemma ClashesSnoc(defs: map<string, Schema>, names: seq<string>)
    requires names != [] && forall n :: n in names ==> n in defs
    ensures var n := |names| - 1;
      Clashes(defs, names) <==> Clashes(defs, names[..n]) || ClashAt(defs, names, n)
  {
    hide Taken, ExportName, IsUnionDefinition;
    var n := |names| - 1;
    forall k | 0 <= k < n
      ensures ClashAt(defs, names, k) <==> ClashAt(defs, names[..n], k)
    {
      assert names[..n][..k] == names[..k];
    }
  }

  lemma {:induction false} DefinitionsAreSound(defs: map<string, Schema>, names: seq<string>)
    requires (forall n :: n in names ==> n in defs) && WithDefinitions(defs, names).Some?
    ensures var o := WithDefinitions(defs, names).value;
      && Sound(o) && o.emitted == Taken(defs, names)
      && (forall n :: n in names ==> ExportName(n) in o.emitted)
      && (HasRepeat(o.decls) <==> Clashes(defs, names))
    decreases |names|
  {
    hide HasRepeat, OnlyTagsRepeat, ExportName, WithDefinition, IsUnionDefinition, ClashAt, Clashes;
    if names == [] {
      NothingRepeats(defs);
    } else {
      var n := |names| - 1;
      DefinitionsAreSound(defs, names[..n]);
      ClashesSnoc(defs, names);
      DefinitionKeepsSound(defs, WithDefinitions(defs, names[..n]).value, ExportName(names[n]), defs[names[n]]);
      assert forall x :: x in names <==> x in names[..n] || x == names[n];
      ClashAtIs(defs, names, n);
    }
  }

  lemma ClashAtIs(defs: map<string, Schema>, names: seq<string>, k: nat)
    requires k < |names| && forall n :: n in names ==> n in defs
    ensures ClashAt(defs, names, k) <==>
      && IsUnionDefinition(defs[names[k]])
      && ExportName(names[k]) !in Taken(defs, names[..k])
      && ExportName(names[k]) + "Type" in Taken(defs, names[..k])
  {
  }

  lemma NothingRepeats(defs: map<string, Schema>)
    ensures !HasRepeat([]) && OnlyTagsRepeat([]) && DeclNames([]) == {} && !Clashes(defs, [])
  {
  }

  ghost predicate DeclaredUpTo(o: Output, i: nat)
    requires i <= |o.inline|
  {
    forall j :: 0 <= j < i ==> o.inline[j].name in o.emitted
  }

  lemma {:induction false} InlinesAreDeclared(o: Output, i: nat)
    requires Sound(o) && i <= |o.inline| && DeclaredUpTo(o, i)
    ensures var t := WithInlines(o, i);
      && Sound(t) && o.emitted <= t.emitted && o.inline <= t.inline
      && (forall it :: it in t.inline ==> it.name in t.emitted)
      && (HasRepeat(t.decls) <==> HasRepeat(o.decls))
    decreases Weight(o.inline[i..])
  {
    hide HasRepeat, OnlyTagsRepeat, DeclNames, StructFields, StructInlines, Weight;
    if i < |o.inline| {
      WorklistShrinks(o, i);
      StructKeepsSound(o, o.inline[i].name, o.inline[i].s);
      InlinesAreDeclared(WithStruct(o, o.inline[i].name, o.inline[i].s), i + 1);
    }
  }

  // ---------- when rendering returns ----------

  /** The k-th definition is a tagged union that gets declared and has a non-tag property to which its
      arms give different types, one of them a name whose single `allOf` references run in a circle. */
  ghost predicate CircleAskedAt(defs: map<string, Schema>, names: seq<string>, k: nat)
    requires k < |names| && forall n :: n in names ==> n in defs
  {
    var s := defs[names[k]];
    && IsUnionDefinition(s) && ExportName(names[k]) !in Taken(defs, names[..k])
    && exists p :: p != TagOf(s) && FieldLoops(defs, ExportName(names[k]), s.oneOf, p)
  }

  ghost predicate CircleAsked(defs: map<string, Schema>, names: seq<string>)
    requires forall n :: n in names ==> n in defs
  {
    exists k :: 0 <= k < |names| && CircleAskedAt(defs, names, k)
  }

  lemma CircleAskedSnoc(defs: map<string, Schema>, names: seq<string>)
    requires names != [] && forall n :: n in names ==> n in defs
    ensures var n := |names| - 1;
      CircleAsked(defs, names) <==> CircleAsked(defs, names[..n]) || CircleAskedAt(defs, names, n)
  {
    hide Taken, ExportName, IsUnionDefinition, FieldLoops;
    var n := |names| - 1;
    forall k | 0 <= k < n
      ensures CircleAskedAt(defs, names, k) <==> CircleAskedAt(defs, names[..n], k)
    {
      assert names[..n][..k] == names[..k];
    }
  }

  lemma DefinitionReturnsIff(defs: map<string, Schema>, o: Output, name: string, s: Schema)
    ensures WithDefinition(defs, o, name, s).None? <==>
      IsUnionDefinition(s) && name !in o.emitted && exists p :: p != TagOf(s) && FieldLoops(defs, name, s.oneOf, p)
  {
    hide FieldsOfUnion, UnionInlines, WithStruct, EnumUnion, IsStringEnum, TagOf, CommonTags, UnionReturns, FieldLoops;
    if IsTaggedUnion(s) {
      UnionReturnsIff(defs, name, s.oneOf, TagOf(s));
    }
  }

  lemma {:induction false} DefinitionsReturnIff(defs: map<string, Schema>, names: seq<string>)
    requires forall n :: n in names ==> n in defs
    ensures WithDefinitions(defs, names).Some? <==> !CircleAsked(defs, names)
    decreases |names|
  {
    hide ExportName, WithDefinition, IsUnionDefinition, FieldLoops, CircleAsked, Taken;
    if names == [] {
      NobodyAsks(defs);
    } else {
      var n := |names| - 1;
      DefinitionsReturnIff(defs, names[..n]);
      CircleAskedSnoc(defs, names);
      if WithDefinitions(defs, names[..n]).Some? {
        DefinitionsAreSound(defs, names[..n]);
        DefinitionReturnsIff(defs, WithDefinitions(defs, names[..n]).value, ExportName(names[n]), defs[names[n]]);
      }
    }
  }

  lemma NobodyAsks(defs: map<string, Schema>)
    ensures !CircleAsked(defs, [])
  {
  }

  /** Rendering returns exactly when no declared union asks for the kind of a circular name. */
  lemma RenderingReturnsIff(defs: map<string, Schema>)
    ensures Rendered(defs).Some? <==> !CircleAsked(defs, Sorted(defs.Keys))
  {
    hide CircleAsked, WithDefinitions, WithInlines, Sorted;
    DefinitionsReturnIff(defs, Sorted(defs.Keys));
  }

  /** The generated file declares every definition's Go name and every inline name that was handed
      out; only discriminator types ever repeat a name, and one does exactly when a definition sorted
      before its union already took its name. */
  lemma EveryNameIsDeclared(defs: map<string, Schema>)
    requires !CircleAsked(defs, Sorted(defs.Keys))
    ensures Rendered(defs).Some?
    ensures var o := Rendered(defs).value;
      && (forall d :: d in defs ==> ExportName(d) in DeclNames(o.decls))
      && (forall it :: it in o.inline ==> it.name in DeclNames(o.decls))
      && OnlyTagsRepeat(o.decls)
      && (HasRepeat(o.decls) <==> Clashes(defs, Sorted(defs.Keys)))
  {
    hide ExportName, HasRepeat, OnlyTagsRepeat, WithDefinitions, Clashes, WithInlines, CircleAsked;
    RenderingReturnsIff(defs);
    var names := Sorted(defs.Keys);
    DefinitionsAreSound(defs, names);
    InlinesAreDeclared(WithDefinitions(defs, names).value, 0);
  }

  // ---------- names, used ----------

  function NamesInFields(fs: seq<Field>): set<string> {
    set f, n | f in fs && n in NamesIn(f.typ) :: n
  }

  function NamesInBody(b: Body): set<string> {
    match b
    case Struct(fs) => NamesInFields(fs)
    case FlatUnion(_, fs) => NamesInFields(fs)
    case Alias(t) => NamesIn(t)
    case _ => {}
  }

  ghost predicate RefsResolve(defs: map<string, Schema>) {
    forall d :: d in defs ==> RefsWithin(defs[d], GoNamesOf(defs))
  }

  /** Every name a declaration uses belongs to a definition or was handed out for an inline object,
      and so it will be for the objects still waiting. */
  ghost predicate InScope(o: Output, names: set<string>) {
    && (forall d :: d in o.decls ==> NamesInBody(d.body) <= names + InlineNames(o.inline))
    && (forall it :: it in o.inline ==> RefsWithin(it.s, names))
  }

  ghost predicate AllWithin(items: seq<Inline>, names: set<string>) {
    forall it :: it in items ==> RefsWithin(it.s, names)
  }

  lemma ScopeGrows(o: Output, names: set<string>, d: Decl, items: seq<Inline>)
    requires InScope(o, names)
    requires NamesInBody(d.body) <= names + InlineNames(items) && AllWithin(items, names)
    ensures InScope(o.(decls := o.decls + [d], inline := o.inline + items), names)
  {
    hide NamesInBody, RefsWithin;
    InlineNamesConcat(o.inline, items);
  }

  lemma InlineNamesConcat(a: seq<Inline>, b: seq<Inline>)
    ensures InlineNames(a + b) == InlineNames(a) + InlineNames(b)
  {
    assert forall it :: it in a + b <==> it in a || it in b;
  }

  lemma {:induction false} StructIsScoped(owner: string, s: Schema, keys: seq<string>, used: set<string>, names: set<string>)
    requires RefsWithin(s, names) && forall k :: k in keys ==> k in s.properties
    ensures NamesInFields(StructFields(owner, s, keys, used)) <= names + InlineNames(StructInlines(owner, s, keys))
    ensures AllWithin(StructInlines(owner, s, keys), names)
    decreases |keys|
  {
    hide GoTypeOf, ExportName, RefsWithin, Size, NamesIn;
    if keys != [] {
      var f := keys[0];
      assert RefsWithin(s.properties[f], names) by { PropertyKeepsScope(s, f, names); }
      GoTypeIsScoped(s.properties[f], owner, f, names);
      var r := GoTypeOf(s.properties[f], owner, f);
      var goName := Unused(ExportName(f), used);
      StructIsScoped(owner, s, keys[1..], used, names);
      StructIsScoped(owner, s, keys[1..], used + {goName}, names);
      FieldNamesCons(Field(goName, f, r.0), StructFields(owner, s, keys[1..], used + {goName}));
      InlineNamesConcat(if ExportName(f) == "" then [] else Listed(r.1), StructInlines(owner, s, keys[1..]));
    }
  }

  lemma FieldNamesCons(f: Field, fs: seq<Field>)
    ensures NamesInFields([f] + fs) == NamesIn(f.typ) + NamesInFields(fs)
  {
    assert forall x :: x in [f] + fs <==> x == f || x in fs;
  }

  lemma PropertyKeepsScope(s: Schema, f: string, names: set<string>)
    requires RefsWithin(s, names) && f in s.properties
    ensures RefsWithin(s.properties[f], names)
  {
  }

  lemma {:induction false} ArmIsScoped(owner: string, arm: Schema, props: seq<string>, tag: string, names: set<string>)
    requires RefsWithin(arm, names) && forall p :: p in props ==> p in arm.properties
    ensures AllWithin(ArmInlines(owner, arm, props, tag), names)
    ensures forall p :: p in props && p != tag ==>
      NamesIn(GoTypeOf(arm.properties[p], owner, p).0) <= names + InlineNames(ArmInlines(owner, arm, props, tag))
    decreases |props|
  {
    hide GoTypeOf, RefsWithin, Size, NamesIn;
    if props != [] {
      var n := |props| - 1;
      var p := props[n];
      ArmIsScoped(owner, arm, props[..n], tag, names);
      PropertyKeepsScope(arm, p, names);
      GoTypeIsScoped(arm.properties[p], owner, p, names);
      var r := GoTypeOf(arm.properties[p], owner, p);
      InlineNamesConcat(ArmInlines(owner, arm, props[..n], tag), if p == tag then [] else Listed(r.1));
      assert forall q :: q in props <==> q in props[..n] || q == p;
    }
  }

  lemma {:induction false} UnionIsScoped(owner: string, arms: seq<Schema>, tag: string, names: set<string>)
    requires forall a :: a in arms ==> RefsWithin(a, names)
    ensures AllWithin(UnionInlines(owner, arms, tag), names)
    ensures forall p, t :: p != tag && t in ArmTypes(owner, arms, p) ==> NamesIn(t) <= names + InlineNames(UnionInlines(owner, arms, tag))
    decreases |arms|
  {
    hide GoTypeOf, RefsWithin, Size, NamesIn, ArmInlines;
    if arms != [] {
      var n := |arms| - 1;
      UnionIsScoped(owner, arms[..n], tag, names);
      var keys := Sorted(arms[n].properties.Keys);
      ArmIsScoped(owner, arms[n], keys, tag, names);
      InlineNamesConcat(UnionInlines(owner, arms[..n], tag), ArmInlines(owner, arms[n], keys, tag));
    }
  }

  lemma FoldedMentionsArms(defs: map<string, Schema>, ts: seq<GoType>, names: set<string>)
    requires ts != [] && Folded(defs, ts).Some?
    requires forall t :: t in ts ==> NamesIn(t) <= names
    ensures NamesIn(Folded(defs, ts).value) <= names
  {
    hide JsonKind, Folded, AllAre, AllOfKind, AllReturn;
    FoldedByCases(defs, ts);
    assert ts[0] in ts;
  }

  lemma UnionFieldsAreScoped(defs: map<string, Schema>, owner: string, s: Schema, tag: string, names: set<string>)
    requires UnionReturns(defs, owner, s.oneOf, tag) && RefsWithin(s, names)
    ensures NamesInFields(FieldsOfUnion(defs, owner, s, tag)) <= names + InlineNames(UnionInlines(owner, s.oneOf, tag))
    ensures AllWithin(UnionInlines(owner, s.oneOf, tag), names)
  {
    ArmsKeepScope(s, names);
    hide RefsWithin, UnionInlines, ArmTypes, FieldsOfUnion, Folded, NamesIn, UnionOrder, UnionReturns;
    UnionIsScoped(owner, s.oneOf, tag, names);
    UnionHasFoldedTypes(defs, owner, s, tag);
    var fs := FieldsOfUnion(defs, owner, s, tag);
    forall f | f in fs
      ensures NamesIn(f.typ) <= names + InlineNames(UnionInlines(owner, s.oneOf, tag))
    {
      FoldedMentionsArms(defs, ArmTypes(owner, s.oneOf, f.json), names + InlineNames(UnionInlines(owner, s.oneOf, tag)));
    }
  }

  lemma ArmsKeepScope(s: Schema, names: set<string>)
    requires RefsWithin(s, names)
    ensures forall a :: a in s.oneOf ==> RefsWithin(a, names)
  {
  }

  lemma UnionHasFoldedTypes(defs: map<string, Schema>, owner: string, s: Schema, tag: string)
    requires UnionReturns(defs, owner, s.oneOf, tag)
    ensures forall f :: f in FieldsOfUnion(defs, owner, s, tag) ==>
      && f.json != tag && ArmTypes(owner, s.oneOf, f.json) != []
      && Folded(defs, ArmTypes(owner, s.oneOf, f.json)) == Some(f.typ)
  {
    hide ArmTypes, Folded, UnionFields, UnionOrder, ExportName;
    UnionTypesKeys(defs, owner, s.oneOf, tag);
    UnionOrderIsExact(s.oneOf, tag);
    UnionFieldsFollowOrder(UnionOrder(s.oneOf, tag), UnionTypes(defs, owner, s.oneOf, tag), {ExportName(tag)});
    var fs := FieldsOfUnion(defs, owner, s, tag);
    forall f | f in fs
      ensures f.json != tag && ArmTypes(owner, s.oneOf, f.json) != []
      ensures Folded(defs, ArmTypes(owner, s.oneOf, f.json)) == Some(f.typ)
    {
      var i :| 0 <= i < |fs| && fs[i] == f;
      assert f.json == UnionOrder(s.oneOf, tag)[i];
      ArmTypesOccur(owner, s.oneOf, f.json);
      assert FieldReturns(defs, owner, s.oneOf, f.json);
    }
  }

  lemma DefinitionKeepsScope(defs: map<string, Schema>, o: Output, name: string, s: Schema, names: set<string>)
    requires InScope(o, names) && RefsWithin(s, names) && WithDefinition(defs, o, name, s).Some?
    ensures InScope(WithDefinition(defs, o, name, s).value, names)
  {
    hide InScope, RefsWithin, GoTypeOf, FieldsOfUnion, UnionInlines, StructFields, StructInlines, EnumUnion, IsStringEnum, TagOf, CommonTags, NamesIn, UnionReturns;
    if name in o.emitted {
    } else if IsEnumDefinition(s) {
      ScopeGrows(o, names, Decl(name, StringEnum), []);
      assert o.inline + [] == o.inline;
      ScopeIgnoresEmitted(o.(decls := o.decls + [Decl(name, StringEnum)]), o.emitted + {name}, names);
    } else if IsTaggedUnion(s) {
      var tag := TagOf(s);
      var u, d := Decl(name, FlatUnion(tag, FieldsOfUnion(defs, name, s, tag))), Decl(name + "Type", Discriminator);
      UnionFieldsAreScoped(defs, name, s, tag, names);
      ScopeGrows(o, names, u, UnionInlines(name, s.oneOf, tag));
      var o1 := o.(decls := o.decls + [u], inline := o.inline + UnionInlines(name, s.oneOf, tag));
      ScopeGrows(o1, names, d, []);
      assert o1.inline + [] == o1.inline && o1.decls + [d] == o.decls + [u, d];
      ScopeIgnoresEmitted(o1.(decls := o1.decls + [d]), o.emitted + {name, name + "Type"}, names);
    } else if s.properties != map[] {
      StructKeepsScope(o, name, s, names);
    } else {
      var r := GoTypeOf(s, name, "");
      GoTypeIsScoped(s, name, "", names);
      ScopeGrows(o, names, Decl(name, Alias(r.0)), Listed(r.1));
      ScopeIgnoresEmitted(o.(decls := o.decls + [Decl(name, Alias(r.0))], inline := o.inline + Listed(r.1)), o.emitted + {name}, names);
    }
  }

  lemma ScopeIgnoresEmitted(o: Output, emitted: set<string>, names: set<string>)
    requires InScope(o, names)
    ensures InScope(o.(emitted := emitted), names)
  {
  }

  lemma StructKeepsScope(o: Output, name: string, s: Schema, names: set<string>)
    requires InScope(o, names) && RefsWithin(s, names)
    ensures InScope(WithStruct(o, name, s), names)
  {
    hide InScope, RefsWithin, StructFields, StructInlines;
    var keys := Sorted(s.properties.Keys);
    if name !in o.emitted {
      StructIsScoped(name, s, keys, {}, names);
      var d := Decl(name, Struct(StructFields(name, s, keys, {})));
      ScopeGrows(o, names, d, StructInlines(name, s, keys));
      ScopeIgnoresEmitted(o.(decls := o.decls + [d], inline := o.inline + StructInlines(name, s, keys)), o.emitted + {name}, names);
    }
  }

  lemma {:induction false} DefinitionsAreInScope(defs: map<string, Schema>, names: seq<string>)
    requires RefsResolve(defs) && (forall n :: n in names ==> n in defs) && WithDefinitions(defs, names).Some?
    ensures InScope(WithDefinitions(defs, names).value, GoNamesOf(defs))
    decreases |names|
  {
    hide WithDefinition, RefsWithin, ExportName;
    if names != [] {
      var n := |names| - 1;
      DefinitionsAreInScope(defs, names[..n]);
      DefinitionKeepsScope(defs, WithDefinitions(defs, names[..n]).value, ExportName(names[n]), defs[names[n]], GoNamesOf(defs));
    }
  }

  lemma {:induction false} InlinesAreInScope(o: Output, i: nat, names: set<string>)
    requires InScope(o, names) && i <= |o.inline|
    ensures InScope(WithInlines(o, i), names)
    decreases Weight(o.inline[i..])
  {
    if i < |o.inline| {
      assert o.inline[i] in o.inline;
      hide InScope, WithStruct, Weight, RefsWithin;
      WorklistShrinks(o, i);
      StructKeepsScope(o, o.inline[i].name, o.inline[i].s, names);
      InlinesAreInScope(WithStruct(o, o.inline[i].name, o.inline[i].s), i + 1, names);
    }
  }

  /** If every `$ref` leads to a definition, every type name the generated file uses is one it
      declares. */
  lemma EveryUsedNameIsDeclared(defs: map<string, Schema>)
    requires RefsResolve(defs) && !CircleAsked(defs, Sorted(defs.Keys))
    ensures Rendered(defs).Some?
    ensures var o := Rendered(defs).value; forall d :: d in o.decls ==> NamesInBody(d.body) <= DeclNames(o.decls)
  {
    hide ExportName, WithDefinitions, WithInlines, NamesInBody, RefsWithin, HasRepeat, OnlyTagsRepeat, Clashes, CircleAsked;
    RenderingReturnsIff(defs);
    var names := Sorted(defs.Keys);
    DefinitionsAreInScope(defs, names);
    InlinesAreInScope(WithDefinitions(defs, names).value, 0, GoNamesOf(defs));
    EveryNameIsDeclared(defs);
    var o := Rendered(defs).value;
    assert GoNamesOf(defs) + InlineNames(o.inline) <= DeclNames(o.decls);
  }
}
