/** What each declaration of the generated file holds: traced to the definition or the inline object it
    is for, over the whole run of the renderer. */
module DeclaredBodies {
  import opened Options
  import opened Strings
  import opened GoNames
  import opened Schemas
  import opened GoTypes
  import opened Declarations
  import opened Closure

  /** The fields of a flattened union: one for each non-tag property of any arm, of the one type for the
      types the arms give it and under its Go name, the tag's being used. */
  ghost predicate DescribesUnion(defs: map<string, Schema>, fs: seq<Field>, owner: string, s: Schema, tag: string) {
    && (forall i, j :: 0 <= i < j < |fs| ==> fs[i].json != fs[j].json)
    && (forall p :: HasField(fs, p) <==> p != tag && OccursIn(s.oneOf, p))
    && (forall f :: f in fs ==>
        ArmTypes(owner, s.oneOf, f.json) != [] && IsFieldType(defs, ArmTypes(owner, s.oneOf, f.json), f.typ))
    && NamedInTurn(fs, {ExportName(tag)})
  }

  /** The body a definition asks for under its Go name. */
  ghost predicate IsBodyFor(defs: map<string, Schema>, name: string, s: Schema, b: Body) {
    if IsEnumDefinition(s) then b == StringEnum
    else if IsTaggedUnion(s) then
      b.FlatUnion? && IsLeast(b.tag, CommonTags(s.oneOf)) && DescribesUnion(defs, b.fields, name, s, b.tag)
    else if s.properties != map[] then b.Struct? && DescribesStruct(b.fields, name, s)
    else b == Alias(GoTypeOf(s, name, "").0)
  }

  ghost predicate ForDefinition(defs: map<string, Schema>, n: string, d: Decl)
    requires n in defs
  {
    d.name == ExportName(n) && IsBodyFor(defs, d.name, defs[n], d.body)
  }

  ghost predicate ForInline(it: Inline, d: Decl) {
    d.name == it.name && d.body.Struct? && DescribesStruct(d.body.fields, it.name, it.s)
  }

  ghost predicate ForDiscriminator(defs: map<string, Schema>, n: string, d: Decl)
    requires n in defs
  {
    IsUnionDefinition(defs[n]) && d == Decl(ExportName(n) + "Type", Discriminator)
  }

  /** The declaration is for a definition, an inline object or the discriminator of a union. */
  ghost predicate HasSource(defs: map<string, Schema>, items: seq<Inline>, d: Decl) {
    || (exists n :: n in defs && (ForDefinition(defs, n, d) || ForDiscriminator(defs, n, d)))
    || exists it :: it in items && ForInline(it, d)
  }

  ghost predicate AllHaveSources(defs: map<string, Schema>, o: Output) {
    forall d :: d in o.decls ==> HasSource(defs, o.inline, d)
  }

  // ---------- one definition, one struct ----------

  /** A definition whose name is free gets its own declaration, and a union its discriminator. */
  lemma DefinitionIsDeclared(defs: map<string, Schema>, o: Output, n: string)
    requires n in defs && ExportName(n) !in o.emitted && WithDefinition(defs, o, ExportName(n), defs[n]).Some?
    ensures var t := WithDefinition(defs, o, ExportName(n), defs[n]).value;
      && o.decls <= t.decls && o.inline <= t.inline && |o.decls| < |t.decls|
      && ForDefinition(defs, n, t.decls[|o.decls|])
      && forall k :: |o.decls| < k < |t.decls| ==> ForDiscriminator(defs, n, t.decls[k])
  {
    hide ExportName, GoTypeOf, FieldsOfUnion, UnionInlines, StructFields, StructInlines, EnumUnion, IsStringEnum, CommonTags;
    hide UnionReturns, TagOf, DescribesUnion, DescribesStruct, IsLeast, Sorted;
    var name, s := ExportName(n), defs[n];
    if IsEnumDefinition(s) {
    } else if IsTaggedUnion(s) {
      TagOfIsLeast(s);
      UnionIsDescribed(defs, name, s, TagOf(s));
    } else if s.properties != map[] {
      StructDescribes(name, s);
    }
  }

  lemma TagOfIsLeast(s: Schema)
    requires IsTaggedUnion(s)
    ensures IsLeast(TagOf(s), CommonTags(s.oneOf))
  {
    LeastExists(CommonTags(s.oneOf));
  }

  lemma UnionIsDescribed(defs: map<string, Schema>, name: string, s: Schema, tag: string)
    requires UnionReturns(defs, name, s.oneOf, tag)
    ensures DescribesUnion(defs, FieldsOfUnion(defs, name, s, tag), name, s, tag)
  {
    hide FieldsOfUnion, ArmTypes, IsFieldType, NamedInTurn, ExportName, OccursIn, HasField, UnionReturns;
    UnionHasOneFieldPerProperty(defs, name, s, tag);
  }

  lemma InlineIsDeclared(o: Output, it: Inline)
    requires it.name !in o.emitted
    ensures var t := WithStruct(o, it.name, it.s);
      && o.decls <= t.decls && o.inline <= t.inline && |t.decls| == |o.decls| + 1
      && ForInline(it, t.decls[|o.decls|])
  {
    hide StructFields, StructInlines, DescribesStruct, Sorted;
    StructDescribes(it.name, it.s);
  }

  lemma SourcesKept(defs: map<string, Schema>, items: seq<Inline>, more: seq<Inline>, d: Decl)
    requires items <= more && HasSource(defs, items, d)
    ensures HasSource(defs, more, d)
  {
    hide ForDefinition, ForInline, ForDiscriminator;
  }

  lemma AppendedHaveSources(defs: map<string, Schema>, o: Output, t: Output)
    requires AllHaveSources(defs, o) && o.decls <= t.decls && o.inline <= t.inline
    requires forall k :: |o.decls| <= k < |t.decls| ==> HasSource(defs, t.inline, t.decls[k])
    ensures AllHaveSources(defs, t)
  {
    hide HasSource;
    forall d | d in t.decls
      ensures HasSource(defs, t.inline, d)
    {
      var k :| 0 <= k < |t.decls| && t.decls[k] == d;
      if k < |o.decls| {
        assert d == o.decls[k] && d in o.decls;
        SourcesKept(defs, o.inline, t.inline, d);
      }
    }
  }

  // ---------- all definitions ----------

  ghost predicate DeclaresDefinition(defs: map<string, Schema>, ds: seq<Decl>, n: string)
    requires n in defs
  {
    exists d :: d in ds && ForDefinition(defs, n, d)
  }

  /** Every definition whose Go name no earlier one took is declared. */
  ghost predicate DeclaresAllOf(defs: map<string, Schema>, names: seq<string>, ds: seq<Decl>)
    requires forall n :: n in names ==> n in defs
  {
    forall k :: 0 <= k < |names| && ExportName(names[k]) !in Taken(defs, names[..k]) ==>
      DeclaresDefinition(defs, ds, names[k])
  }

  lemma DeclaredStays(defs: map<string, Schema>, ds: seq<Decl>, es: seq<Decl>, n: string)
    requires n in defs && ds <= es && DeclaresDefinition(defs, ds, n)
    ensures DeclaresDefinition(defs, es, n)
  {
    hide ForDefinition;
    var d :| d in ds && ForDefinition(defs, n, d);
    assert d in es;
  }

  lemma OneMoreDeclared(defs: map<string, Schema>, names: seq<string>, ds: seq<Decl>, es: seq<Decl>)
    requires names != [] && (forall n :: n in names ==> n in defs) && ds <= es
    requires var n := |names| - 1;
      && DeclaresAllOf(defs, names[..n], ds)
      && (ExportName(names[n]) !in Taken(defs, names[..n]) ==> DeclaresDefinition(defs, es, names[n]))
    ensures DeclaresAllOf(defs, names, es)
  {
    hide ExportName, Taken, DeclaresDefinition;
    var n := |names| - 1;
    forall k | 0 <= k < |names| && ExportName(names[k]) !in Taken(defs, names[..k])
      ensures DeclaresDefinition(defs, es, names[k])
    {
      if k < n {
        assert names[..n][..k] == names[..k] && names[..n][k] == names[k];
        DeclaredStays(defs, ds, es, names[k]);
      }
    }
  }

  lemma {:induction false} DefinitionsAreDeclared(defs: map<string, Schema>, names: seq<string>)
    requires (forall n :: n in names ==> n in defs) && WithDefinitions(defs, names).Some?
    ensures var o := WithDefinitions(defs, names).value;
      AllHaveSources(defs, o) && DeclaresAllOf(defs, names, o.decls)
    decreases |names|
  {
    hide ExportName, WithDefinition, IsUnionDefinition, Taken, AllHaveSources, ForDefinition, ForDiscriminator, DeclaresAllOf;
    if names == [] {
      NothingDeclared(defs);
    } else {
      var n := |names| - 1;
      DefinitionsAreDeclared(defs, names[..n]);
      DefinitionsAreSound(defs, names[..n]);
      var o, t := WithDefinitions(defs, names[..n]).value, WithDefinitions(defs, names).value;
      if ExportName(names[n]) in o.emitted {
        Skipped(defs, o, ExportName(names[n]), defs[names[n]]);
      } else {
        DefinitionIsDeclared(defs, o, names[n]);
        assert t.decls[|o.decls|] in t.decls;
        AppendedHaveSources(defs, o, t);
      }
      OneMoreDeclared(defs, names, o.decls, t.decls);
    }
  }

  lemma NothingDeclared(defs: map<string, Schema>)
    ensures AllHaveSources(defs, EMPTY) && DeclaresAllOf(defs, [], [])
  {
  }

  lemma Skipped(defs: map<string, Schema>, o: Output, name: string, s: Schema)
    requires name in o.emitted
    ensures WithDefinition(defs, o, name, s) == Some(o)
  {
  }

  // ---------- all inline objects ----------

  /** The first inline object of its name, if no definition took the name. */
  ghost predicate FirstOfName(o: Output, taken: set<string>, i: nat)
    requires i < |o.inline|
  {
    o.inline[i].name !in taken && forall j :: 0 <= j < i ==> o.inline[j].name != o.inline[i].name
  }

  ghost predicate DeclaresInline(ds: seq<Decl>, it: Inline) {
    exists d :: d in ds && ForInline(it, d)
  }

  ghost predicate DeclaresFirst(o: Output, taken: set<string>, n: nat)
    requires n <= |o.inline|
  {
    forall i :: 0 <= i < n && FirstOfName(o, taken, i) ==> DeclaresInline(o.decls, o.inline[i])
  }

  lemma InlineStays(ds: seq<Decl>, es: seq<Decl>, it: Inline)
    requires ds <= es && DeclaresInline(ds, it)
    ensures DeclaresInline(es, it)
  {
    hide ForInline;
    var d :| d in ds && ForInline(it, d);
    assert d in es;
  }

  lemma OneMoreInline(o: Output, t: Output, taken: set<string>, i: nat)
    requires i < |o.inline| && o.decls <= t.decls && o.inline <= t.inline && DeclaresFirst(o, taken, i)
    requires o.emitted == taken + InlineNames(o.inline[..i])
    requires o.inline[i].name !in o.emitted ==> DeclaresInline(t.decls, o.inline[i])
    ensures DeclaresFirst(t, taken, i + 1)
  {
    hide DeclaresInline;
    forall k | 0 <= k < i + 1 && FirstOfName(t, taken, k)
      ensures DeclaresInline(t.decls, t.inline[k])
    {
      assert t.inline[k] == o.inline[k] && FirstOfName(o, taken, k);
      if k < i {
        InlineStays(o.decls, t.decls, o.inline[k]);
      }
    }
  }

  lemma SeenNames(o: Output, i: nat)
    requires i < |o.inline|
    ensures InlineNames(o.inline[..i + 1]) == InlineNames(o.inline[..i]) + {o.inline[i].name}
  {
    assert forall it :: it in o.inline[..i + 1] <==> it in o.inline[..i] || it == o.inline[i];
  }

  lemma StructStepIs(o: Output, i: nat, taken: set<string>)
    requires i < |o.inline| && o.emitted == taken + InlineNames(o.inline[..i])
    ensures var t := WithStruct(o, o.inline[i].name, o.inline[i].s);
      && o.decls <= t.decls && o.inline <= t.inline
      && t.emitted == taken + InlineNames(t.inline[..i + 1])
  {
    hide StructFields, StructInlines, Sorted, InlineNames;
    SeenNames(o, i);
    var t := WithStruct(o, o.inline[i].name, o.inline[i].s);
    assert t.inline[..i + 1] == o.inline[..i + 1];
  }

  lemma {:induction false} InlinesAreDeclaredAs(defs: map<string, Schema>, o: Output, i: nat, taken: set<string>)
    requires AllHaveSources(defs, o) && i <= |o.inline| && DeclaresFirst(o, taken, i)
    requires o.emitted == taken + InlineNames(o.inline[..i])
    ensures var t := WithInlines(o, i);
      && AllHaveSources(defs, t) && DeclaresFirst(t, taken, |t.inline|)
      && o.decls <= t.decls && o.inline <= t.inline
    decreases Weight(o.inline[i..])
  {
    hide AllHaveSources, DeclaresFirst, Weight, InlineNames, ForInline, WithStruct, HasSource;
    if i < |o.inline| {
      var it := o.inline[i];
      var t := WithStruct(o, it.name, it.s);
      WorklistShrinks(o, i);
      StructStepIs(o, i, taken);
      if it.name in o.emitted {
        StructSkipped(o, it);
      } else {
        InlineIsDeclared(o, it);
        assert t.decls[|o.decls|] in t.decls && it in t.inline by {
          assert t.inline[i] == it;
        }
        InlineHasSource(defs, t.inline, it, t.decls[|o.decls|]);
        AppendedHaveSources(defs, o, t);
      }
      OneMoreInline(o, t, taken, i);
      InlinesAreDeclaredAs(defs, t, i + 1, taken);
    }
  }

  lemma InlineHasSource(defs: map<string, Schema>, items: seq<Inline>, it: Inline, d: Decl)
    requires it in items && ForInline(it, d)
    ensures HasSource(defs, items, d)
  {
    hide ForInline;
  }

  lemma StructSkipped(o: Output, it: Inline)
    requires it.name in o.emitted
    ensures WithStruct(o, it.name, it.s) == o
  {
  }

  // ---------- the whole file ----------

  /** Every declaration is for a definition, an inline object or a discriminator, and holds what that
      asks for; every definition whose Go name no earlier one took is declared, and so is the first
      inline object of every name that no definition took. */
  lemma EveryBodyHasItsSource(defs: map<string, Schema>)
    requires !CircleAsked(defs, Sorted(defs.Keys))
    ensures Rendered(defs).Some?
    ensures var o := Rendered(defs).value; var names := Sorted(defs.Keys);
      && AllHaveSources(defs, o)
      && (forall k :: 0 <= k < |names| && ExportName(names[k]) !in Taken(defs, names[..k]) ==>
          DeclaresDefinition(defs, o.decls, names[k]))
      && (forall i :: 0 <= i < |o.inline| && FirstOfName(o, Taken(defs, names), i) ==>
          DeclaresInline(o.decls, o.inline[i]))
  {
    hide ExportName, WithDefinitions, WithInlines, Taken, CircleAsked, AllHaveSources, DeclaresDefinition, DeclaresInline, FirstOfName;
    RenderingReturnsIff(defs);
    var names := Sorted(defs.Keys);
    var o := WithDefinitions(defs, names).value;
    DefinitionsAreDeclared(defs, names);
    DefinitionsAreSound(defs, names);
    assert o.inline[..0] == [] && InlineNames([]) == {};
    InlinesAreDeclaredAs(defs, o, 0, Taken(defs, names));
    var t := WithInlines(o, 0);
    forall k | 0 <= k < |names| && ExportName(names[k]) !in Taken(defs, names[..k])
      ensures DeclaresDefinition(defs, t.decls, names[k])
    {
      DeclaredStays(defs, o.decls, t.decls, names[k]);
    }
  }
}
