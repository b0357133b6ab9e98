/** The rendering half of the protocol generator in its own form: methods that append to the output,
    to the shared list of inline objects and to the set of declared names, each proved to do what the
    value-level definition of the same step says. */
module Rendering {
  import opened Options
  import opened Strings
  import opened GoNames
  import opened Schemas
  import opened GoTypes
  import opened Declarations
  import opened Closure
  import opened DeclaredBodies

  class Renderer {
    const defs: map<string, Schema>
    var decls: seq<Decl>
    var inline: seq<Inline>
    var emitted: set<string>

    ghost function Written(): Output
      reads this
    {
      Output(decls, inline, emitted)
    }

    constructor (defs: map<string, Schema>)
      ensures this.defs == defs && Written() == EMPTY
    {
      this.defs := defs;
      decls, inline, emitted := [], [], {};
    }

    method GoType(s0: Schema, owner: string, field: string) returns (t: GoType)
      modifies this`inline
      ensures t == GoTypeOf(s0, owner, field).0
      ensures inline == old(inline) + Listed(GoTypeOf(s0, owner, field).1)
      decreases s0
    {
      hide Size, ExportName, ShapeOf, Base;
      var s := Base(s0);
      match ShapeOf(s) {
        case Reference(ref) => t := Named(RefName(ref));
        case Scalar(scalar) => t := scalar;
        case Wrapper(inner) => t := GoType(inner, owner, field);
        case Elements(inner) =>
          t := GoType(inner, owner, field);
          t := ListOf(t);
        case Values(inner) =>
          t := GoType(inner, owner, field);
          t := MapOf(t);
        case Object =>
          var name := ExportName(owner + "_" + field);
          inline := inline + [Inline(name, s)];
          t := Named(name);
      }
    }

    // ---------- JSON kinds ----------

    method KindOfName(goName: string, ghost visited: set<string>) returns (k: Kind)
      requires InjectiveNames(defs) && NamedKind(defs, goName, visited).Some?
      ensures NamedKind(defs, goName, visited) == Some(k)
      decreases GoNamesOf(defs) - visited
    {
      hide ExportName, EnumUnion, IsStringEnum, Base;
      var todo := defs.Keys;
      while todo != {}
        invariant todo <= defs.Keys
        invariant forall d :: d in defs && d !in todo ==> ExportName(d) != goName
        decreases todo
      {
        var d :| d in todo;
        todo := todo - {d};
        if ExportName(d) != goName {
          continue;
        }
        var def := defs[d];
        assert Definition(defs, goName) == Some(def) && goName in GoNamesOf(defs);
        if IsStringEnum(def) || EnumUnion(def) {
          return StringKind;
        }
        var base := Base(def);
        k := FirstScalar(Types(base));
        if k != NoKind {
          return;
        }
        if |base.allOf| == 1 {
          assert Next(defs, goName) == Some(RefName(base.allOf[0].ref));
          k := KindOfName(RefName(base.allOf[0].ref), visited + {goName});
          return;
        }
        return NoKind;
      }
      assert Definition(defs, goName) == None;
      k := NoKind;
    }

    method KindOf(t: GoType) returns (k: Kind)
      requires InjectiveNames(defs) && JsonKind(defs, t).Some?
      ensures JsonKind(defs, t) == Some(k)
    {
      match t {
        case Text => k := StringKind;
        case Int64 => k := IntegerKind;
        case Uint64 => k := IntegerKind;
        case Float64 => k := NumberKind;
        case Bool => k := BooleanKind;
        case Named(n) => k := KindOfName(n, {});
        case _ => k := NoKind;
      }
    }

    method WidenTypes(a: GoType, b: GoType) returns (t: GoType)
      requires InjectiveNames(defs) && Widen(defs, a, b).Some?
      ensures Widen(defs, a, b) == Some(t)
    {
      var ka := KindOf(a);
      var kb := KindOf(b);
      if ka != kb || ka == NoKind {
        return RawJson;
      }
      t := Canonical(ka);
    }

    // ---------- declarations ----------

    method RenderStruct(name: string, s: Schema)
      modifies this
      ensures Written() == WithStruct(old(Written()), name, s)
      ensures name in old(emitted) ==> decls == old(decls)
      ensures name !in old(emitted) ==>
        && |decls| == |old(decls)| + 1 && decls[..|old(decls)|] == old(decls)
        && ForInline(Inline(name, s), decls[|old(decls)|])
    {
      hide GoTypeOf, ExportName, StructFields, StructInlines, DescribesStruct;
      if name in emitted {
        return;
      }
      emitted := emitted + {name};
      var keys := SortKeys(s.properties.Keys);
      var fields: seq<Field> := [];
      var used: set<string> := {};
      var i := 0;
      assert keys[0..] == keys;
      while i < |keys|
        invariant i <= |keys| && keys == Sorted(s.properties.Keys)
        invariant emitted == old(emitted) + {name} && decls == old(decls)
        invariant fields + StructFields(name, s, keys[i..], used) == StructFields(name, s, keys, {})
        invariant inline + StructInlines(name, s, keys[i..]) == old(inline) + StructInlines(name, s, keys)
      {
        var f := keys[i];
        StructStep(name, s, keys, i, used);
        var goName := ExportName(f);
        i := i + 1;
        if goName == "" {
          assert [] + StructInlines(name, s, keys[i..]) == StructInlines(name, s, keys[i..]);
          continue;
        }
        ghost var before, written := inline, fields;
        goName := Unused(goName, used);
        used := used + {goName};
        var t := GoType(s.properties[f], name, f);
        fields := fields + [Field(goName, f, t)];
        Regroup(written, [Field(goName, f, t)], StructFields(name, s, keys[i..], used));
        Regroup(before, Listed(GoTypeOf(s.properties[f], name, f).1), StructInlines(name, s, keys[i..]));
      }
      assert keys[i..] == [];
      StructDone(name, s, used);
      assert fields + [] == fields && inline + [] == inline;
      StructDescribes(name, s);
      decls := decls + [Decl(name, Struct(fields))];
    }

    lemma Regroup<T>(a: seq<T>, b: seq<T>, c: seq<T>)
      ensures a + (b + c) == a + b + c
    {
    }

    /** What folding the properties `seen` of an arm makes of the type of field `p`. */
    ghost predicate MergedField(owner: string, arm: Schema, tag: string, seen: seq<string>, types0: map<string, GoType>, p: string, t: GoType) {
      if p != tag && p in seen && p in arm.properties then
        var here := GoTypeOf(arm.properties[p], owner, p).0;
        Some(t) == if p in types0 then Folded(defs, [types0[p], here]) else Some(here)
      else p in types0 && t == types0[p]
    }

    /** Folding the property of an arm into the fields collected so far returns. */
    ghost predicate PropertyReturns(owner: string, arm: Schema, p: string, types0: map<string, GoType>)
      requires p in arm.properties
    {
      p in types0 ==> Folded(defs, [types0[p], GoTypeOf(arm.properties[p], owner, p).0]).Some?
    }

    /** One property of an arm folded into the fields collected so far. */
    method FoldProperty(owner: string, arm: Schema, p: string, order0: seq<string>, types0: map<string, GoType>)
      returns (order: seq<string>, types: map<string, GoType>)
      requires InjectiveNames(defs) && p in arm.properties && PropertyReturns(owner, arm, p, types0)
      modifies this`inline
      ensures order == order0 + if p in types0 then [] else [p]
      ensures var here := GoTypeOf(arm.properties[p], owner, p).0;
        types == types0[p := if p in types0 then Folded(defs, [types0[p], here]).value else here]
      ensures inline == old(inline) + Listed(GoTypeOf(arm.properties[p], owner, p).1)
    {
      hide GoTypeOf, Folded;
      order, types := order0, types0;
      var t := GoType(arm.properties[p], owner, p);
      if p !in types {
        order := order + [p];
        types := types[p := t];
      } else {
        var merged := MergeTypes(types[p], t);
        types := types[p := merged];
      }
    }

    /** What the loop over an arm's properties has done after `seen`. */
    ghost predicate ArmSoFar(owner: string, arm: Schema, tag: string, seen: seq<string>, order0: seq<string>,
                             types0: map<string, GoType>, order: seq<string>, types: map<string, GoType>)
    {
      && order == order0 + NewProperties(seen, tag, order0)
      && (forall p :: p in order <==> p in types)
      && (forall p :: p in types ==> MergedField(owner, arm, tag, seen, types0, p, types[p]))
      && (forall p :: p in types0 ==> p in types)
      && (forall p :: p in types && p !in types0 ==> p in seen)
    }

    /** The properties of one arm folded into the fields collected so far. */
    method FoldArm(owner: string, arm: Schema, tag: string, order0: seq<string>, types0: map<string, GoType>)
      returns (order: seq<string>, types: map<string, GoType>)
      requires InjectiveNames(defs) && forall p :: p in order0 <==> p in types0
      requires forall p :: p in arm.properties && p != tag ==> PropertyReturns(owner, arm, p, types0)
      modifies this`inline
      ensures ArmSoFar(owner, arm, tag, Sorted(arm.properties.Keys), order0, types0, order, types)
      ensures inline == old(inline) + ArmInlines(owner, arm, Sorted(arm.properties.Keys), tag)
    {
      hide GoTypeOf, ArmInlines, ArmSoFar, PropertyReturns, Distinct, InjectiveNames, Folded, Sorted;
      ArmStart(owner, arm, tag, order0);
      order, types := order0, types0;
      var props := SortKeys(arm.properties.Keys);
      KeysAreDistinct(arm.properties.Keys);
      NothingSoFar(owner, arm, tag, order0, types0);
      for i := 0 to |props|
        invariant props == Sorted(arm.properties.Keys)
        invariant ArmSoFar(owner, arm, tag, props[..i], order0, types0, order, types)
        invariant inline == old(inline) + ArmInlines(owner, arm, props[..i], tag)
      {
        var p := props[i];
        ArmStep(owner, arm, props, i, tag, order0);
        ghost var orderWas, typesWas := order, types;
        if p != tag {
          StillReturns(owner, arm, tag, props, i, order0, types0, order, types);
          order, types := FoldProperty(owner, arm, p, order, types);
        }
        OneMoreProperty(owner, arm, tag, props, i, order0, types0, orderWas, typesWas, order, types);
      }
      assert props[..|props|] == props;
    }

    lemma NothingSoFar(owner: string, arm: Schema, tag: string, order0: seq<string>, types0: map<string, GoType>)
      requires forall p :: p in order0 <==> p in types0
      ensures ArmSoFar(owner, arm, tag, [], order0, types0, order0, types0)
    {
      hide GoTypeOf, Folded;
      assert order0 + [] == order0;
    }

    lemma OneMoreProperty(owner: string, arm: Schema, tag: string, props: seq<string>, i: nat,
                          order0: seq<string>, types0: map<string, GoType>,
                          orderWas: seq<string>, typesWas: map<string, GoType>, order: seq<string>, types: map<string, GoType>)
      requires Distinct(props) && i < |props| && props[i] in arm.properties && forall p :: p in order0 <==> p in types0
      requires ArmSoFar(owner, arm, tag, props[..i], order0, types0, orderWas, typesWas)
      requires props[i] == tag ==> order == orderWas && types == typesWas
      requires props[i] != tag ==>
        && PropertyReturns(owner, arm, props[i], typesWas)
        && order == orderWas + (if props[i] in typesWas then [] else [props[i]])
        && var here := GoTypeOf(arm.properties[props[i]], owner, props[i]).0;
        types == typesWas[props[i] := if props[i] in typesWas then Folded(defs, [typesWas[props[i]], here]).value else here]
      ensures ArmSoFar(owner, arm, tag, props[..i + 1], order0, types0, order, types)
    {
      hide GoTypeOf, Folded, MergedField, Distinct, NewProperties;
      assert props[..i + 1][..i] == props[..i] && props[..i + 1][i] == props[i];
      NewPropertiesSnoc(props, i, tag, order0);
      NewPropertiesAre(props[..i], tag, order0);
      NotSeenBefore(props, i);
      AllMerged(owner, arm, tag, props, i, types0, typesWas, types);
    }

    lemma NewPropertiesSnoc(props: seq<string>, i: nat, tag: string, before: seq<string>)
      requires i < |props|
      ensures NewProperties(props[..i + 1], tag, before) ==
        NewProperties(props[..i], tag, before) + if props[i] == tag || props[i] in before then [] else [props[i]]
    {
      assert props[..i + 1][..i] == props[..i];
    }

    // Keep the type while the arms agree, widen it when they differ.
    method MergeTypes(a: GoType, b: GoType) returns (t: GoType)
      requires InjectiveNames(defs) && Folded(defs, [a, b]).Some?
      ensures Folded(defs, [a, b]) == Some(t)
    {
      hide Widen;
      assert [a, b][..1] == [a];
      assert Folded(defs, [a]) == Some(a);
      if a != b {
        t := WidenTypes(a, b);
      } else {
        t := a;
      }
    }

    /** The earlier properties of an arm leave the field of a later one as it was. */
    lemma StillReturns(owner: string, arm: Schema, tag: string, props: seq<string>, i: nat, order0: seq<string>,
                       types0: map<string, GoType>, order: seq<string>, types: map<string, GoType>)
      requires Distinct(props) && i < |props| && props[i] in arm.properties && props[i] != tag
      requires PropertyReturns(owner, arm, props[i], types0)
      requires ArmSoFar(owner, arm, tag, props[..i], order0, types0, order, types)
      ensures PropertyReturns(owner, arm, props[i], types)
    {
      hide GoTypeOf, Folded;
      NotSeenBefore(props, i);
    }

    lemma FirstMerge(owner: string, arm: Schema, tag: string, props: seq<string>, i: nat, types0: map<string, GoType>)
      requires i < |props| && props[i] in arm.properties && props[i] != tag && props[i] !in types0
      ensures MergedField(owner, arm, tag, props[..i + 1], types0, props[i], GoTypeOf(arm.properties[props[i]], owner, props[i]).0)
    {
      assert props[..i + 1][i] == props[i];
    }

    lemma MergeStep(owner: string, arm: Schema, tag: string, props: seq<string>, i: nat, types0: map<string, GoType>, q: string, t: GoType, u: GoType)
      requires Distinct(props) && i < |props| && props[i] in arm.properties
      requires MergedField(owner, arm, tag, props[..i], types0, q, t)
      requires if q == props[i] && q != tag then Folded(defs, [t, GoTypeOf(arm.properties[q], owner, q).0]) == Some(u) else u == t
      ensures MergedField(owner, arm, tag, props[..i + 1], types0, q, u)
    {
      hide GoTypeOf, Folded;
      NotSeenBefore(props, i);
    }

    lemma AllMerged(owner: string, arm: Schema, tag: string, props: seq<string>, i: nat,
                    types0: map<string, GoType>, before: map<string, GoType>, after: map<string, GoType>)
      requires Distinct(props) && i < |props| && props[i] in arm.properties
      requires forall q :: q in before ==> MergedField(owner, arm, tag, props[..i], types0, q, before[q])
      requires forall q :: q in types0 ==> q in before
      requires props[i] == tag ==> after == before
      requires props[i] != tag ==>
        && PropertyReturns(owner, arm, props[i], before)
        && var here := GoTypeOf(arm.properties[props[i]], owner, props[i]).0;
        after == before[props[i] := if props[i] in before then Folded(defs, [before[props[i]], here]).value else here]
      ensures forall q :: q in after ==> MergedField(owner, arm, tag, props[..i + 1], types0, q, after[q])
    {
      hide GoTypeOf, Folded, MergedField, Distinct;
      forall q | q in after
        ensures MergedField(owner, arm, tag, props[..i + 1], types0, q, after[q])
      {
        if q in before {
          MergeStep(owner, arm, tag, props, i, types0, q, before[q], after[q]);
        } else {
          FirstMerge(owner, arm, tag, props, i, types0);
        }
      }
    }

    lemma NotSeenBefore(props: seq<string>, i: nat)
      requires Distinct(props) && i < |props|
      ensures props[i] !in props[..i]
      ensures forall q :: q in props[..i + 1] <==> q in props[..i] || q == props[i]
    {
    }

    /** What the loop over the arms has done after `arms`. */
    ghost predicate ArmsSoFar(owner: string, arms: seq<Schema>, tag: string, order: seq<string>, types: map<string, GoType>) {
      && order == UnionOrder(arms, tag)
      && (forall p :: p in order <==> p in types)
      && forall p :: p in types ==>
        ArmTypes(owner, arms, p) != [] && Folded(defs, ArmTypes(owner, arms, p)) == Some(types[p])
    }

    method FoldArms(owner: string, arms: seq<Schema>, tag: string)
      returns (order: seq<string>, types: map<string, GoType>)
      requires InjectiveNames(defs) && UnionReturns(defs, owner, arms, tag)
      modifies this`inline
      ensures order == UnionOrder(arms, tag) && types == UnionTypes(defs, owner, arms, tag)
      ensures inline == old(inline) + UnionInlines(owner, arms, tag)
    {
      hide GoTypeOf, Folded, ArmTypes, NewProperties, ArmInlines, MergedField, UnionReturns, PropertyReturns, InjectiveNames;
      hide UnionOrder, ArmSoFar;
      order, types := [], map[];
      EmptyUnion(owner, tag);
      for i := 0 to |arms|
        invariant ArmsSoFar(owner, arms[..i], tag, order, types)
        invariant inline == old(inline) + UnionInlines(owner, arms[..i], tag)
      {
        assert arms[..i + 1][..i] == arms[..i];
        ghost var orderWas, typesWas := order, types;
        NextArmReturns(owner, arms, i, tag, types);
        order, types := FoldArm(owner, arms[i], tag, order, types);
        OneMoreArmFolded(owner, arms, i, tag, orderWas, typesWas, order, types);
      }
      assert arms[..|arms|] == arms;
      UnionTypesKeys(defs, owner, arms, tag);
      AreUnionTypes(owner, arms, tag, types);
    }

    lemma OneMoreArmFolded(owner: string, arms: seq<Schema>, i: nat, tag: string, order0: seq<string>, types0: map<string, GoType>,
                           order: seq<string>, types: map<string, GoType>)
      requires i < |arms| && ArmsSoFar(owner, arms[..i], tag, order0, types0)
      requires ArmSoFar(owner, arms[i], tag, Sorted(arms[i].properties.Keys), order0, types0, order, types)
      ensures ArmsSoFar(owner, arms[..i + 1], tag, order, types)
    {
      hide GoTypeOf, Folded, ArmTypes, NewProperties, MergedField, Sorted;
      assert arms[..i + 1][..i] == arms[..i] && arms[..i + 1] == arms[..i] + [arms[i]];
      AllAdded(owner, arms[..i], arms[i], tag, types0, types);
    }

    method NameFields(order: seq<string>, types: map<string, GoType>, used0: set<string>) returns (fields: seq<Field>)
      requires forall p :: p in order ==> p in types
      ensures fields == UnionFields(order, types, used0)
    {
      hide ExportName;
      fields := [];
      var used := used0;
      for i := 0 to |order|
        invariant fields + UnionFields(order[i..], types, used) == UnionFields(order, types, used0)
      {
        var p := order[i];
        assert order[i..][1..] == order[i + 1..];
        var goName := Unused(ExportName(p), used);
        used := used + {goName};
        ghost var written := fields;
        fields := fields + [Field(goName, p, types[p])];
        Regroup(written, [Field(goName, p, types[p])], UnionFields(order[i + 1..], types, used));
      }
      assert order[|order|..] == [];
    }

    method RenderFlattenedUnion(name: string, s: Schema, tag: string)
      requires InjectiveNames(defs) && UnionReturns(defs, name, s.oneOf, tag)
      modifies this
      ensures Written() == Output(
        old(decls) + [Decl(name, FlatUnion(tag, FieldsOfUnion(defs, name, s, tag))), Decl(name + "Type", Discriminator)],
        old(inline) + UnionInlines(name, s.oneOf, tag),
        old(emitted) + {name + "Type"})
    {
      hide GoTypeOf, ExportName, UnionOrder, UnionTypes, UnionFields, UnionInlines, UnionReturns;
      var order, types := FoldArms(name, s.oneOf, tag);
      UnionTypesKeys(defs, name, s.oneOf, tag);
      var fields := NameFields(order, types, {ExportName(tag)});
      decls := decls + [Decl(name, FlatUnion(tag, fields))];
      emitted := emitted + {name + "Type"};
      decls := decls + [Decl(name + "Type", Discriminator)];
    }

    lemma EmptyUnion(name: string, tag: string)
      ensures UnionOrder([], tag) == [] && UnionInlines(name, [], tag) == []
    {
    }

    /** Folding one more arm into a field is folding the longer list of its types. */
    lemma OneMoreArm(owner: string, arms: seq<Schema>, arm: Schema, tag: string, p: string)
      ensures ArmTypes(owner, arms + [arm], p) == ArmTypes(owner, arms, p) + (if p in arm.properties then [GoTypeOf(arm.properties[p], owner, p).0] else [])
      ensures p in UnionOrder(arms, tag) ==> ArmTypes(owner, arms, p) != []
      ensures p !in UnionOrder(arms, tag) && p != tag ==> ArmTypes(owner, arms, p) == []
    {
      hide GoTypeOf, UnionOrder;
      assert (arms + [arm])[..|arms|] == arms;
      UnionOrderIsExact(arms, tag);
      ArmTypesOccur(owner, arms, p);
    }

    lemma FoldOneMore(ts: seq<GoType>, t: GoType)
      requires ts != [] && Folded(defs, ts).Some?
      ensures Folded(defs, ts + [t]) == Folded(defs, [Folded(defs, ts).value, t])
    {
      hide Widen;
      var b := Folded(defs, ts).value;
      assert (ts + [t])[..|ts|] == ts;
      assert [b, t][..1] == [b];
      assert Folded(defs, [b]) == Some(b);
    }

    lemma {:induction false} FoldPrefix(ts: seq<GoType>, us: seq<GoType>)
      requires ts != [] && Folded(defs, ts + us).Some?
      ensures Folded(defs, ts).Some?
      decreases |us|
    {
      hide Widen;
      if us == [] {
        assert ts + us == ts;
      } else {
        assert (ts + us)[..|ts + us| - 1] == ts + us[..|us| - 1];
        FoldPrefix(ts, us[..|us| - 1]);
      }
    }

    /** If folding the union returns, so does folding any first arms of it. */
    lemma FoldSoFar(owner: string, arms: seq<Schema>, i: nat, tag: string, p: string)
      requires UnionReturns(defs, owner, arms, tag) && i <= |arms| && p != tag && ArmTypes(owner, arms[..i], p) != []
      ensures Folded(defs, ArmTypes(owner, arms[..i], p)).Some?
    {
      hide GoTypeOf, Folded, ArmTypes, UnionOrder;
      assert arms == arms[..i] + arms[i..];
      ArmTypesConcat(owner, arms[..i], arms[i..], p);
      UnionOrderIsExact(arms, tag);
      ArmTypesOccur(owner, arms, p);
      assert FieldReturns(defs, owner, arms, p);
      FoldPrefix(ArmTypes(owner, arms[..i], p), ArmTypes(owner, arms[i..], p));
    }

    lemma NextArmReturns(owner: string, arms: seq<Schema>, i: nat, tag: string, types: map<string, GoType>)
      requires UnionReturns(defs, owner, arms, tag) && i < |arms|
      requires forall p :: p in types ==>
        ArmTypes(owner, arms[..i], p) != [] && Folded(defs, ArmTypes(owner, arms[..i], p)) == Some(types[p])
      ensures forall p :: p in arms[i].properties && p != tag ==> PropertyReturns(owner, arms[i], p, types)
    {
      hide GoTypeOf, Folded, ArmTypes, UnionReturns;
      forall p | p in arms[i].properties && p != tag
        ensures PropertyReturns(owner, arms[i], p, types)
      {
        if p in types {
          assert arms[..i + 1] == arms[..i] + [arms[i]];
          OneMoreArm(owner, arms[..i], arms[i], tag, p);
          FoldSoFar(owner, arms, i + 1, tag, p);
          FoldOneMore(ArmTypes(owner, arms[..i], p), GoTypeOf(arms[i].properties[p], owner, p).0);
        }
      }
    }

    lemma ArmAdded(owner: string, arms: seq<Schema>, arm: Schema, tag: string, types0: map<string, GoType>, p: string, t: GoType)
      requires forall q :: q in types0 <==> q in UnionOrder(arms, tag)
      requires p in types0 ==> ArmTypes(owner, arms, p) != [] && Folded(defs, ArmTypes(owner, arms, p)) == Some(types0[p])
      requires MergedField(owner, arm, tag, Sorted(arm.properties.Keys), types0, p, t)
      ensures var ts := ArmTypes(owner, arms + [arm], p); ts != [] && Folded(defs, ts) == Some(t)
    {
      hide GoTypeOf, Folded, UnionOrder, ArmTypes;
      UnionOrderIsExact(arms, tag);
      OneMoreArm(owner, arms, arm, tag, p);
      var ts := ArmTypes(owner, arms, p);
      assert ts + [] == ts;
      if p in arm.properties {
        var here := GoTypeOf(arm.properties[p], owner, p).0;
        if ts == [] {
          assert [] + [here] == [here];
          FoldOfOne(here);
        } else {
          FoldOneMore(ts, here);
        }
      }
    }

    lemma FoldOfOne(t: GoType)
      ensures Folded(defs, [t]) == Some(t)
    {
    }

    lemma AllAdded(owner: string, arms: seq<Schema>, arm: Schema, tag: string, before: map<string, GoType>, after: map<string, GoType>)
      requires forall q :: q in before <==> q in UnionOrder(arms, tag)
      requires forall p :: p in before ==>
        ArmTypes(owner, arms, p) != [] && Folded(defs, ArmTypes(owner, arms, p)) == Some(before[p])
      requires forall p :: p in after ==> MergedField(owner, arm, tag, Sorted(arm.properties.Keys), before, p, after[p])
      ensures forall p :: p in after ==>
        ArmTypes(owner, arms + [arm], p) != [] && Folded(defs, ArmTypes(owner, arms + [arm], p)) == Some(after[p])
    {
      hide GoTypeOf, Folded, UnionOrder, ArmTypes, MergedField;
      forall p | p in after
        ensures ArmTypes(owner, arms + [arm], p) != [] && Folded(defs, ArmTypes(owner, arms + [arm], p)) == Some(after[p])
      {
        ArmAdded(owner, arms, arm, tag, before, p, after[p]);
      }
    }

    lemma AreUnionTypes(owner: string, arms: seq<Schema>, tag: string, types: map<string, GoType>)
      requires UnionReturns(defs, owner, arms, tag) && forall p :: p in types <==> p in UnionOrder(arms, tag)
      requires forall p :: p in types ==>
        ArmTypes(owner, arms, p) != [] && Folded(defs, ArmTypes(owner, arms, p)) == Some(types[p])
      ensures types == UnionTypes(defs, owner, arms, tag)
    {
      hide GoTypeOf, Folded, UnionOrder, ArmTypes, UnionReturns;
    }

    method RenderDef(name: string, s: Schema)
      requires InjectiveNames(defs) && WithDefinition(defs, Written(), name, s).Some?
      modifies this
      ensures WithDefinition(defs, old(Written()), name, s) == Some(Written())
    {
      hide GoTypeOf, ExportName, FieldsOfUnion, UnionInlines, EnumUnion, IsStringEnum, CommonTags, WithStruct, IsLeast, UnionReturns;
      if name in emitted {
        return;
      }
      if |s.enums| > 0 && IsStringEnum(s) {
        emitted := emitted + {name};
        decls := decls + [Decl(name, StringEnum)];
        return;
      }
      if EnumUnion(s) {
        emitted := emitted + {name};
        decls := decls + [Decl(name, StringEnum)];
        return;
      }
      var tag, found := TaggedUnion(s);
      if found {
        TagIsLeast(s, tag);
        emitted := emitted + {name};
        RenderFlattenedUnion(name, s, tag);
        assert emitted == old(emitted) + {name, name + "Type"};
        return;
      }
      if |s.properties| > 0 {
        RenderStruct(name, s);
        return;
      }
      emitted := emitted + {name};
      var target := GoType(s, name, "");
      decls := decls + [Decl(name, Alias(target))];
    }

    lemma TagIsLeast(s: Schema, tag: string)
      requires IsTaggedUnion(s) && IsLeast(tag, CommonTags(s.oneOf))
      ensures tag == TagOf(s)
    {
      LeqTotal(tag, TagOf(s));
    }

    /** The loop over the shared list, which grows while it is walked. */
    method RenderInlines()
      modifies this
      ensures Written() == WithInlines(old(Written()), 0)
    {
      hide ExportName, WithStruct, Weight;
      var i := 0;
      while i < |inline|
        invariant i <= |inline|
        invariant WithInlines(Written(), i) == WithInlines(old(Written()), 0)
        decreases Weight(inline[i..])
      {
        var it := inline[i];
        WorklistShrinks(Written(), i);
        i := i + 1;
        if it.name in emitted {
          SkippedStruct(Written(), it.name, it.s);
          continue;
        }
        RenderStruct(it.name, it.s);
      }
    }

    /** The loop over the definitions in name order. */
    method RenderDefinitions()
      requires InjectiveNames(defs) && Written() == EMPTY && WithDefinitions(defs, Sorted(defs.Keys)).Some?
      modifies this
      ensures WithDefinitions(defs, Sorted(defs.Keys)) == Some(Written())
    {
      hide ExportName, WithDefinition, InjectiveNames, Sorted;
      var names := SortKeys(defs.Keys);
      var i := 0;
      assert names[..0] == [];
      while i < |names|
        invariant i <= |names| && names == Sorted(defs.Keys)
        invariant WithDefinitions(defs, names[..i]) == Some(Written())
      {
        assert names[..i + 1][..i] == names[..i];
        DefinitionsSoFar(names, i + 1);
        RenderDef(ExportName(names[i]), defs[names[i]]);
        i := i + 1;
      }
      assert names[..i] == names;
    }

    lemma {:induction false} DefinitionsSoFar(names: seq<string>, i: nat)
      requires i <= |names| && (forall n :: n in names ==> n in defs) && WithDefinitions(defs, names).Some?
      ensures WithDefinitions(defs, names[..i]).Some?
      decreases |names|
    {
      hide ExportName, WithDefinition;
      if i == |names| {
        assert names[..i] == names;
      } else {
        assert names[..|names| - 1][..i] == names[..i];
        DefinitionsSoFar(names[..|names| - 1], i);
      }
    }

    method RenderTypes()
      requires InjectiveNames(defs) && Written() == EMPTY && !CircleAsked(defs, Sorted(defs.Keys))
      modifies this
      ensures Rendered(defs) == Some(Written())
      ensures forall d :: d in defs ==> ExportName(d) in DeclNames(decls)
      ensures forall it :: it in inline ==> it.name in DeclNames(decls)
      ensures OnlyTagsRepeat(decls)
      ensures HasRepeat(decls) <==> Clashes(defs, Sorted(defs.Keys))
      ensures RefsResolve(defs) ==> forall d :: d in decls ==> NamesInBody(d.body) <= DeclNames(decls)
      ensures AllHaveSources(defs, Written())
    {
      hide ExportName, WithDefinitions, WithInlines, Clashes, HasRepeat, OnlyTagsRepeat, NamesInBody, RefsWithin, DeclNames;
      hide InjectiveNames, RefsResolve, Sorted, CircleAsked, AllHaveSources;
      RenderingReturnsIff(defs);
      RenderDefinitions();
      RenderInlines();
      RenderedIsClosed(Written());
      EveryBodyHasItsSource(defs);
    }

    lemma RenderedIsClosed(o: Output)
      requires !CircleAsked(defs, Sorted(defs.Keys)) && Rendered(defs) == Some(o)
      ensures forall d :: d in defs ==> ExportName(d) in DeclNames(o.decls)
      ensures forall it :: it in o.inline ==> it.name in DeclNames(o.decls)
      ensures OnlyTagsRepeat(o.decls)
      ensures HasRepeat(o.decls) <==> Clashes(defs, Sorted(defs.Keys))
      ensures RefsResolve(defs) ==> forall d :: d in o.decls ==> NamesInBody(d.body) <= DeclNames(o.decls)
    {
      hide ExportName, Rendered, Clashes, HasRepeat, OnlyTagsRepeat, NamesInBody, RefsWithin, DeclNames, CircleAsked, RefsResolve, Sorted;
      EveryNameIsDeclared(defs);
      if RefsResolve(defs) {
        EveryUsedNameIsDeclared(defs);
      }
    }

    lemma SkippedStruct(o: Output, name: string, s: Schema)
      requires name in o.emitted
      ensures WithStruct(o, name, s) == o
    {
    }
  }
}
