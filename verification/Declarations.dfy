/** What the protocol generator declares for each definition and inline object, as values. */
module Declarations {
  import opened Options
  import opened Strings
  import opened GoNames
  import opened Schemas
  import opened GoTypes

  datatype Field = Field(goName: string, json: string, typ: GoType)

  datatype Body =
    | StringEnum
    | Struct(fields: seq<Field>)
    | FlatUnion(tag: string, fields: seq<Field>)
    | Discriminator
    | Alias(target: GoType)

  datatype Decl = Decl(name: string, body: Body)

  /** The text written so far, the growing list of inline objects, and the names already declared. */
  datatype Output = Output(decls: seq<Decl>, inline: seq<Inline>, emitted: set<string>)

  const EMPTY := Output([], [], {})

  function Listed(x: Option<Inline>): seq<Inline> {
    if x.Some? then [x.value] else []
  }

  /** Two JSON names can normalise to one Go name; the second gets an underscore. */
  function Unused(goName: string, used: set<string>): string {
    if goName in used then goName + "_" else goName
  }

  // ---------- structs ----------

  function StructFields(owner: string, s: Schema, keys: seq<string>, used: set<string>): seq<Field>
    requires forall k :: k in keys ==> k in s.properties
  {
    if keys == [] then []
    else
      var f := keys[0];
      if ExportName(f) == "" then StructFields(owner, s, keys[1..], used)
      else
        var goName := Unused(ExportName(f), used);
        [Field(goName, f, GoTypeOf(s.properties[f], owner, f).0)] + StructFields(owner, s, keys[1..], used + {goName})
  }

  function StructInlines(owner: string, s: Schema, keys: seq<string>): seq<Inline>
    requires forall k :: k in keys ==> k in s.properties
  {
    if keys == [] then []
    else
      (if ExportName(keys[0]) == "" then [] else Listed(GoTypeOf(s.properties[keys[0]], owner, keys[0]).1))
      + StructInlines(owner, s, keys[1..])
  }

  lemma StructStep(owner: string, s: Schema, keys: seq<string>, i: nat, used: set<string>)
    requires i < |keys| && forall k :: k in keys ==> k in s.properties
    ensures var f := keys[i]; var goName := Unused(ExportName(f), used); var r := GoTypeOf(s.properties[f], owner, f);
      && StructFields(owner, s, keys[i..], used) ==
        (if ExportName(f) == "" then StructFields(owner, s, keys[i + 1..], used)
         else [Field(goName, f, r.0)] + StructFields(owner, s, keys[i + 1..], used + {goName}))
      && StructInlines(owner, s, keys[i..]) ==
        (if ExportName(f) == "" then [] else Listed(r.1)) + StructInlines(owner, s, keys[i + 1..])
  {
    hide GoTypeOf, ExportName;
    assert keys[i..][1..] == keys[i + 1..];
  }

  lemma StructDone(owner: string, s: Schema, used: set<string>)
    ensures StructFields(owner, s, [], used) == [] && StructInlines(owner, s, []) == []
  {
  }

  /** The Go names of the first `n` fields. */
  function NamesUpTo(fs: seq<Field>, n: nat): set<string>
    requires n <= |fs|
  {
    set i | 0 <= i < n :: fs[i].goName
  }

  /** Every field has the Go name of its JSON name, with an underscore exactly if that name was used. */
  ghost predicate NamedInTurn(fs: seq<Field>, used: set<string>) {
    forall i :: 0 <= i < |fs| ==>
      fs[i].goName == ExportName(fs[i].json)
        + if ExportName(fs[i].json) in used + NamesUpTo(fs, i) then "_" else ""
  }

  lemma NamedCons(f: Field, fs: seq<Field>, used: set<string>)
    requires NamedInTurn(fs, used + {f.goName})
    requires f.goName == ExportName(f.json) + if ExportName(f.json) in used then "_" else ""
    ensures NamedInTurn([f] + fs, used)
  {
    hide ExportName;
    var gs := [f] + fs;
    forall i | 0 < i < |gs|
      ensures used + NamesUpTo(gs, i) == used + {f.goName} + NamesUpTo(fs, i - 1)
    {
      NamesShift(f, fs, i);
    }
    assert NamesUpTo(gs, 0) == {};
  }

  lemma NamesShift(f: Field, fs: seq<Field>, i: nat)
    requires 0 < i <= |fs| + 1
    ensures NamesUpTo([f] + fs, i) == {f.goName} + NamesUpTo(fs, i - 1)
  {
    var gs := [f] + fs;
    forall x
      ensures x in NamesUpTo(gs, i) <==> x in {f.goName} + NamesUpTo(fs, i - 1)
    {
      if x in NamesUpTo(fs, i - 1) {
        var j :| 0 <= j < i - 1 && fs[j].goName == x;
        assert gs[j + 1].goName == x;
      }
      if x == f.goName {
        assert gs[0].goName == x;
      }
    }
  }

  ghost predicate HasField(fs: seq<Field>, p: string) {
    exists f :: f in fs && f.json == p
  }

  /** The fields of the struct for a schema: one for each property that has a Go name, in name order, of
      the type of the property and under its Go name. */
  ghost predicate DescribesStruct(fs: seq<Field>, owner: string, s: Schema) {
    && (forall i, j :: 0 <= i < j < |fs| ==> Leq(fs[i].json, fs[j].json) && fs[i].json != fs[j].json)
    && (forall p :: HasField(fs, p) <==> p in s.properties && ExportName(p) != "")
    && (forall f :: f in fs ==> f.json in s.properties && f.typ == GoTypeOf(s.properties[f.json], owner, f.json).0)
    && NamedInTurn(fs, {})
  }

  /** The same of the fields for some of the properties, after some names were used. */
  ghost predicate DescribesSome(fs: seq<Field>, owner: string, s: Schema, keys: seq<string>, used: set<string>) {
    && (forall i, j :: 0 <= i < j < |fs| ==> Leq(fs[i].json, fs[j].json) && fs[i].json != fs[j].json)
    && (forall p :: HasField(fs, p) <==> p in keys && ExportName(p) != "")
    && (forall f :: f in fs ==> f.json in s.properties && f.typ == GoTypeOf(s.properties[f.json], owner, f.json).0)
    && NamedInTurn(fs, used)
  }

  lemma DescribesOneMore(fs: seq<Field>, owner: string, s: Schema, keys: seq<string>, used: set<string>)
    requires keys != [] && InOrder(keys) && (forall k :: k in keys ==> k in s.properties) && ExportName(keys[0]) != ""
    requires DescribesSome(fs, owner, s, keys[1..], used + {Unused(ExportName(keys[0]), used)})
    ensures var f := Field(Unused(ExportName(keys[0]), used), keys[0], GoTypeOf(s.properties[keys[0]], owner, keys[0]).0);
      DescribesSome([f] + fs, owner, s, keys, used)
  {
    hide ExportName, GoTypeOf, Leq, NamedInTurn;
    var f := Field(Unused(ExportName(keys[0]), used), keys[0], GoTypeOf(s.properties[keys[0]], owner, keys[0]).0);
    NamedCons(f, fs, used);
    forall j | 0 <= j < |fs|
      ensures Leq(f.json, fs[j].json) && f.json != fs[j].json
    {
      assert HasField(fs, fs[j].json);
      var i :| 0 <= i < |keys[1..]| && keys[1..][i] == fs[j].json;
      assert keys[i + 1] == fs[j].json;
    }
    assert forall g :: g in [f] + fs <==> g == f || g in fs;
    forall p
      ensures HasField([f] + fs, p) <==> p in keys && ExportName(p) != ""
    {
      assert HasField([f] + fs, p) <==> p == f.json || HasField(fs, p) by {
        FieldsCons(f, fs, p);
      }
      assert p in keys <==> p == keys[0] || p in keys[1..];
    }
  }

  lemma FieldsCons(f: Field, fs: seq<Field>, p: string)
    ensures HasField([f] + fs, p) <==> p == f.json || HasField(fs, p)
  {
    assert forall g :: g in [f] + fs <==> g == f || g in fs;
  }

  lemma {:induction false} StructFieldsDescribe(owner: string, s: Schema, keys: seq<string>, used: set<string>)
    requires InOrder(keys) && forall k :: k in keys ==> k in s.properties
    ensures DescribesSome(StructFields(owner, s, keys, used), owner, s, keys, used)
    decreases |keys|
  {
    hide ExportName, GoTypeOf, Leq, DescribesSome;
    if keys == [] {
      NothingDescribed(owner, s, used);
    } else if ExportName(keys[0]) == "" {
      StructFieldsDescribe(owner, s, keys[1..], used);
      SkippedName(StructFields(owner, s, keys[1..], used), owner, s, keys, used);
    } else {
      StructFieldsDescribe(owner, s, keys[1..], used + {Unused(ExportName(keys[0]), used)});
      DescribesOneMore(StructFields(owner, s, keys[1..], used + {Unused(ExportName(keys[0]), used)}), owner, s, keys, used);
    }
  }

  lemma NothingDescribed(owner: string, s: Schema, used: set<string>)
    ensures DescribesSome([], owner, s, [], used)
  {
  }

  lemma SkippedName(fs: seq<Field>, owner: string, s: Schema, keys: seq<string>, used: set<string>)
    requires keys != [] && ExportName(keys[0]) == "" && DescribesSome(fs, owner, s, keys[1..], used)
    ensures DescribesSome(fs, owner, s, keys, used)
  {
    hide ExportName, GoTypeOf, Leq, NamedInTurn;
    assert forall p :: p in keys <==> p == keys[0] || p in keys[1..];
  }

  /** What is declared for a schema as a struct describes it. */
  lemma StructDescribes(owner: string, s: Schema)
    ensures DescribesStruct(StructFields(owner, s, Sorted(s.properties.Keys), {}), owner, s)
  {
    SortedInOrder(s.properties.Keys);
    hide Sorted, Leq, ExportName, GoTypeOf, NamedInTurn, StructFields;
    StructFieldsDescribe(owner, s, Sorted(s.properties.Keys), {});
  }

  ghost function WithStruct(o: Output, name: string, s: Schema): Output {
    if name in o.emitted then o
    else
      var keys := Sorted(s.properties.Keys);
      Output(o.decls + [Decl(name, Struct(StructFields(name, s, keys, {})))],
             o.inline + StructInlines(name, s, keys),
             o.emitted + {name})
  }

  // ---------- flattened unions ----------

  function ArmTypes(owner: string, arms: seq<Schema>, p: string): seq<GoType> {
    if arms == [] then []
    else
      var arm := arms[|arms| - 1];
      ArmTypes(owner, arms[..|arms| - 1], p)
      + if p in arm.properties then [GoTypeOf(arm.properties[p], owner, p).0] else []
  }

  /** The properties of one arm that neither carry the tag nor occurred before. */
  function NewProperties(props: seq<string>, tag: string, before: seq<string>): seq<string> {
    if props == [] then []
    else
      var n := |props| - 1;
      NewProperties(props[..n], tag, before)
      + if props[n] == tag || props[n] in before then [] else [props[n]]
  }

  /** The non-tag properties of all arms, each where it first occurs. */
  ghost function UnionOrder(arms: seq<Schema>, tag: string): seq<string> {
    if arms == [] then []
    else
      var n := |arms| - 1;
      var before := UnionOrder(arms[..n], tag);
      before + NewProperties(Sorted(arms[n].properties.Keys), tag, before)
  }

  function ArmInlines(owner: string, arm: Schema, props: seq<string>, tag: string): seq<Inline>
    requires forall p :: p in props ==> p in arm.properties
  {
    if props == [] then []
    else
      var n := |props| - 1;
      ArmInlines(owner, arm, props[..n], tag)
      + if props[n] == tag then [] else Listed(GoTypeOf(arm.properties[props[n]], owner, props[n]).1)
  }

  lemma ArmStep(owner: string, arm: Schema, props: seq<string>, i: nat, tag: string, before: seq<string>)
    requires i < |props| && forall p :: p in props ==> p in arm.properties
    ensures var p := props[i];
      && NewProperties(props[..i + 1], tag, before) ==
        NewProperties(props[..i], tag, before) + (if p == tag || p in before then [] else [p])
      && ArmInlines(owner, arm, props[..i + 1], tag) ==
        ArmInlines(owner, arm, props[..i], tag) + (if p == tag then [] else Listed(GoTypeOf(arm.properties[p], owner, p).1))
  {
    hide GoTypeOf;
    assert props[..i + 1][..i] == props[..i];
  }

  lemma ArmStart(owner: string, arm: Schema, tag: string, before: seq<string>)
    ensures NewProperties([], tag, before) == [] && ArmInlines(owner, arm, [], tag) == []
  {
  }

  ghost function UnionInlines(owner: string, arms: seq<Schema>, tag: string): seq<Inline> {
    if arms == [] then []
    else
      var n := |arms| - 1;
      UnionInlines(owner, arms[..n], tag) + ArmInlines(owner, arms[n], Sorted(arms[n].properties.Keys), tag)
  }

  function UnionFields(order: seq<string>, types: map<string, GoType>, used: set<string>): seq<Field>
    requires forall p :: p in order ==> p in types
  {
    if order == [] then []
    else
      var goName := Unused(ExportName(order[0]), used);
      [Field(goName, order[0], types[order[0]])] + UnionFields(order[1..], types, used + {goName})
  }

  ghost predicate FieldReturns(defs: map<string, Schema>, owner: string, arms: seq<Schema>, p: string) {
    ArmTypes(owner, arms, p) != [] ==> Folded(defs, ArmTypes(owner, arms, p)).Some?
  }

  /** Folding the fields of the union returns. */
  ghost predicate UnionReturns(defs: map<string, Schema>, owner: string, arms: seq<Schema>, tag: string) {
    forall p :: p in UnionOrder(arms, tag) ==> FieldReturns(defs, owner, arms, p)
  }

  /** The field types of a union, folded over its arms. */
  ghost function UnionTypes(defs: map<string, Schema>, owner: string, arms: seq<Schema>, tag: string): map<string, GoType>
    requires UnionReturns(defs, owner, arms, tag)
  {
    map p | p in UnionOrder(arms, tag) && ArmTypes(owner, arms, p) != [] ::
      assert FieldReturns(defs, owner, arms, p);
      Folded(defs, ArmTypes(owner, arms, p)).value
  }

  /** The arms give the field different types, and looking up the kind of one of them does not return. */
  ghost predicate FieldLoops(defs: map<string, Schema>, owner: string, arms: seq<Schema>, p: string) {
    var ts := ArmTypes(owner, arms, p);
    (exists t, u :: t in ts && u in ts && t != u) && exists t :: t in ts && Loops(defs, t)
  }

  lemma FieldReturnsIff(defs: map<string, Schema>, owner: string, arms: seq<Schema>, p: string)
    ensures FieldReturns(defs, owner, arms, p) <==> !FieldLoops(defs, owner, arms, p)
  {
    hide Folded, Loops, ArmTypes;
    var ts := ArmTypes(owner, arms, p);
    if ts != [] {
      FoldReturnsIff(defs, ts);
      assert ts[0] in ts;
    }
  }

  /** Folding a union returns exactly when no non-tag property loops. */
  lemma UnionReturnsIff(defs: map<string, Schema>, owner: string, arms: seq<Schema>, tag: string)
    ensures UnionReturns(defs, owner, arms, tag) <==> forall p :: p != tag ==> !FieldLoops(defs, owner, arms, p)
  {
    hide FieldReturns, FieldLoops, UnionOrder, OccursIn, ArmTypes;
    UnionOrderIsExact(arms, tag);
    forall p
      ensures FieldReturns(defs, owner, arms, p) <==> !FieldLoops(defs, owner, arms, p)
      ensures FieldLoops(defs, owner, arms, p) ==> OccursIn(arms, p)
    {
      FieldReturnsIff(defs, owner, arms, p);
      LoopingFieldOccurs(defs, owner, arms, p);
    }
  }

  lemma LoopingFieldOccurs(defs: map<string, Schema>, owner: string, arms: seq<Schema>, p: string)
    ensures FieldLoops(defs, owner, arms, p) ==> OccursIn(arms, p)
  {
    hide Loops, ArmTypes;
    ArmTypesOccur(owner, arms, p);
  }

  lemma {:induction false} NewPropertiesAre(props: seq<string>, tag: string, before: seq<string>)
    ensures forall p :: p in NewProperties(props, tag, before) <==> p in props && p != tag && p !in before
    decreases |props|
  {
    if props != [] {
      var n := |props| - 1;
      NewPropertiesAre(props[..n], tag, before);
      assert forall p :: p in props <==> p in props[..n] || p == props[n];
    }
  }

  ghost predicate Distinct(ps: seq<string>) {
    forall i, j :: 0 <= i < j < |ps| ==> ps[i] != ps[j]
  }

  ghost predicate OccursIn(arms: seq<Schema>, p: string) {
    exists a :: a in arms && p in a.properties
  }

  lemma OccursInSnoc(arms: seq<Schema>, a: Schema)
    ensures forall p :: OccursIn(arms + [a], p) <==> OccursIn(arms, p) || p in a.properties
  {
    forall p
      ensures OccursIn(arms + [a], p) <==> OccursIn(arms, p) || p in a.properties
    {
      if p in a.properties {
        assert a in arms + [a];
      } else if OccursIn(arms, p) {
        var b :| b in arms && p in b.properties;
        assert b in arms + [a];
      }
    }
  }

  lemma DistinctConcat(ps: seq<string>, qs: seq<string>)
    requires Distinct(ps) && Distinct(qs) && forall q :: q in qs ==> q !in ps
    ensures Distinct(ps + qs)
  {
    forall i, j | 0 <= i < j < |ps + qs|
      ensures (ps + qs)[i] != (ps + qs)[j]
    {
      if i < |ps| <= j {
        assert qs[j - |ps|] in qs && ps[i] in ps;
      }
    }
  }

  lemma {:induction false} NewPropertiesDistinct(props: seq<string>, tag: string, before: seq<string>)
    requires Distinct(props)
    ensures Distinct(NewProperties(props, tag, before))
    decreases |props|
  {
    if props != [] {
      var n := |props| - 1;
      NewPropertiesDistinct(props[..n], tag, before);
      NewPropertiesAre(props[..n], tag, before);
      assert props[n] !in props[..n];
    }
  }

  lemma KeysAreDistinct(s: set<string>)
    ensures Distinct(Sorted(s))
  {
    SortedInOrder(s);
  }

  lemma NothingOccurs(tag: string)
    ensures Distinct([]) && forall p :: !OccursIn([], p)
  {
  }

  /** Every non-tag property that occurs in any arm is listed exactly once, and no other. */
  lemma {:induction false} UnionOrderIsExact(arms: seq<Schema>, tag: string)
    ensures Distinct(UnionOrder(arms, tag))
    ensures forall p :: p in UnionOrder(arms, tag) <==> p != tag && OccursIn(arms, p)
    decreases |arms|
  {
    hide OccursIn, Distinct, NewProperties, Sorted;
    if arms != [] {
      var n := |arms| - 1;
      var before := UnionOrder(arms[..n], tag);
      var keys := Sorted(arms[n].properties.Keys);
      UnionOrderIsExact(arms[..n], tag);
      NewPropertiesAre(keys, tag, before);
      KeysAreDistinct(arms[n].properties.Keys);
      NewPropertiesDistinct(keys, tag, before);
      DistinctConcat(before, NewProperties(keys, tag, before));
      OccursInSnoc(arms[..n], arms[n]);
      assert arms == arms[..n] + [arms[n]];
    } else {
      NothingOccurs(tag);
    }
  }

  lemma {:induction false} ArmTypesOccur(owner: string, arms: seq<Schema>, p: string)
    ensures ArmTypes(owner, arms, p) != [] <==> OccursIn(arms, p)
    decreases |arms|
  {
    hide GoTypeOf;
    if arms != [] {
      var n := |arms| - 1;
      ArmTypesOccur(owner, arms[..n], p);
      OccursInSnoc(arms[..n], arms[n]);
      assert arms == arms[..n] + [arms[n]];
    }
  }

  lemma UnionTypesKeys(defs: map<string, Schema>, owner: string, arms: seq<Schema>, tag: string)
    requires UnionReturns(defs, owner, arms, tag)
    ensures forall p :: p in UnionTypes(defs, owner, arms, tag) <==> p in UnionOrder(arms, tag)
  {
    hide Folded, UnionReturns;
    UnionOrderIsExact(arms, tag);
    forall p | p in UnionOrder(arms, tag)
      ensures ArmTypes(owner, arms, p) != []
    {
      ArmTypesOccur(owner, arms, p);
    }
  }

  ghost function FieldsOfUnion(defs: map<string, Schema>, owner: string, s: Schema, tag: string): seq<Field>
    requires UnionReturns(defs, owner, s.oneOf, tag)
  {
    UnionTypesKeys(defs, owner, s.oneOf, tag);
    UnionFields(UnionOrder(s.oneOf, tag), UnionTypes(defs, owner, s.oneOf, tag), {ExportName(tag)})
  }

  lemma {:induction false} UnionFieldsFollowOrder(order: seq<string>, types: map<string, GoType>, used: set<string>)
    requires forall p :: p in order ==> p in types
    ensures var fs := UnionFields(order, types, used);
      && |fs| == |order| && (forall i :: 0 <= i < |fs| ==> fs[i].json == order[i] && fs[i].typ == types[order[i]])
      && NamedInTurn(fs, used)
    decreases |order|
  {
    hide ExportName, NamedInTurn;
    if order != [] {
      var goName := Unused(ExportName(order[0]), used);
      UnionFieldsFollowOrder(order[1..], types, used + {goName});
      NamedCons(Field(goName, order[0], types[order[0]]), UnionFields(order[1..], types, used + {goName}), used);
    } else {
      NobodyNamed(used);
    }
  }

  lemma NobodyNamed(used: set<string>)
    ensures NamedInTurn([], used)
  {
  }

  /** A flattened union has exactly one field per non-tag property occurring in any arm, and its type
      is the declarative one for the types the arms give it. */
  lemma UnionHasOneFieldPerProperty(defs: map<string, Schema>, owner: string, s: Schema, tag: string)
    requires UnionReturns(defs, owner, s.oneOf, tag)
    ensures var fs := FieldsOfUnion(defs, owner, s, tag);
      && (forall i, j :: 0 <= i < j < |fs| ==> fs[i].json != fs[j].json)
      && (forall p :: HasField(fs, p) <==> p != tag && OccursIn(s.oneOf, p))
      && (forall f :: f in fs ==>
          ArmTypes(owner, s.oneOf, f.json) != [] && IsFieldType(defs, ArmTypes(owner, s.oneOf, f.json), f.typ))
      && NamedInTurn(fs, {ExportName(tag)})
  {
    hide GoTypeOf, ExportName, IsFieldType, UnionOrder, ArmTypes, UnionFields, Folded, NamedInTurn;
    var fs := FieldsOfUnion(defs, owner, s, tag);
    var order := UnionOrder(s.oneOf, tag);
    UnionTypesKeys(defs, owner, s.oneOf, tag);
    UnionFieldsFollowOrder(order, UnionTypes(defs, owner, s.oneOf, tag), {ExportName(tag)});
    UnionOrderIsExact(s.oneOf, tag);
    forall p
      ensures HasField(fs, p) <==> p in order
    {
      if p in order {
        var i :| 0 <= i < |order| && order[i] == p;
        assert fs[i] in fs;
      }
    }
    forall f | f in fs
      ensures ArmTypes(owner, s.oneOf, f.json) != [] && IsFieldType(defs, ArmTypes(owner, s.oneOf, f.json), f.typ)
    {
      assert HasField(fs, f.json);
      ArmTypesOccur(owner, s.oneOf, f.json);
      assert FieldReturns(defs, owner, s.oneOf, f.json);
      FoldedIsFieldType(defs, ArmTypes(owner, s.oneOf, f.json));
    }
  }

  lemma {:induction false} ArmTypesConcat(owner: string, arms: seq<Schema>, more: seq<Schema>, p: string)
    ensures ArmTypes(owner, arms + more, p) == ArmTypes(owner, arms, p) + ArmTypes(owner, more, p)
    decreases |more|
  {
    hide GoTypeOf;
    if more == [] {
      assert arms + more == arms;
    } else {
      var n := |more| - 1;
      assert (arms + more)[..|arms| + n] == arms + more[..n];
      ArmTypesConcat(owner, arms, more[..n], p);
    }
  }

  lemma SameWithout(front: seq<Schema>, x: Schema, pre: seq<Schema>, post: seq<Schema>)
    requires multiset(front + [x]) == multiset(pre + [x] + post)
    ensures multiset(front) == multiset(pre + post)
  {
    assert multiset(front + [x]) == multiset(front) + multiset{x};
    assert multiset(pre + [x] + post) == multiset(pre) + multiset{x} + multiset(post);
    assert multiset(pre + post) == multiset(pre) + multiset(post);
    assert multiset(front) == multiset(front + [x]) - multiset{x};
  }

  lemma SameWith(front: seq<GoType>, x: seq<GoType>, pre: seq<GoType>, post: seq<GoType>)
    requires multiset(front) == multiset(pre + post)
    ensures multiset(front + x) == multiset(pre + x + post)
  {
    assert multiset(pre + x + post) == multiset(pre) + multiset(x) + multiset(post);
    assert multiset(pre + post) == multiset(pre) + multiset(post);
  }

  function IndexOf(x: Schema, arms: seq<Schema>): (i: nat)
    requires x in arms
    ensures i < |arms| && arms[i] == x
  {
    if arms[0] == x then 0 else 1 + IndexOf(x, arms[1..])
  }

  lemma ArmTypesOfThree(owner: string, pre: seq<Schema>, x: Schema, post: seq<Schema>, p: string)
    ensures ArmTypes(owner, pre + [x] + post, p) == ArmTypes(owner, pre, p) + ArmTypes(owner, [x], p) + ArmTypes(owner, post, p)
  {
    hide ArmTypes;
    ArmTypesConcat(owner, pre + [x], post, p);
    ArmTypesConcat(owner, pre, [x], p);
  }

  /** Moving the last arm elsewhere moves its type. */
  lemma ArmTypesMoved(owner: string, front: seq<Schema>, x: Schema, pre: seq<Schema>, post: seq<Schema>, p: string)
    requires multiset(ArmTypes(owner, front, p)) == multiset(ArmTypes(owner, pre + post, p))
    ensures multiset(ArmTypes(owner, front + [x], p)) == multiset(ArmTypes(owner, pre + [x] + post, p))
  {
    hide ArmTypes;
    ArmTypesConcat(owner, front, [x], p);
    ArmTypesConcat(owner, pre, post, p);
    ArmTypesOfThree(owner, pre, x, post, p);
    SameWith(ArmTypes(owner, front, p), ArmTypes(owner, [x], p), ArmTypes(owner, pre, p), ArmTypes(owner, post, p));
  }

  lemma {:induction false} ArmTypesPermute(owner: string, arms: seq<Schema>, brms: seq<Schema>, p: string)
    requires multiset(arms) == multiset(brms)
    ensures multiset(ArmTypes(owner, arms, p)) == multiset(ArmTypes(owner, brms, p))
    decreases |arms|
  {
    hide ArmTypes;
    if arms == [] {
      assert |multiset(brms)| == 0;
      assert brms == [];
    } else {
      var n := |arms| - 1;
      var x := arms[n];
      assert x in multiset(arms) && x in brms;
      var i := IndexOf(x, brms);
      assert arms == arms[..n] + [x] && brms == brms[..i] + [x] + brms[i + 1..];
      SameWithout(arms[..n], x, brms[..i], brms[i + 1..]);
      ArmTypesPermute(owner, arms[..n], brms[..i] + brms[i + 1..], p);
      ArmTypesMoved(owner, arms[..n], x, brms[..i], brms[i + 1..], p);
    }
  }

  lemma {:induction false} SameFolds(defs: map<string, Schema>, owner: string, arms: seq<Schema>, brms: seq<Schema>, p: string)
    requires multiset(arms) == multiset(brms)
    ensures ArmTypes(owner, arms, p) == [] <==> ArmTypes(owner, brms, p) == []
    ensures ArmTypes(owner, arms, p) != [] ==>
      Folded(defs, ArmTypes(owner, arms, p)) == Folded(defs, ArmTypes(owner, brms, p))
  {
    hide ArmTypes, Folded;
    ArmTypesPermute(owner, arms, brms, p);
    var ts, us := ArmTypes(owner, arms, p), ArmTypes(owner, brms, p);
    assert |multiset(ts)| == |ts| && |multiset(us)| == |us|;
    if ts != [] {
      FieldTypeIgnoresArmOrder(defs, ts, us);
    }
  }

  /** Reordering the arms of a union changes neither whether folding it returns, nor which fields it
      has, nor the type of any. */
  lemma UnionIgnoresArmOrder(defs: map<string, Schema>, owner: string, s: Schema, t: Schema, tag: string)
    requires multiset(s.oneOf) == multiset(t.oneOf)
    ensures UnionReturns(defs, owner, s.oneOf, tag) <==> UnionReturns(defs, owner, t.oneOf, tag)
    ensures UnionReturns(defs, owner, s.oneOf, tag) ==>
      UnionTypes(defs, owner, s.oneOf, tag) == UnionTypes(defs, owner, t.oneOf, tag)
    ensures multiset(UnionOrder(s.oneOf, tag)) == multiset(UnionOrder(t.oneOf, tag))
  {
    hide GoTypeOf, ArmTypes, UnionOrder, Folded, OccursIn, Distinct;
    SameOrder(s.oneOf, t.oneOf, tag);
    forall p
      ensures ArmTypes(owner, s.oneOf, p) == [] <==> ArmTypes(owner, t.oneOf, p) == []
      ensures ArmTypes(owner, s.oneOf, p) != [] ==>
        Folded(defs, ArmTypes(owner, s.oneOf, p)) == Folded(defs, ArmTypes(owner, t.oneOf, p))
    {
      SameFolds(defs, owner, s.oneOf, t.oneOf, p);
    }
    assert forall p :: FieldReturns(defs, owner, s.oneOf, p) <==> FieldReturns(defs, owner, t.oneOf, p);
  }

  lemma SameOrder(arms: seq<Schema>, brms: seq<Schema>, tag: string)
    requires multiset(arms) == multiset(brms)
    ensures forall p :: p in UnionOrder(arms, tag) <==> p in UnionOrder(brms, tag)
    ensures multiset(UnionOrder(arms, tag)) == multiset(UnionOrder(brms, tag))
  {
    hide UnionOrder, Distinct;
    UnionOrderIsExact(arms, tag);
    UnionOrderIsExact(brms, tag);
    assert forall a :: a in arms <==> a in multiset(arms);
    assert forall a :: a in brms <==> a in multiset(brms);
    assert forall p :: OccursIn(arms, p) <==> OccursIn(brms, p);
    DistinctSameElements(UnionOrder(arms, tag), UnionOrder(brms, tag));
  }

  lemma {:induction false} CountOfDistinct(ps: seq<string>, p: string)
    requires Distinct(ps)
    ensures multiset(ps)[p] == if p in ps then 1 else 0
    decreases |ps|
  {
    if ps != [] {
      var n := |ps| - 1;
      CountOfDistinct(ps[..n], p);
      assert ps == ps[..n] + [ps[n]];
      assert ps[n] !in ps[..n];
    }
  }

  lemma DistinctSameElements(ps: seq<string>, qs: seq<string>)
    requires Distinct(ps) && Distinct(qs) && forall p :: p in ps <==> p in qs
    ensures multiset(ps) == multiset(qs)
  {
    forall p
      ensures multiset(ps)[p] == multiset(qs)[p]
    {
      CountOfDistinct(ps, p);
      CountOfDistinct(qs, p);
    }
  }

  // ---------- definitions ----------

  predicate IsEnumDefinition(s: Schema) {
    (s.enums != [] && IsStringEnum(s)) || EnumUnion(s)
  }

  predicate IsUnionDefinition(s: Schema) {
    !IsEnumDefinition(s) && IsTaggedUnion(s)
  }

  /** The discriminator: the first, in sorted order, of the properties every arm pins. */
  ghost function TagOf(s: Schema): string
    requires IsTaggedUnion(s)
  {
    LeastExists(CommonTags(s.oneOf));
    var tag :| IsLeast(tag, CommonTags(s.oneOf));
    tag
  }

  /** None when folding the definition's union does not return. */
  ghost function WithDefinition(defs: map<string, Schema>, o: Output, name: string, s: Schema): Option<Output> {
    if name in o.emitted then Some(o)
    else if IsEnumDefinition(s) then
      Some(o.(decls := o.decls + [Decl(name, StringEnum)], emitted := o.emitted + {name}))
    else if IsTaggedUnion(s) then
      var tag := TagOf(s);
      if !UnionReturns(defs, name, s.oneOf, tag) then None
      else
        Some(Output(
          o.decls + [Decl(name, FlatUnion(tag, FieldsOfUnion(defs, name, s, tag))), Decl(name + "Type", Discriminator)],
          o.inline + UnionInlines(name, s.oneOf, tag),
          o.emitted + {name, name + "Type"}))
    else if s.properties != map[] then Some(WithStruct(o, name, s))
    else
      var (t, inline) := GoTypeOf(s, name, "");
      Some(Output(o.decls + [Decl(name, Alias(t))], o.inline + Listed(inline), o.emitted + {name}))
  }

  /** The definitions `names`, declared one after the other. */
  ghost function WithDefinitions(defs: map<string, Schema>, names: seq<string>): Option<Output>
    requires forall n :: n in names ==> n in defs
  {
    if names == [] then Some(EMPTY)
    else
      var n := |names| - 1;
      match WithDefinitions(defs, names[..n])
      case None => None
      case Some(o) => WithDefinition(defs, o, ExportName(names[n]), defs[names[n]])
  }

  // ---------- the growing worklist ----------

  ghost function Weight(items: seq<Inline>): nat {
    if items == [] then 0 else Size(items[0].s) + Weight(items[1..])
  }

  lemma {:induction false} WeightAppend(a: seq<Inline>, b: seq<Inline>)
    ensures Weight(a + b) == Weight(a) + Weight(b)
    decreases |a|
  {
    hide Size;
    if a == [] {
      assert a + b == b;
    } else {
      assert (a + b)[1..] == a[1..] + b;
      WeightAppend(a[1..], b);
    }
  }

  lemma {:induction false} StructInlinesAreLight(owner: string, s: Schema, keys: seq<string>)
    requires forall k :: k in keys ==> k in s.properties
    ensures Weight(StructInlines(owner, s, keys)) <= SizeOfFields(s, keys)
    decreases |keys|
  {
    hide Size, GoTypeOf, ExportName;
    if keys != [] {
      var inline := GoTypeOf(s.properties[keys[0]], owner, keys[0]).1;
      InlineIsNoLarger(s.properties[keys[0]], owner, keys[0]);
      StructInlinesAreLight(owner, s, keys[1..]);
      WeightAppend(Listed(inline), StructInlines(owner, s, keys[1..]));
      WeightAppend([], StructInlines(owner, s, keys[1..]));
      assert Weight(Listed(inline)) <= Size(s.properties[keys[0]]) by {
        if inline.Some? {
          assert Listed(inline)[1..] == [];
        }
      }
    }
  }

  /** Rendering the next inline object replaces it in the worklist by strictly less. */
  lemma WorklistShrinks(o: Output, i: nat)
    requires i < |o.inline|
    ensures var t := WithStruct(o, o.inline[i].name, o.inline[i].s);
      i + 1 <= |t.inline| && Weight(t.inline[i + 1..]) < Weight(o.inline[i..])
  {
    hide Size, GoTypeOf, ExportName, StructFields, StructInlines;
    var it := o.inline[i];
    var keys := Sorted(it.s.properties.Keys);
    var t := WithStruct(o, it.name, it.s);
    StructInlinesAreLight(it.name, it.s, keys);
    SizeOfParts(it.s);
    SizeIsPositive(it.s);
    assert o.inline[i..][1..] == o.inline[i + 1..];
    if it.name !in o.emitted {
      assert t.inline[i + 1..] == o.inline[i + 1..] + StructInlines(it.name, it.s, keys);
      WeightAppend(o.inline[i + 1..], StructInlines(it.name, it.s, keys));
    }
  }

  lemma SizeIsPositive(s: Schema)
    ensures Size(s) > 0
  {
  }

  /** The inline objects from index `i` on, declared while the list grows. */
  ghost function WithInlines(o: Output, i: nat): Output
    requires i <= |o.inline|
    decreases Weight(o.inline[i..])
  {
    if i == |o.inline| then o
    else
      WorklistShrinks(o, i);
      WithInlines(WithStruct(o, o.inline[i].name, o.inline[i].s), i + 1)
  }

  /** The whole output; None when rendering does not return. */
  ghost function Rendered(defs: map<string, Schema>): Option<Output> {
    match WithDefinitions(defs, Sorted(defs.Keys))
    case None => None
    case Some(o) => Some(WithInlines(o, 0))
  }
}
