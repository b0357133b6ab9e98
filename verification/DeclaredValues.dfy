/** The declared types measured against the values their schemas admit: structs, enumerations, aliases
    and flattened unions, and the widening of a union's fields. */
module DeclaredValues {
  import opened Options
  import opened Strings
  import opened GoNames
  import opened Schemas
  import opened GoTypes
  import opened Declarations
  import opened DeclaredBodies
  import opened JsonValues
  import opened FieldValues

  // ---------- fields ----------

  /** The values of the property reach its type: its schema is readable, and the struct of an object it
      hands out takes the object. */
  ghost predicate Reaches(refs: Meaning, names: Meaning, owner: string, s: Schema, p: string)
    requires p in s.properties
  {
    Readable(s.properties[p]) && InlineSound(refs, names, GoTypeOf(s.properties[p], owner, p).1)
  }

  ghost predicate AllReach(refs: Meaning, names: Meaning, owner: string, s: Schema) {
    forall p :: p in s.properties ==> Reaches(refs, names, owner, s, p)
  }

  lemma MembersAdmitted(refs: Meaning, s: Schema, v: Value, p: string)
    requires v.Members? && Admits(refs, s, v) && p in s.properties && p in v.fields
    ensures Admits(refs, s.properties[p], v.fields[p])
  {
  }

  /** A member that a schema admits under one of its properties is taken by the type of the property. */
  lemma MemberIsTaken(refs: Meaning, names: Meaning, owner: string, s: Schema, v: Value, p: string)
    requires RefsSound(refs, names) && AllReach(refs, names, owner, s)
    requires v.Members? && Admits(refs, s, v) && p in s.properties && p in v.fields
    ensures Takes(names, GoTypeOf(s.properties[p], owner, p).0, v.fields[p])
  {
    MembersAdmitted(refs, s, v, p);
    hide Admits, GoTypeOf, Readable, InlineSound, RefsSound;
    assert Reaches(refs, names, owner, s, p);
    FieldTakesItsValues(refs, names, s.properties[p], owner, p, v.fields[p]);
  }

  /** The struct that describes a schema takes every object the schema admits. */
  lemma StructTakesItsObjects(refs: Meaning, names: Meaning, owner: string, s: Schema, fs: seq<Field>, v: Value)
    requires DescribesStruct(fs, owner, s) && RefsSound(refs, names) && AllReach(refs, names, owner, s)
    requires v.Members? && Admits(refs, s, v)
    ensures FieldsTake(names, fs, v)
  {
    hide Admits, GoTypeOf, Takes, RefsSound, AllReach, ExportName, NamedInTurn, HasField;
    forall f | f in fs && f.json in v.fields
      ensures Takes(names, f.typ, v.fields[f.json])
    {
      MemberIsTaken(refs, names, owner, s, v, f.json);
    }
  }

  // ---------- JSON kinds ----------

  /** The type is one of the kind's. */
  predicate IsOfKind(kind: Kind, t: JsonType) {
    match kind
    case NoKind => false
    case StringKind => t == StringType
    case IntegerKind => t == IntegerType
    case NumberKind => t == NumberType || t == IntegerType
    case BooleanKind => t == BooleanType
  }

  predicate HasKind(kind: Kind, v: Value) {
    v.Null? || exists t :: t in {StringType, IntegerType, NumberType, BooleanType} && IsOfKind(kind, t) && IsOf(t, v)
  }

  /** All types named are the kind's, or admit at most null. */
  predicate OnlyKind(kind: Kind, ts: seq<JsonType>) {
    forall t :: t in ts ==> IsOfKind(kind, t) || t == NullType || t.OtherName?
  }

  /** What decides a definition's kind decides its values too. */
  ghost predicate KindIsPlain(def: Schema) {
    && (StringType in Types(def) ==> OnlyKind(StringKind, Types(def)))
    && (EnumUnion(def) ==> ArmsOnlyWords(if def.oneOf == [] then def.anyOf else def.oneOf))
    && (FirstScalar(Types(Base(def))) != NoKind ==> OnlyKind(FirstScalar(Types(Base(def))), Types(Base(def))))
  }

  ghost predicate Leads(refs: Meaning, defs: map<string, Schema>, ref: string, v: Value) {
    refs(ref, v) ==> ref != "" && AfterLastSlash(ref) in defs && Admits(refs, defs[AfterLastSlash(ref)], v)
  }

  /** What a reference admits the definition it leads to admits. */
  ghost predicate RefsLead(refs: Meaning, defs: map<string, Schema>) {
    forall ref: string, v: Value :: Leads(refs, defs, ref, v)
  }

  lemma OnlyKindAdmitted(refs: Meaning, kind: Kind, s: Schema, v: Value)
    requires Admits(refs, s, v) && Types(s) != [] && OnlyKind(kind, Types(s))
    ensures HasKind(kind, v)
  {
    AdmitsInside(refs, s, v);
    hide Admits;
    var t :| t in Types(s) && IsOf(t, v);
  }

  lemma WordHasKind(v: Value)
    requires v.Null? || v.Word?
    ensures HasKind(StringKind, v)
  {
    assert v.Word? ==> IsOfKind(StringKind, StringType) && IsOf(StringType, v);
  }

  lemma {:induction false} FirstScalarIsThere(ts: seq<JsonType>)
    ensures FirstScalar(ts) != NoKind ==> ts != []
  {
  }

  lemma StringEnumAdmits(refs: Meaning, s: Schema, v: Value)
    requires Admits(refs, s, v) && IsStringEnum(s) && KindIsPlain(s)
    ensures HasKind(StringKind, v)
  {
    if StringType in Types(s) {
      OnlyKindAdmitted(refs, StringKind, s, v);
    } else {
      EnumsTaken(refs, s, v);
      WordHasKind(v);
    }
  }

  /** A definition's own kind, found without a further reference, is that of its values. */
  lemma OwnKindIsTheValues(refs: Meaning, s: Schema, kind: Kind, v: Value)
    requires Admits(refs, s, v) && KindIsPlain(s) && kind != NoKind
    requires kind == if IsStringEnum(s) || EnumUnion(s) then StringKind else FirstScalar(Types(Base(s)))
    ensures HasKind(kind, v)
  {
    hide Base, Admits, HasKind, EnumUnion, IsStringEnum, FirstScalar;
    if IsStringEnum(s) {
      StringEnumAdmits(refs, s, v);
    } else if EnumUnion(s) {
      EnumUnionTaken(refs, s, v);
      WordHasKind(v);
    } else if v.Null? {
      NullHasKind(kind, v);
    } else {
      BaseAdmits(refs, s, v);
      FirstScalarIsThere(Types(Base(s)));
      OnlyKindAdmitted(refs, kind, Base(s), v);
    }
  }

  lemma NullHasKind(kind: Kind, v: Value)
    requires v.Null?
    ensures HasKind(kind, v)
  {
  }

  lemma DefinitionOf(defs: map<string, Schema>, d: string)
    requires InjectiveNames(defs) && d in defs
    ensures Definition(defs, ExportName(d)) == Some(defs[d])
  {
    hide ExportName;
  }

  /** The definitions and what is assumed of the names in them: they are told apart and not empty, what
      decides their kinds decides their values, references lead to them, and names take what references
      admit. */
  ghost predicate Faithful(refs: Meaning, names: Meaning, defs: map<string, Schema>) {
    && RefsSound(refs, names) && RefsLead(refs, defs) && InjectiveNames(defs)
    && forall x :: x in defs ==> KindIsPlain(defs[x]) && ExportName(x) != ""
  }

  lemma NextIs(defs: map<string, Schema>, d: string)
    requires InjectiveNames(defs) && d in defs
    ensures Next(defs, ExportName(d)).Some? ==>
      |Base(defs[d]).allOf| == 1 && Next(defs, ExportName(d)) == Some(RefName(Base(defs[d]).allOf[0].ref))
  {
    DefinitionOf(defs, d);
    hide Base, ExportName, EnumUnion, IsStringEnum, FirstScalar, InjectiveNames;
  }

  /** The definition a single `allOf` reference leads to admits what the schema admits. */
  lemma SingleReferenceAdmits(refs: Meaning, defs: map<string, Schema>, s: Schema, v: Value)
    requires RefsLead(refs, defs) && Admits(refs, s, v) && !v.Null?
    requires |Base(s).allOf| == 1 && Base(s).allOf[0].ref != ""
    ensures var e := AfterLastSlash(Base(s).allOf[0].ref); e in defs && Admits(refs, defs[e], v)
  {
    hide Base, Admits, AfterLastSlash;
    var base := Base(s);
    BaseAdmits(refs, s, v);
    AdmitsArms(refs, base, v);
    assert base.allOf[0] in base.allOf;
    AdmitsArms(refs, base.allOf[0], v);
    assert Leads(refs, defs, base.allOf[0].ref, v);
  }

  lemma EmptyHasNoKind(defs: map<string, Schema>, visited: set<string>)
    requires forall x :: x in defs ==> ExportName(x) != ""
    ensures NamedKind(defs, "", visited) in {None, Some(NoKind)}
  {
    hide ExportName;
    assert Definition(defs, "").None?;
  }

  /** If the lookup of a definition's name finds a kind, it is the kind of every value it admits. */
  lemma {:induction false} KindIsTheValues(refs: Meaning, names: Meaning, defs: map<string, Schema>, d: string,
                                           visited: set<string>, kind: Kind, v: Value)
    requires Faithful(refs, names, defs) && d in defs && Admits(refs, defs[d], v)
    ensures NamedKind(defs, ExportName(d), visited) == Some(kind) && kind != NoKind ==> HasKind(kind, v)
    decreases GoNamesOf(defs) - visited
  {
    hide Base, Admits, ExportName, EnumUnion, IsStringEnum, FirstScalar, KindIsPlain, InjectiveNames, HasKind, Next, RefsSound, RefsLead;
    DefinitionOf(defs, d);
    if v.Null? {
      NullHasKind(kind, v);
    } else if ExportName(d) !in visited && kind != NoKind {
      match Next(defs, ExportName(d)) {
        case None =>
          if OwnKind(defs, ExportName(d)) == kind {
            OwnKindIsTheValues(refs, defs[d], kind, v);
          }
        case Some(n) =>
          EmptyHasNoKind(defs, visited + {ExportName(d)});
          NextIs(defs, d);
          var ref := Base(defs[d]).allOf[0].ref;
          if ref != "" {
            SingleReferenceAdmits(refs, defs, defs[d], v);
            KindIsTheValues(refs, names, defs, AfterLastSlash(ref), visited + {ExportName(d)}, kind, v);
          }
      }
    }
  }

  /** The kind of values of a scalar type. */
  function KindOfType(t: JsonType): Kind {
    match t
    case StringType => StringKind
    case IntegerType => IntegerKind
    case NumberType => NumberKind
    case BooleanType => BooleanKind
    case _ => NoKind
  }

  lemma {:induction false} FirstScalarIs(ts: seq<JsonType>, t: JsonType)
    requires t in ts && forall u :: u in ts ==> u == t || u == NullType
    ensures FirstScalar(ts) == KindOfType(t)
  {
    assert ts[0] in ts && forall u :: u in ts <==> u == ts[0] || u in ts[1..];
    if ts[0] == NullType && t != NullType {
      FirstScalarIs(ts[1..], t);
    } else if KindOfType(t) == NoKind {
      NoScalars(ts);
    }
  }

  lemma {:induction false} NoScalars(ts: seq<JsonType>)
    requires forall t :: t in ts ==> KindOfType(t) == NoKind
    ensures FirstScalar(ts) == NoKind
  {
    if ts != [] {
      assert ts[0] in ts && forall u :: u in ts[1..] ==> u in ts;
      NoScalars(ts[1..]);
    }
  }

  /** And a definition of one type, if a scalar, has the kind of that type; one of strings has theirs. */
  lemma SoleTypeHasItsKind(defs: map<string, Schema>, d: string, t: JsonType)
    requires InjectiveNames(defs) && d in defs && HasSoleType(Base(defs[d]), t)
    ensures NamedKind(defs, ExportName(d), {}) ==
      Some(if IsStringEnum(defs[d]) || EnumUnion(defs[d]) then StringKind else KindOfType(t))
  {
    hide Base, ExportName, EnumUnion, IsStringEnum, InjectiveNames, FirstScalar;
    DefinitionOf(defs, d);
    FirstScalarIs(Types(Base(defs[d])), t);
  }

  // ---------- widened fields ----------

  lemma NamedTypeIs(s: Schema, owner: string, field: string)
    requires GoTypeOf(s, owner, field).0.Named?
    ensures var b := Base(s); var r := GoTypeOf(s, owner, field);
      || (b.ref != "" && r.0.name == RefName(b.ref))
      || (|b.allOf| == 1 && b.allOf[0] < s && r == GoTypeOf(b.allOf[0], owner, field))
      || (r.1.Some? && r.1.value.name == r.0.name)
  {
    hide Base, Size, ExportName, EnumUnion, FirstConcrete;
  }

  /** A value of a schema with a named type is that of an object it hands out, or a reference admits it. */
  lemma {:induction false} NamedComesFrom(refs: Meaning, s: Schema, owner: string, field: string, v: Value)
    requires Admits(refs, s, v) && !v.Null? && GoTypeOf(s, owner, field).0.Named?
    ensures var r := GoTypeOf(s, owner, field);
      || (r.1.Some? && r.1.value.name == r.0.name)
      || exists ref :: ref != "" && refs(ref, v) && RefName(ref) == r.0.name
    decreases s
  {
    BaseAdmits(refs, s, v);
    NamedTypeIs(s, owner, field);
    var b, r := Base(s), GoTypeOf(s, owner, field);
    AdmitsArms(refs, b, v);
    hide Base, Admits, GoTypeOf, ExportName;
    if !(b.ref != "" && r.0.name == RefName(b.ref)) && !(r.1.Some? && r.1.value.name == r.0.name) {
      assert b.allOf[0] in b.allOf;
      NamedComesFrom(refs, b.allOf[0], owner, field, v);
    }
  }

  /** A kind that a field's type has is the kind of every value its schema admits. */
  lemma FieldKindIsTheValues(refs: Meaning, names: Meaning, defs: map<string, Schema>, owner: string, s: Schema, p: string,
                             kind: Kind, v: Value)
    requires Faithful(refs, names, defs) && p in s.properties && Reaches(refs, names, owner, s, p)
    requires Admits(refs, s.properties[p], v)
    requires var r := GoTypeOf(s.properties[p], owner, p);
      && JsonKind(defs, r.0) == Some(kind) && kind != NoKind
      && (r.1.Some? ==> r.1.value.name !in GoNamesOf(defs))
    ensures HasKind(kind, v)
  {
    hide Admits, GoTypeOf, ExportName, NamedKind, Readable, InlineSound, KindIsPlain, InjectiveNames, AfterLastSlash;
    var r := GoTypeOf(s.properties[p], owner, p);
    if v.Null? {
    } else if !r.0.Named? {
      FieldTakesItsValues(refs, names, s.properties[p], owner, p, v);
      KindOfTaken(names, r.0, kind, v) by { assert JsonKind(defs, r.0) == Some(kind); }
    } else {
      NamedComesFrom(refs, s.properties[p], owner, p, v);
      NamelessHasNoKind(defs, r.0.name);
      var ref :| ref != "" && refs(ref, v) && RefName(ref) == r.0.name;
      assert Leads(refs, defs, ref, v);
      KindIsTheValues(refs, names, defs, AfterLastSlash(ref), {}, kind, v);
    }
  }

  lemma NamelessHasNoKind(defs: map<string, Schema>, name: string)
    ensures name !in GoNamesOf(defs) ==> NamedKind(defs, name, {}) == Some(NoKind)
  {
    hide ExportName;
    assert name !in GoNamesOf(defs) ==> Definition(defs, name).None?;
  }

  lemma KindOfTaken(names: Meaning, t: GoType, kind: Kind, v: Value)
    requires !t.Named? && Takes(names, t, v) && kind != NoKind && !v.Null?
    requires kind == match t
      case Text => StringKind
      case Int64 => IntegerKind
      case Uint64 => IntegerKind
      case Float64 => NumberKind
      case Bool => BooleanKind
      case _ => NoKind
    ensures HasKind(kind, v)
  {
    assert v.Whole? ==> IsOf(IntegerType, v);
    assert v.Decimal? ==> IsOf(NumberType, v);
    assert v.Word? ==> IsOf(StringType, v);
    assert v.Truth? ==> IsOf(BooleanType, v);
  }

  predicate InInt64(v: Value) {
    v.Whole? ==> -TWO_TO_THE_63 <= v.n < TWO_TO_THE_63
  }

  /** The canonical type of a kind takes its values, as far as integers fit. */
  lemma CanonicalTakes(names: Meaning, kind: Kind, v: Value)
    requires HasKind(kind, v) && kind != NoKind && (kind == IntegerKind ==> InInt64(v))
    ensures Takes(names, Canonical(kind), v)
  {
  }

  /** Widening is faithful but for the unsigned integers that the signed type cannot hold. */
  lemma WideningLosesUnsigned(names: Meaning, defs: map<string, Schema>, v: Value)
    ensures Widen(defs, Uint64, Int64) == Widen(defs, Int64, Uint64) == Some(Int64)
    ensures Takes(names, Uint64, v) || Takes(names, Int64, v) ==> (Takes(names, Int64, v) <==> InInt64(v))
    ensures Takes(names, Uint64, Whole(TWO_TO_THE_63)) && !Takes(names, Int64, Whole(TWO_TO_THE_63))
  {
  }

  lemma {:induction false} ArmTypesHas(owner: string, arms: seq<Schema>, arm: Schema, p: string)
    requires arm in arms && p in arm.properties
    ensures GoTypeOf(arm.properties[p], owner, p).0 in ArmTypes(owner, arms, p)
    decreases |arms|
  {
    hide GoTypeOf;
    if arms != [] {
      var n := |arms| - 1;
      if arms[n] != arm {
        ArmTypesHas(owner, arms[..n], arm, p);
      }
    }
  }

  /** Every property of the arm reaches its type, and no object it hands out has a definition's name. */
  ghost predicate ArmReaches(refs: Meaning, names: Meaning, defs: map<string, Schema>, owner: string, arm: Schema) {
    forall p :: p in arm.properties ==>
      && Reaches(refs, names, owner, arm, p)
      && (GoTypeOf(arm.properties[p], owner, p).1.Some? ==> GoTypeOf(arm.properties[p], owner, p).1.value.name !in GoNamesOf(defs))
  }

  lemma UnionMemberIsTaken(refs: Meaning, names: Meaning, defs: map<string, Schema>, owner: string, arms: seq<Schema>,
                           arm: Schema, p: string, t: GoType, v: Value)
    requires Faithful(refs, names, defs) && ArmReaches(refs, names, defs, owner, arm)
    requires arm in arms && p in arm.properties && IsFieldType(defs, ArmTypes(owner, arms, p), t)
    requires Admits(refs, arm.properties[p], v) && (t == Int64 ==> InInt64(v))
    ensures Takes(names, t, v)
  {
    hide Admits, GoTypeOf, ExportName, JsonKind, Readable, InlineSound, KindIsPlain, InjectiveNames, Takes, HasKind, ArmTypes, RefsSound, RefsLead;
    assert Reaches(refs, names, owner, arm, p);
    ArmTypesHas(owner, arms, arm, p);
    var ts, here := ArmTypes(owner, arms, p), GoTypeOf(arm.properties[p], owner, p).0;
    if AllAre(ts, here) {
      FieldTakesItsValues(refs, names, arm.properties[p], owner, p, v);
    } else {
      if kind :| kind != NoKind && AllOfKind(defs, ts, kind) {
        FieldKindIsTheValues(refs, names, defs, owner, arm, p, kind, v);
        CanonicalTakes(names, kind, v);
      } else {
        RawTakes(names, v);
      }
    }
  }

  lemma RawTakes(names: Meaning, v: Value)
    ensures Takes(names, RawJson, v)
  {
  }

  lemma Int64Holds(names: Meaning, v: Value)
    ensures Takes(names, Int64, v) ==> InInt64(v)
  {
  }

  /** A flattened union takes an object that one of its arms admits if and only if what it carries under
      the names of other arms' fields is taken there, as a schema leaves further members open, and the
      integers under signed fields fit. */
  lemma UnionTakesItsArms(refs: Meaning, names: Meaning, defs: map<string, Schema>, owner: string, s: Schema, tag: string,
                          fs: seq<Field>, arm: Schema, v: Value)
    requires Faithful(refs, names, defs) && DescribesUnion(defs, fs, owner, s, tag)
    requires arm in s.oneOf && ArmReaches(refs, names, defs, owner, arm)
    requires tag in arm.properties && arm.properties[tag].enums != [] && OnlyWords(arm.properties[tag].enums)
    requires v.Members? && Admits(refs, arm, v)
    ensures BodyTakes(names, FlatUnion(tag, fs), v) <==>
      forall f :: f in fs && f.json in v.fields ==>
        && (f.json !in arm.properties ==> Takes(names, f.typ, v.fields[f.json]))
        && (f.typ == Int64 ==> InInt64(v.fields[f.json]))
  {
    hide Admits, GoTypeOf, Takes, ArmReaches, ArmTypes, IsFieldType, NamedInTurn, ExportName, OccursIn, HasField, Faithful, InInt64;
    forall f | f in fs && f.json in v.fields
      ensures f.json in arm.properties && (f.typ == Int64 ==> InInt64(v.fields[f.json])) ==> Takes(names, f.typ, v.fields[f.json])
      ensures Takes(names, f.typ, v.fields[f.json]) && f.typ == Int64 ==> InInt64(v.fields[f.json])
    {
      Int64Holds(names, v.fields[f.json]);
      if f.json in arm.properties && (f.typ == Int64 ==> InInt64(v.fields[f.json])) {
        MembersAdmitted(refs, arm, v, f.json);
        UnionMemberIsTaken(refs, names, defs, owner, s.oneOf, arm, f.json, f.typ, v.fields[f.json]);
      }
    }
    if tag in v.fields {
      MembersAdmitted(refs, arm, v, tag);
      EnumsTaken(refs, arm.properties[tag], v.fields[tag]);
    }
  }

  // ---------- definitions ----------

  /** The definition is an object of readable properties, a readable alias, or an enumeration of strings. */
  ghost predicate DefinitionReaches(refs: Meaning, names: Meaning, name: string, s: Schema) {
    if s.enums != [] && IsStringEnum(s) then OnlyWords(s.enums)
    else if EnumUnion(s) then ArmsOnlyWords(if s.oneOf == [] then s.anyOf else s.oneOf)
    else if s.properties != map[] then
      Types(s) != [] && (forall t :: t in Types(s) ==> t == ObjectType || t == NullType) && AllReach(refs, names, name, s)
    else Readable(s) && InlineSound(refs, names, GoTypeOf(s, name, "").1)
  }

  /** What a definition that is no tagged union is declared as takes every value it admits. */
  lemma DefinitionTakesItsValues(refs: Meaning, names: Meaning, defs: map<string, Schema>, name: string, s: Schema, b: Body, v: Value)
    requires IsBodyFor(defs, name, s, b) && !IsUnionDefinition(s)
    requires RefsSound(refs, names) && DefinitionReaches(refs, names, name, s) && Admits(refs, s, v)
    ensures BodyTakes(names, b, v)
  {
    hide Admits, GoTypeOf, ExportName, EnumUnion, IsStringEnum, Readable, InlineSound, ArmsOnlyWords, Takes, RefsSound;
    hide AllReach, DescribesStruct, DescribesUnion, CommonTags, FieldsTake;
    if s.enums != [] && IsStringEnum(s) {
      EnumsTaken(refs, s, v);
    } else if EnumUnion(s) {
      EnumUnionTaken(refs, s, v);
    } else if s.properties != map[] {
      if !v.Null? {
        AdmitsInside(refs, s, v);
        var t :| t in Types(s) && IsOf(t, v);
        StructTakesItsObjects(refs, names, name, s, b.fields, v);
      }
    } else {
      FieldTakesItsValues(refs, names, s, name, "", v);
    }
  }
}
