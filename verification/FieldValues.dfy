/** The types the generator gives to fields, measured against the values their schemas admit. */
module FieldValues {
  import opened Options
  import opened Strings
  import opened GoNames
  import opened Schemas
  import opened GoTypes
  import opened JsonValues

  type Meaning = (string, Value) -> bool

  // ---------- optional values and wrappings ----------

  /** The i-th arm is the only one that admits more than null. */
  predicate OneRealArm(arms: seq<Schema>, i: nat) {
    i < |arms| && !NullOnly(arms[i]) && forall j :: 0 <= j < |arms| && j != i ==> NullOnly(arms[j])
  }

  lemma {:induction false} ConcreteHas(arms: seq<Schema>, x: Schema)
    ensures x in Concrete(arms) <==> x in arms && !NullOnly(x)
  {
    if arms != [] {
      ConcreteHas(arms[1..], x);
      assert x in arms <==> x == arms[0] || x in arms[1..];
    }
  }

  lemma {:induction false} NoneReal(arms: seq<Schema>)
    requires forall x :: x in arms ==> NullOnly(x)
    ensures Concrete(arms) == []
  {
    if arms != [] {
      NoneReal(arms[1..]);
    }
  }

  lemma {:induction false} OneConcreteIff(arms: seq<Schema>)
    ensures |Concrete(arms)| == 1 <==> exists i: nat :: OneRealArm(arms, i)
    ensures forall i: nat :: OneRealArm(arms, i) ==> Concrete(arms) == [arms[i]]
  {
    hide NullOnly;
    if arms != [] {
      OneConcreteIff(arms[1..]);
      if NullOnly(arms[0]) {
        assert Concrete(arms) == Concrete(arms[1..]);
        forall i: nat
          ensures OneRealArm(arms, i) <==> i > 0 && OneRealArm(arms[1..], i - 1)
        {
          LaterRealIff(arms, i);
        }
        assert forall i: nat :: OneRealArm(arms[1..], i) ==> OneRealArm(arms, i + 1);
      } else {
        assert forall i: nat :: OneRealArm(arms, i) ==> i == 0;
        FirstIsRealIff(arms);
        assert Concrete(arms) == [arms[0]] + Concrete(arms[1..]);
      }
    }
  }

  lemma LaterRealIff(arms: seq<Schema>, i: nat)
    requires arms != [] && NullOnly(arms[0])
    ensures OneRealArm(arms, i) <==> i > 0 && OneRealArm(arms[1..], i - 1)
  {
    hide NullOnly;
    assert forall j :: 0 < j < |arms| ==> arms[1..][j - 1] == arms[j];
    assert forall j :: 0 <= j < |arms[1..]| ==> arms[1..][j] == arms[j + 1];
  }

  lemma FirstIsRealIff(arms: seq<Schema>)
    requires arms != [] && !NullOnly(arms[0])
    ensures OneRealArm(arms, 0) <==> Concrete(arms[1..]) == []
  {
    hide NullOnly;
    if OneRealArm(arms, 0) {
      NoneReal(arms[1..]);
    }
    if Concrete(arms[1..]) == [] {
      forall j | 0 < j < |arms|
        ensures NullOnly(arms[j])
      {
        assert arms[1..][j - 1] == arms[j];
        ConcreteHas(arms[1..], arms[j]);
      }
    }
  }

  /** A value that may be null has the type it has when it is not; and a single `allOf` that stands for
      nothing else is what it wraps. */
  lemma BaseIs(s: Schema)
    ensures forall i: nat :: OneRealArm(s.anyOf, i) ==> Base(s) == s.anyOf[i]
    ensures (forall i: nat :: !OneRealArm(s.anyOf, i)) && |s.allOf| == 1 && s.ref == "" && s.properties == map[] ==>
      Base(s) == s.allOf[0]
    ensures (forall i: nat :: !OneRealArm(s.anyOf, i)) && !(|s.allOf| == 1 && s.ref == "" && s.properties == map[]) ==>
      Base(s) == s
  {
    OneConcreteIff(s.anyOf);
  }

  /** The parts of what admitting means that concern the combining keywords. */
  lemma AdmitsArms(refs: Meaning, s: Schema, v: Value)
    requires Admits(refs, s, v)
    ensures forall x :: x in s.allOf ==> Admits(refs, x, v)
    ensures s.anyOf != [] ==> exists x :: x in s.anyOf && Admits(refs, x, v)
    ensures s.oneOf != [] ==> exists x :: x in s.oneOf && Admits(refs, x, v)
    ensures s.ref != "" ==> refs(s.ref, v)
  {
  }

  lemma RealArmAdmits(refs: Meaning, arms: seq<Schema>, x: Schema, v: Value)
    requires |Concrete(arms)| == 1 && x in arms && Admits(refs, x, v) && !v.Null?
    ensures Admits(refs, Concrete(arms)[0], v)
  {
    hide Admits, NullOnly;
    ConcreteHas(arms, x);
    if NullOnly(x) {
      NullAdmitsNull(refs, x, v);
    }
  }

  /** What the schema admits beyond null its base admits. */
  lemma BaseAdmits(refs: Meaning, s: Schema, v: Value)
    requires Admits(refs, s, v) && !v.Null?
    ensures Admits(refs, Base(s), v)
  {
    AdmitsArms(refs, s, v);
    hide Admits, Size, Concrete;
    if |Concrete(s.anyOf)| == 1 {
      assert Concrete(s.anyOf)[0] in s.anyOf;
      var x :| x in s.anyOf && Admits(refs, x, v);
      RealArmAdmits(refs, s.anyOf, x, v);
    } else if |s.allOf| == 1 {
      assert s.allOf[0] in s.allOf;
    }
  }

  lemma NullAdmitsNull(refs: Meaning, s: Schema, v: Value)
    requires NullOnly(s) && Admits(refs, s, v)
    ensures v.Null?
  {
  }

  // ---------- the sole type of a schema ----------

  lemma {:induction false} FirstConcreteIs(ts: seq<JsonType>)
    ensures var t := FirstConcrete(ts);
      (t != NullType ==> t in ts) && (t == NullType <==> forall u :: u in ts ==> u == NullType)
  {
    if ts != [] {
      FirstConcreteIs(ts[1..]);
      assert forall u :: u in ts <==> u == ts[0] || u in ts[1..];
    }
  }

  /** The schema is none of a reference, a wrapping and an enumeration, and `t` is the one type it has
      besides null. */
  predicate HasSoleType(s: Schema, t: JsonType) {
    && s.ref == "" && |s.allOf| != 1 && s.enums == []
    && t != NullType && t in Types(s) && forall u :: u in Types(s) ==> u == t || u == NullType
  }

  /** Every schema a value can come to has one type: the schema itself, behind its optional wrapping,
      the items of a list and the values of a map. */
  ghost predicate AllTyped(s: Schema)
    decreases s
  {
    var b := Base(s);
    exists t ::
      && HasSoleType(b, t)
      && (t.ArrayType? && b.items.Some? ==> AllTyped(b.items.value))
      && (t.ObjectType? && b.properties == map[] && b.additional.Constrained? ==> AllTyped(b.additional.s))
  }

  /** The 64-bit integers, unsigned for the two unsigned formats. */
  predicate InGoWidth(format: string, n: int) {
    if format == "uint64" || format == "uint32" then 0 <= n < TWO_TO_THE_64
    else -TWO_TO_THE_63 <= n < TWO_TO_THE_63
  }

  /** Null, or a value of the schema's one type: an integer in the width of the Go type, a list or a map
      of such values; for an object with fixed fields what its struct takes. An object schema that says
      nothing of its members, and a type that is none of JSON's, leave the value raw. */
  ghost predicate IsInstance(names: Meaning, s: Schema, owner: string, field: string, v: Value)
    decreases s, 1
  {
    v.Null? || exists t :: HasSoleType(Base(s), t) && IsInstanceOf(names, s, Base(s), t, owner, field, v)
  }

  ghost predicate IsInstanceOf(names: Meaning, s: Schema, b: Schema, t: JsonType, owner: string, field: string, v: Value)
    requires b == Base(s)
    decreases s, 0
  {
    match t
    case IntegerType => v.Whole? && InGoWidth(b.format, v.n)
    case ArrayType =>
      v.Sequence? && (b.items.Some? ==> forall e :: e in v.elements ==> IsInstance(names, b.items.value, owner, field, e))
    case ObjectType =>
      if b.properties != map[] then names(ExportName(owner + "_" + field), v)
      else if b.additional.NoAdditional? then true
      else
        v.Members? && (b.additional.Constrained? ==>
          forall k :: k in v.fields ==> IsInstance(names, b.additional.s, owner, field, v.fields[k]))
    case OtherName(_) => EnumUnion(b) ==> v.Word?
    case _ => IsOf(t, v)
  }

  /** The Go type that a schema's first type asks for. */
  function TypeFor(b: Schema, t: JsonType, owner: string, field: string): GoType {
    match t
    case StringType => Text
    case BooleanType => Bool
    case IntegerType => if b.format == "uint64" || b.format == "uint32" then Uint64 else Int64
    case NumberType => Float64
    case ArrayType => ListOf(if b.items.None? then RawJson else GoTypeOf(b.items.value, owner, field).0)
    case ObjectType =>
      if b.properties != map[] then Named(ExportName(owner + "_" + field))
      else
        (match b.additional
         case NoAdditional => RawJson
         case Unconstrained(_) => MapOf(RawJson)
         case Constrained(_, sub) => MapOf(GoTypeOf(sub, owner, field).0))
    case _ => if EnumUnion(b) then Text else RawJson
  }

  lemma FirstTypeIs(s: Schema, owner: string, field: string)
    requires var b := Base(s); b.ref == "" && |b.allOf| != 1 && b.enums == []
    ensures var b := Base(s); var t := FirstConcrete(Types(b));
      && GoTypeOf(s, owner, field).0 == TypeFor(b, t, owner, field)
      && (t == ObjectType && b.properties != map[] ==>
          GoTypeOf(s, owner, field).1 == Some(Inline(ExportName(owner + "_" + field), b)))
  {
    hide Base, Size, ExportName, EnumUnion, FirstConcrete;
    EnumUnionHasArms(Base(s));
  }

  lemma TakesAsTyped(names: Meaning, s: Schema, t: JsonType, owner: string, field: string, v: Value)
    requires t != NullType
    requires t.ArrayType? && Base(s).items.Some? && v.Sequence? ==> forall e :: e in v.elements ==>
      (Takes(names, GoTypeOf(Base(s).items.value, owner, field).0, e) <==> IsInstance(names, Base(s).items.value, owner, field, e))
    requires t.ObjectType? && Base(s).properties == map[] && Base(s).additional.Constrained? && v.Members? ==>
      forall k :: k in v.fields ==>
        (Takes(names, GoTypeOf(Base(s).additional.s, owner, field).0, v.fields[k])
         <==> IsInstance(names, Base(s).additional.s, owner, field, v.fields[k]))
    ensures Takes(names, TypeFor(Base(s), t, owner, field), v)
      <==> v.Null? || IsInstanceOf(names, s, Base(s), t, owner, field, v)
  {
    hide Base, GoTypeOf, IsInstance, ExportName, EnumUnion;
  }

  /** A schema that has one type at every depth gets the Go type that takes exactly its instances. */
  lemma {:induction false} TypedTakesExactly(names: Meaning, s: Schema, owner: string, field: string, v: Value)
    requires AllTyped(s)
    ensures Takes(names, GoTypeOf(s, owner, field).0, v) <==> IsInstance(names, s, owner, field, v)
    decreases s
  {
    hide Base, Takes, GoTypeOf, HasSoleType, IsInstanceOf, TypeFor;
    var b := Base(s);
    var t :| HasSoleType(b, t)
      && (t.ArrayType? && b.items.Some? ==> AllTyped(b.items.value))
      && (t.ObjectType? && b.properties == map[] && b.additional.Constrained? ==> AllTyped(b.additional.s));
    SoleTypeDecides(b, t);
    FirstTypeIs(s, owner, field) by { IsPlain(b, t); }
    if t.ArrayType? && b.items.Some? && v.Sequence? {
      forall e | e in v.elements
        ensures Takes(names, GoTypeOf(b.items.value, owner, field).0, e) <==> IsInstance(names, b.items.value, owner, field, e)
      {
        TypedTakesExactly(names, b.items.value, owner, field, e);
      }
    }
    if t.ObjectType? && b.properties == map[] && b.additional.Constrained? && v.Members? {
      forall k | k in v.fields
        ensures Takes(names, GoTypeOf(b.additional.s, owner, field).0, v.fields[k])
          <==> IsInstance(names, b.additional.s, owner, field, v.fields[k])
      {
        TypedTakesExactly(names, b.additional.s, owner, field, v.fields[k]);
      }
    }
    TakesAsTyped(names, s, t, owner, field, v);
  }

  lemma IsPlain(b: Schema, t: JsonType)
    requires HasSoleType(b, t)
    ensures b.ref == "" && |b.allOf| != 1 && b.enums == []
  {
  }

  lemma EnumUnionHasArms(s: Schema)
    ensures EnumUnion(s) ==> s.oneOf != [] || s.anyOf != []
  {
  }

  lemma SoleTypeDecides(b: Schema, t: JsonType)
    requires HasSoleType(b, t)
    ensures t != NullType && FirstConcrete(Types(b)) == t && forall u :: HasSoleType(b, u) ==> u == t
  {
    FirstConcreteIs(Types(b));
  }

  // ---------- every admitted value is taken ----------

  /** The values are strings, or null. */
  predicate OnlyWords(enums: seq<EnumValue>) {
    forall e :: e in enums ==> e.Str? || e.raw == "null"
  }

  predicate ArmsOnlyWords(arms: seq<Schema>) {
    forall a :: a in arms ==> OnlyWords(a.enums)
  }

  /** Values of type `u` are taken by what the schema gets for its first type `t`. */
  predicate Covers(b: Schema, t: JsonType, u: JsonType) {
    || u == t || u == NullType || u.OtherName? || t.OtherName? || t == NullType
    || (t == NumberType && u == IntegerType)
    || (t == ObjectType && b.properties == map[] && b.additional.NoAdditional?)
  }

  /** The type a schema gets is no narrower than the schema: an enumeration holds only strings, further
      types are covered by the first, and integers have a width. */
  ghost predicate Readable(s: Schema)
    decreases s
  {
    var b := Base(s);
    if b.ref != "" then true
    else if |b.allOf| == 1 then Readable(b.allOf[0])
    else if b.enums != [] then OnlyWords(b.enums)
    else
      var t := FirstConcrete(Types(b));
      && (forall u :: u in Types(b) ==> Covers(b, t, u))
      && match t
         case IntegerType => NamesWidth(b.format)
         case ArrayType => b.items.Some? ==> Readable(b.items.value)
         case ObjectType => b.properties == map[] && b.additional.Constrained? ==> Readable(b.additional.s)
         case NullType => EnumUnion(b) ==> ArmsOnlyWords(if b.oneOf == [] then b.anyOf else b.oneOf)
         case OtherName(_) => EnumUnion(b) ==> ArmsOnlyWords(if b.oneOf == [] then b.anyOf else b.oneOf)
         case _ => true
  }

  ghost predicate IsNamed(refs: Meaning, names: Meaning, ref: string, v: Value) {
    refs(ref, v) ==> names(RefName(ref), v)
  }

  /** What a reference admits the type of its name takes. */
  ghost predicate RefsSound(refs: Meaning, names: Meaning) {
    forall ref: string, v: Value :: IsNamed(refs, names, ref, v)
  }

  /** The struct declared for the object handed out, if one is, takes the objects it admits. */
  ghost predicate InlineSound(refs: Meaning, names: Meaning, inline: Option<Inline>) {
    inline.Some? ==> forall v: Value :: v.Members? && Admits(refs, inline.value.s, v) ==> names(inline.value.name, v)
  }

  lemma EnumsTaken(refs: Meaning, s: Schema, v: Value)
    requires Admits(refs, s, v) && s.enums != [] && OnlyWords(s.enums)
    ensures v.Null? || v.Word?
  {
  }

  lemma EnumUnionTaken(refs: Meaning, s: Schema, v: Value)
    requires Admits(refs, s, v) && EnumUnion(s) && ArmsOnlyWords(if s.oneOf == [] then s.anyOf else s.oneOf)
    ensures v.Null? || v.Word?
  {
    AdmitsArms(refs, s, v);
    hide Admits;
    var arms := if s.oneOf == [] then s.anyOf else s.oneOf;
    var x :| x in arms && Admits(refs, x, v);
    assert EnumArm(x) && OnlyWords(x.enums);
    EnumsTaken(refs, x, v);
  }

  /** The parts of what admitting means that concern the type and what is inside. */
  lemma AdmitsInside(refs: Meaning, s: Schema, v: Value)
    requires Admits(refs, s, v)
    ensures Types(s) != [] ==> exists t :: t in Types(s) && IsOf(t, v)
    ensures v.Whole? ==> InWidth(s.format, v.n)
    ensures v.Sequence? && s.items.Some? ==> forall e :: e in v.elements ==> Admits(refs, s.items.value, e)
    ensures v.Members? && s.properties == map[] && s.additional.Constrained? ==>
      forall k :: k in v.fields ==> Admits(refs, s.additional.s, v.fields[k])
  {
  }

  /** The value is of the first type, if that is one that leaves nothing raw. */
  lemma FirstTypeDecides(refs: Meaning, b: Schema, v: Value)
    requires Admits(refs, b, v) && !v.Null?
    requires var t := FirstConcrete(Types(b));
      && t != NullType && !t.OtherName? && forall u :: u in Types(b) ==> Covers(b, t, u)
    ensures var t := FirstConcrete(Types(b));
      IsOf(t, v) || (t == ObjectType && b.properties == map[] && b.additional.NoAdditional?)
  {
    AdmitsInside(refs, b, v);
    FirstConcreteIs(Types(b));
    hide Admits;
    var u :| u in Types(b) && IsOf(u, v);
  }

  lemma WidthIsGos(format: string, n: int)
    requires NamesWidth(format) && InWidth(format, n)
    ensures InGoWidth(format, n)
  {
  }

  /** What the schema says of its first type, where it is none of a reference, a wrapping and an
      enumeration. */
  lemma ReadableIs(s: Schema)
    requires var b := Base(s); Readable(s) && b.ref == "" && |b.allOf| != 1 && b.enums == []
    ensures var b := Base(s); var t := FirstConcrete(Types(b));
      && (forall u :: u in Types(b) ==> Covers(b, t, u))
      && (t == IntegerType ==> NamesWidth(b.format))
      && (t == ArrayType && b.items.Some? ==> Readable(b.items.value))
      && (t == ObjectType && b.properties == map[] && b.additional.Constrained? ==> Readable(b.additional.s))
      && (t == NullType || t.OtherName? ==> EnumUnion(b) ==> ArmsOnlyWords(if b.oneOf == [] then b.anyOf else b.oneOf))
  {
    hide Base, Covers, EnumUnion, FirstConcrete, ArmsOnlyWords;
  }

  /** What a list or a map holds is taken by the type of its items or values. */
  ghost predicate InsideTaken(names: Meaning, b: Schema, t: JsonType, owner: string, field: string, v: Value) {
    && (v.Sequence? && b.items.Some? && t == ArrayType ==>
        forall e :: e in v.elements ==> Takes(names, GoTypeOf(b.items.value, owner, field).0, e))
    && (v.Members? && b.properties == map[] && b.additional.Constrained? && t == ObjectType ==>
        forall k :: k in v.fields ==> Takes(names, GoTypeOf(b.additional.s, owner, field).0, v.fields[k]))
  }

  lemma ValueOfTypeIsTaken(names: Meaning, b: Schema, t: JsonType, owner: string, field: string, v: Value)
    requires IsOf(t, v) && InsideTaken(names, b, t, owner, field, v)
    requires t == IntegerType ==> InGoWidth(b.format, v.n)
    requires t == ObjectType && b.properties != map[] ==> names(ExportName(owner + "_" + field), v)
    ensures Takes(names, TypeFor(b, t, owner, field), v)
  {
    hide GoTypeOf, ExportName, EnumUnion;
  }

  lemma RawIsTaken(names: Meaning, b: Schema, t: JsonType, owner: string, field: string, v: Value)
    requires if t == NullType || t.OtherName? then EnumUnion(b) ==> v.Null? || v.Word?
             else t == ObjectType && b.properties == map[] && b.additional.NoAdditional?
    ensures Takes(names, TypeFor(b, t, owner, field), v)
  {
    hide GoTypeOf, ExportName, EnumUnion;
  }

  /** The type for the first of a schema's types takes the value, given the same for what is inside. */
  lemma FirstTypeTakes(refs: Meaning, names: Meaning, b: Schema, owner: string, field: string, v: Value)
    requires var t := FirstConcrete(Types(b));
      && Admits(refs, b, v) && !v.Null? && InsideTaken(names, b, t, owner, field, v)
      && (forall u :: u in Types(b) ==> Covers(b, t, u))
      && (t == IntegerType ==> NamesWidth(b.format))
      && (t == ObjectType && b.properties != map[] && v.Members? ==> names(ExportName(owner + "_" + field), v))
    requires var t := FirstConcrete(Types(b)); t == NullType || t.OtherName? ==> EnumUnion(b) ==> v.Word?
    ensures Takes(names, TypeFor(b, FirstConcrete(Types(b)), owner, field), v)
  {
    hide Admits, Size, ExportName, EnumUnion, FirstConcrete, Covers, Takes, TypeFor, InsideTaken, InWidth, InGoWidth, NamesWidth;
    var t := FirstConcrete(Types(b));
    if t == NullType || t.OtherName? {
      RawIsTaken(names, b, t, owner, field, v);
    } else {
      FirstTypeDecides(refs, b, v);
      if IsOf(t, v) {
        if t == IntegerType {
          AdmitsInside(refs, b, v);
          WidthIsGos(b.format, v.n);
        }
        ValueOfTypeIsTaken(names, b, t, owner, field, v);
      } else {
        RawIsTaken(names, b, t, owner, field, v);
      }
    }
  }

  /** The case of a schema with types, given the same for what is inside. */
  lemma TypedIsTaken(refs: Meaning, names: Meaning, s: Schema, owner: string, field: string, v: Value)
    requires var b := Base(s);
      && b.ref == "" && |b.allOf| != 1 && b.enums == [] && Readable(s) && Admits(refs, b, v) && !v.Null?
      && InlineSound(refs, names, GoTypeOf(s, owner, field).1)
      && InsideTaken(names, b, FirstConcrete(Types(b)), owner, field, v)
    ensures Takes(names, GoTypeOf(s, owner, field).0, v)
  {
    FirstTypeIs(s, owner, field);
    ReadableIs(s);
    hide Base, Admits, Size, ExportName, EnumUnion, FirstConcrete, GoTypeOf, Readable, Covers, ArmsOnlyWords, Takes;
    hide TypeFor, InsideTaken, NamesWidth;
    var b := Base(s);
    var t := FirstConcrete(Types(b));
    if (t == NullType || t.OtherName?) && EnumUnion(b) {
      EnumUnionTaken(refs, b, v);
    }
    FirstTypeTakes(refs, names, b, owner, field, v);
  }

  /** Every value that a readable schema admits is taken by the type its field gets. */
  lemma {:induction false} FieldTakesItsValues(refs: Meaning, names: Meaning, s: Schema, owner: string, field: string, v: Value)
    requires Readable(s) && RefsSound(refs, names) && InlineSound(refs, names, GoTypeOf(s, owner, field).1)
    requires Admits(refs, s, v)
    ensures Takes(names, GoTypeOf(s, owner, field).0, v)
    decreases s, 1
  {
    if !v.Null? {
      BaseAdmits(refs, s, v);
      var b := Base(s);
      AdmitsArms(refs, b, v);
      hide Base, Admits, Size, ExportName, EnumUnion, FirstConcrete, Takes;
      if b.ref != "" {
        NameTakes(refs, names, s, owner, field, v);
      } else if |b.allOf| == 1 {
        FieldTakesItsValues(refs, names, b.allOf[0], owner, field, v);
      } else if b.enums != [] {
        EnumsTaken(refs, b, v);
        WordTaken(names, v);
      } else {
        InsideIsTaken(refs, names, s, owner, field, v);
        TypedIsTaken(refs, names, s, owner, field, v);
      }
    } else {
      WordTaken(names, v);
    }
  }

  /** What a handed-out object is for a list or map is what it is for its items or values. */
  lemma InlineOfInside(s: Schema, owner: string, field: string)
    requires var b := Base(s); b.ref == "" && |b.allOf| != 1 && b.enums == []
    ensures var b := Base(s); var t := FirstConcrete(Types(b));
      && (t == ArrayType && b.items.Some? ==> GoTypeOf(s, owner, field).1 == GoTypeOf(b.items.value, owner, field).1)
      && (t == ObjectType && b.properties == map[] && b.additional.Constrained? ==>
          GoTypeOf(s, owner, field).1 == GoTypeOf(b.additional.s, owner, field).1)
  {
    hide Base, Size, ExportName, EnumUnion, FirstConcrete;
  }

  lemma {:induction false} InsideIsTaken(refs: Meaning, names: Meaning, s: Schema, owner: string, field: string, v: Value)
    requires Readable(s) && RefsSound(refs, names) && InlineSound(refs, names, GoTypeOf(s, owner, field).1)
    requires var b := Base(s); b.ref == "" && |b.allOf| != 1 && b.enums == [] && Admits(refs, b, v)
    ensures InsideTaken(names, Base(s), FirstConcrete(Types(Base(s))), owner, field, v)
    decreases s, 0
  {
    ReadableIs(s);
    InlineOfInside(s, owner, field);
    var b := Base(s);
    AdmitsInside(refs, b, v);
    hide Base, Admits, Size, ExportName, EnumUnion, FirstConcrete, Takes, GoTypeOf, Readable, Covers, InlineSound;
    if v.Sequence? && b.items.Some? && FirstConcrete(Types(b)) == ArrayType {
      forall e | e in v.elements
        ensures Takes(names, GoTypeOf(b.items.value, owner, field).0, e)
      {
        FieldTakesItsValues(refs, names, b.items.value, owner, field, e);
      }
    }
    if v.Members? && b.properties == map[] && b.additional.Constrained? && FirstConcrete(Types(b)) == ObjectType {
      forall k | k in v.fields
        ensures Takes(names, GoTypeOf(b.additional.s, owner, field).0, v.fields[k])
      {
        FieldTakesItsValues(refs, names, b.additional.s, owner, field, v.fields[k]);
      }
    }
  }

  lemma NameTakes(refs: Meaning, names: Meaning, s: Schema, owner: string, field: string, v: Value)
    requires RefsSound(refs, names) && Base(s).ref != "" && refs(Base(s).ref, v)
    ensures Takes(names, GoTypeOf(s, owner, field).0, v)
  {
    hide Base, ExportName;
    assert IsNamed(refs, names, Base(s).ref, v);
  }

  lemma WordTaken(names: Meaning, v: Value)
    requires v.Null? || v.Word?
    ensures Takes(names, Text, v)
  {
  }

  // ---------- and where the condition is exact ----------

  /** The schema says nothing but which types and which format its values have, or lists them. */
  predicate OnlyTyped(s: Schema) {
    && s.ref == "" && (s.enums == [] || Types(s) == []) && s.properties == map[] && s.items.None? && s.additional.NoAdditional?
    && s.oneOf == [] && s.anyOf == [] && s.allOf == []
  }

  /** A value of the type that no type but its own covers. */
  function Sample(t: JsonType): Value {
    match t
    case BooleanType => Truth(true)
    case IntegerType => Whole(0)
    case NumberType => Decimal(0.5)
    case StringType => Word("")
    case ArrayType => Sequence([])
    case ObjectType => Members(map[])
    case _ => Null
  }

  lemma OnlyTypedAdmits(refs: Meaning, s: Schema, u: JsonType, v: Value)
    requires OnlyTyped(s) && s.enums == [] && u in Types(s) && IsOf(u, v) && (v.Whole? ==> InWidth(s.format, v.n))
    ensures Admits(refs, s, v)
  {
  }

  lemma UncoveredIsNotTaken(names: Meaning, s: Schema, u: JsonType, owner: string, field: string)
    requires OnlyTyped(s) && s.enums == [] && !Covers(s, FirstConcrete(Types(s)), u)
    ensures IsOf(u, Sample(u)) && (Sample(u).Whole? ==> InWidth(s.format, 0))
    ensures !Takes(names, TypeFor(s, FirstConcrete(Types(s)), owner, field), Sample(u))
  {
    hide FirstConcrete;
  }

  lemma OnlyTypedIsBase(s: Schema)
    requires OnlyTyped(s)
    ensures Base(s) == s
  {
  }

  /** A listed literal that is no string cannot be taken by a string field. */
  lemma ListedIsNotTaken(refs: Meaning, names: Meaning, s: Schema, owner: string, field: string)
    requires OnlyTyped(s) && s.enums != [] && !OnlyWords(s.enums)
    ensures Admits(refs, s, Truth(true)) && !Takes(names, GoTypeOf(s, owner, field).0, Truth(true))
  {
    OnlyTypedIsBase(s);
    hide Base, Size;
    var e :| e in s.enums && !(e.Str? || e.raw == "null");
    assert IsValue(e, Truth(true));
  }

  lemma SomeTypeIsNotTaken(refs: Meaning, names: Meaning, s: Schema, owner: string, field: string)
    requires OnlyTyped(s) && s.enums == [] && !Readable(s)
    ensures exists v :: Admits(refs, s, v) && !Takes(names, GoTypeOf(s, owner, field).0, v)
  {
    OnlyTypedIsBase(s);
    FirstTypeIs(s, owner, field);
    FirstConcreteIs(Types(s));
    hide Readable, Base, Admits, GoTypeOf, Takes, TypeFor;
    var t := FirstConcrete(Types(s));
    if u :| u in Types(s) && !Covers(s, t, u) {
      UncoveredIsNotTaken(names, s, u, owner, field);
      OnlyTypedAdmits(refs, s, u, Sample(u));
    } else {
      WidthlessIsTooWide(names, s, owner, field);
      OnlyTypedAdmits(refs, s, IntegerType, Whole(TWO_TO_THE_64));
    }
  }

  /** For a schema that only names types, or only lists values, the condition is exact: it is readable if
      and only if the type its field gets takes every value it admits. */
  lemma ReadableIff(refs: Meaning, names: Meaning, s: Schema, owner: string, field: string)
    requires OnlyTyped(s) && RefsSound(refs, names)
    ensures Readable(s) <==> forall v :: Admits(refs, s, v) ==> Takes(names, GoTypeOf(s, owner, field).0, v)
  {
    NothingHandedOut(s, owner, field);
    if Readable(s) {
      hide Readable, Admits, GoTypeOf, Takes, RefsSound;
      forall v | Admits(refs, s, v)
        ensures Takes(names, GoTypeOf(s, owner, field).0, v)
      {
        FieldTakesItsValues(refs, names, s, owner, field, v);
      }
    } else if s.enums == [] {
      SomeTypeIsNotTaken(refs, names, s, owner, field);
    } else {
      OnlyTypedIsBase(s);
      ListedIsNotTaken(refs, names, s, owner, field);
    }
  }

  lemma NothingHandedOut(s: Schema, owner: string, field: string)
    requires OnlyTyped(s)
    ensures GoTypeOf(s, owner, field).1.None?
  {
    OnlyTypedIsBase(s);
    hide Base, Size, ExportName;
  }

  lemma WidthlessIsTooWide(names: Meaning, s: Schema, owner: string, field: string)
    requires OnlyTyped(s) && s.enums == [] && !Readable(s) && forall u :: u in Types(s) ==> Covers(s, FirstConcrete(Types(s)), u)
    ensures FirstConcrete(Types(s)) == IntegerType && InWidth(s.format, TWO_TO_THE_64)
    ensures !Takes(names, TypeFor(s, IntegerType, owner, field), Whole(TWO_TO_THE_64))
  {
    OnlyTypedIsBase(s);
    hide Base, Covers, FirstConcrete;
    assert !EnumUnion(s);
  }
}
