/** The subset of JSON Schema the protocol generator reads, and the accessors every later stage uses. */
module Schemas {
  import opened Options
  import opened Strings

  /** A name in a `type` keyword. */
  datatype JsonType =
    | NullType | StringType | BooleanType | IntegerType | NumberType | ArrayType | ObjectType
    | OtherName(name: string)

  /** The raw `type` keyword: absent, one name, a list of names, or a text that is neither. */
  datatype TypeDecl = NoType | One(name: JsonType) | Many(names: seq<JsonType>) | OtherType(raw: string)

  datatype EnumValue = Str(text: string) | Literal(raw: string)

  /** The raw `additionalProperties` keyword, kept as its compacted text: absent, a text that
      constrains nothing, or a text that decodes to a schema. */
  datatype Additional = NoAdditional | Unconstrained(raw: string) | Constrained(raw: string, s: Schema)

  /** `absent` names the list and map keywords that were missing rather than empty: only the
      marshalled form of a schema can tell the two apart. */
  datatype Schema = Schema(
    ref: string,
    typ: TypeDecl,
    enums: seq<EnumValue>,
    properties: map<string, Schema>,
    required: seq<string>,
    items: Option<Schema>,
    additional: Additional,
    oneOf: seq<Schema>,
    anyOf: seq<Schema>,
    allOf: seq<Schema>,
    title: string,
    description: string,
    format: string,
    definitions: map<string, Schema>,
    absent: set<string>)

  function Types(s: Schema): seq<JsonType> {
    match s.typ
    case One(name) => [name]
    case Many(names) => names
    case _ => []
  }

  predicate NullOnly(s: Schema) {
    Types(s) == [NullType]
  }

  function Concrete(arms: seq<Schema>): (r: seq<Schema>)
    ensures forall x :: x in r ==> x in arms
  {
    if arms == [] then []
    else (if NullOnly(arms[0]) then [] else [arms[0]]) + Concrete(arms[1..])
  }

  /** The schema without the null arm of an optional value or a wrapping single `allOf`. */
  function Base(s: Schema): (r: Schema)
    ensures r == s || r < s
    ensures Size(r) <= Size(s)
  {
    var concrete := Concrete(s.anyOf);
    if |concrete| == 1 then
      assert concrete[0] in s.anyOf;
      SizeOfMember(s.anyOf, concrete[0]);
      concrete[0]
    else if |s.allOf| == 1 && s.ref == "" && s.properties == map[] then
      s.allOf[0]
    else s
  }

  /** The number of schemas a schema is built from, not counting its local definitions. */
  ghost function Size(s: Schema): nat
    decreases s, 1, 0
  {
    1 + SizeOfFields(s, Sorted(s.properties.Keys)) + SizeOfAll(s.oneOf) + SizeOfAll(s.anyOf) + SizeOfAll(s.allOf)
    + (if s.items.Some? then Size(s.items.value) else 0)
    + (if s.additional.Constrained? then Size(s.additional.s) else 0)
  }

  ghost function SizeOfFields(s: Schema, keys: seq<string>): nat
    requires forall k :: k in keys ==> k in s.properties
    decreases s, 0, |keys|
  {
    if keys == [] then 0 else Size(s.properties[keys[0]]) + SizeOfFields(s, keys[1..])
  }

  ghost function SizeOfAll(arms: seq<Schema>): nat
    decreases arms, 0, 0
  {
    if arms == [] then 0 else Size(arms[0]) + SizeOfAll(arms[1..])
  }

  lemma {:induction false} SizeOfMember(arms: seq<Schema>, x: Schema)
    requires x in arms
    ensures Size(x) <= SizeOfAll(arms)
    decreases |arms|
  {
    if x != arms[0] {
      SizeOfMember(arms[1..], x);
    }
  }

  lemma SizeOfParts(s: Schema)
    ensures s.items.Some? ==> Size(s.items.value) < Size(s)
    ensures s.additional.Constrained? ==> Size(s.additional.s) < Size(s)
    ensures |s.allOf| == 1 ==> Size(s.allOf[0]) < Size(s)
    ensures SizeOfFields(s, Sorted(s.properties.Keys)) < Size(s)
  {
    if |s.allOf| == 1 {
      SizeOfMember(s.allOf, s.allOf[0]);
    }
  }

  /** The first type that is not null; null itself when there is none. */
  function FirstConcrete(ts: seq<JsonType>): JsonType {
    if ts == [] then NullType else if ts[0] != NullType then ts[0] else FirstConcrete(ts[1..])
  }

  predicate AllStrings(vs: seq<EnumValue>) {
    forall v :: v in vs ==> v.Str?
  }

  predicate IsStringEnum(s: Schema) {
    || StringType in Types(s)
    || (Types(s) == [] && AllStrings(s.enums) && s.enums != [])
  }

  predicate EnumArm(a: Schema) {
    a.enums != [] && forall t :: t in Types(a) ==> t == StringType || t == NullType
  }

  /** A oneOf (or else anyOf) whose every arm is an enum of strings. */
  predicate EnumUnion(s: Schema) {
    var arms := if s.oneOf == [] then s.anyOf else s.oneOf;
    arms != [] && forall a :: a in arms ==> EnumArm(a)
  }

  /** The properties every arm pins to a single value. */
  function CommonTags(arms: seq<Schema>): set<string>
    requires arms != []
  {
    set p | p in arms[0].properties && Pinned(arms, p)
  }

  predicate Pinned(arms: seq<Schema>, p: string) {
    forall a :: a in arms ==> p in a.properties && |a.properties[p].enums| == 1
  }

  predicate IsTaggedUnion(s: Schema) {
    |s.oneOf| >= 2 && CommonTags(s.oneOf) != {}
  }

  method TaggedUnion(s: Schema) returns (tag: string, found: bool)
    ensures found == IsTaggedUnion(s)
    ensures found ==> IsLeast(tag, CommonTags(s.oneOf))
  {
    var arms := s.oneOf;
    if |arms| < 2 {
      return "", false;
    }
    var common: Option<set<string>> := None;
    for i := 0 to |arms|
      invariant common.None? <==> i == 0
      invariant i > 0 ==> forall p :: p in common.value <==> p in arms[0].properties && Pinned(arms[..i], p)
    {
      var a := arms[i];
      var here := set p | p in a.properties && |a.properties[p].enums| == 1;
      assert arms[..i + 1] == arms[..i] + [a];
      if here == {} {
        assert a in arms && forall p :: p !in here;
        return "", false;
      }
      common := Some(if common.None? then here else common.value * here);
    }
    assert arms[..|arms|] == arms;
    assert common.value == CommonTags(arms);
    if common.value == {} {
      return "", false;
    }
    tag := Least(common.value);
    found := true;
  }
}
