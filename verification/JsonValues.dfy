/** JSON values, which of them a schema admits, and which of them Go's decoder takes for a type: what
    the generated types are to be measured against. */
module JsonValues {
  import opened Schemas
  import opened GoTypes
  import opened Declarations

  /** A number literal without fraction and exponent is `Whole`, any other `Decimal`. */
  datatype Value =
    | Null
    | Truth(b: bool)
    | Whole(n: int)
    | Decimal(x: real)
    | Word(text: string)
    | Sequence(elements: seq<Value>)
    | Members(fields: map<string, Value>)

  // ---------- what a schema admits ----------

  predicate IsOf(t: JsonType, v: Value) {
    match t
    case NullType => v.Null?
    case BooleanType => v.Truth?
    case IntegerType => v.Whole?
    case NumberType => v.Whole? || v.Decimal?
    case StringType => v.Word?
    case ArrayType => v.Sequence?
    case ObjectType => v.Members?
    case OtherName(_) => false
  }

  /** The literals that are no strings are kept as text; but for `null` all that is said of them is that
      they stand for neither a string nor null. */
  predicate IsValue(e: EnumValue, v: Value) {
    match e
    case Str(text) => v == Word(text)
    case Literal(raw) => if raw == "null" then v.Null? else !v.Null? && !v.Word?
  }

  const TWO_TO_THE_63 := 0x8000_0000_0000_0000
  const TWO_TO_THE_64 := 0x1_0000_0000_0000_0000

  /** The integers a format that names a width stands for. */
  predicate InWidth(format: string, n: int) {
    && (format == "int8" ==> -0x80 <= n < 0x80)
    && (format == "int16" ==> -0x8000 <= n < 0x8000)
    && (format == "int32" ==> -0x8000_0000 <= n < 0x8000_0000)
    && (format == "int64" ==> -TWO_TO_THE_63 <= n < TWO_TO_THE_63)
    && (format == "uint8" ==> 0 <= n < 0x100)
    && (format == "uint16" ==> 0 <= n < 0x1_0000)
    && (format == "uint32" ==> 0 <= n < 0x1_0000_0000)
    && (format == "uint64" ==> 0 <= n < TWO_TO_THE_64)
  }

  predicate NamesWidth(format: string) {
    format in {"int8", "int16", "int32", "int64", "uint8", "uint16", "uint32", "uint64"}
  }

  /** The schema admits the value, given what references admit. At least one arm of a `oneOf` has to
      admit it, which is less than the keyword asks for. */
  ghost predicate Admits(refs: (string, Value) -> bool, s: Schema, v: Value)
    decreases s
  {
    && (Types(s) != [] ==> exists t :: t in Types(s) && IsOf(t, v))
    && (s.enums != [] ==> exists e :: e in s.enums && IsValue(e, v))
    && (v.Whole? ==> InWidth(s.format, v.n))
    && (s.ref != "" ==> refs(s.ref, v))
    && (forall x :: x in s.allOf ==> Admits(refs, x, v))
    && (s.anyOf != [] ==> exists x :: x in s.anyOf && Admits(refs, x, v))
    && (s.oneOf != [] ==> exists x :: x in s.oneOf && Admits(refs, x, v))
    && (v.Sequence? && s.items.Some? ==> forall e :: e in v.elements ==> Admits(refs, s.items.value, e))
    && (v.Members? ==>
        && (forall k :: k in v.fields && k in s.properties ==> Admits(refs, s.properties[k], v.fields[k]))
        && (s.additional.Constrained? ==>
            forall k :: k in v.fields && k !in s.properties ==> Admits(refs, s.additional.s, v.fields[k])))
  }

  // ---------- what a Go type takes ----------

  /** Decoding the value into a variable of the type succeeds, given what it does for the named types.
      A null leaves every variable as it is, and raw JSON takes anything. */
  ghost predicate Takes(names: (string, Value) -> bool, t: GoType, v: Value)
    decreases t
  {
    v.Null? ||
    match t
    case Named(n) => names(n, v)
    case Text => v.Word?
    case Bool => v.Truth?
    case Int64 => v.Whole? && -TWO_TO_THE_63 <= v.n < TWO_TO_THE_63
    case Uint64 => v.Whole? && 0 <= v.n < TWO_TO_THE_64
    case Float64 => v.Whole? || v.Decimal?
    case RawJson => true
    case ListOf(element) => v.Sequence? && forall e :: e in v.elements ==> Takes(names, element, e)
    case MapOf(element) => v.Members? && forall k :: k in v.fields ==> Takes(names, element, v.fields[k])
  }

  /** A member named like a field is decoded into it, and other members are passed over. */
  ghost predicate FieldsTake(names: (string, Value) -> bool, fs: seq<Field>, v: Value) {
    v.Members? && forall f :: f in fs && f.json in v.fields ==> Takes(names, f.typ, v.fields[f.json])
  }

  ghost predicate BodyTakes(names: (string, Value) -> bool, b: Body, v: Value) {
    v.Null? ||
    match b
    case StringEnum => v.Word?
    case Discriminator => v.Word?
    case Alias(t) => Takes(names, t, v)
    case Struct(fs) => FieldsTake(names, fs, v)
    case FlatUnion(tag, fs) =>
      FieldsTake(names, fs, v) && (tag in v.fields ==> v.fields[tag].Null? || v.fields[tag].Word?)
  }
}
