/** How the protocol generator maps a schema to a Go type, and how it reconciles the types that the
    arms of a tagged union give to one field. */
module GoTypes {
  import opened Options
  import opened Strings
  import opened GoNames
  import opened Schemas

  datatype GoType =
    | Named(name: string)
    | Text | Bool | Int64 | Uint64 | Float64
    | RawJson
    | ListOf(element: GoType)
    | MapOf(element: GoType)

  /** An object type met inside a field, to be declared later under `name`. */
  datatype Inline = Inline(name: string, s: Schema)

  function AfterLastSlash(ref: string): string {
    if ref == "" || ref[|ref| - 1] == '/' then "" else AfterLastSlash(ref[..|ref| - 1]) + [ref[|ref| - 1]]
  }

  /** What follows the last slash, or the whole reference if it has none. */
  lemma {:induction false} AfterLastSlashIs(ref: string)
    ensures var r := AfterLastSlash(ref); var n := |ref| - |r|;
      n >= 0 && '/' !in r && ref[n..] == r && (n > 0 ==> ref[n - 1] == '/')
  {
    if ref != "" && ref[|ref| - 1] != '/' {
      AfterLastSlashIs(ref[..|ref| - 1]);
    }
  }

  function RefName(ref: string): string {
    if ref == "" then "" else ExportName(AfterLastSlash(ref))
  }

  predicate IsUnsigned(format: string) {
    format == "uint64" || format == "uint32"
  }

  /** What kind of type a schema without its optional wrapping asks for. */
  datatype Shape =
    | Reference(ref: string)
    | Scalar(t: GoType)
    | Wrapper(inner: Schema)
    | Elements(inner: Schema)
    | Values(inner: Schema)
    | Object

  function ShapeOf(s: Schema): (r: Shape)
    ensures r.Wrapper? || r.Elements? || r.Values? ==> r.inner < s && Size(r.inner) < Size(s)
    ensures r.Object? ==> s.properties != map[]
    ensures r.Reference? ==> r.ref != ""
  {
    SizeOfParts(s);
    if s.ref != "" then Reference(s.ref)
    else if |s.allOf| == 1 then Wrapper(s.allOf[0])
    else if s.enums != [] then Scalar(Text)
    else match FirstConcrete(Types(s))
      case StringType => Scalar(Text)
      case BooleanType => Scalar(Bool)
      case IntegerType => Scalar(if IsUnsigned(s.format) then Uint64 else Int64)
      case NumberType => Scalar(Float64)
      case ArrayType => if s.items.None? then Scalar(ListOf(RawJson)) else Elements(s.items.value)
      case ObjectType =>
        if s.properties != map[] then Object
        else (match s.additional
          case NoAdditional => Scalar(RawJson)
          case Unconstrained(_) => Scalar(MapOf(RawJson))
          case Constrained(_, sub) => Values(sub))
      // A union the generator will not guess at stays raw JSON.
      case _ => Scalar(if (s.oneOf != [] || s.anyOf != []) && EnumUnion(s) then Text else RawJson)
  }

  /** The Go type of a schema met as field `field` of `owner`, and the inline object it hands out. */
  function GoTypeOf(s0: Schema, owner: string, field: string): (GoType, Option<Inline>)
    decreases s0
  {
    var s := Base(s0);
    match ShapeOf(s)
    case Reference(ref) => (Named(RefName(ref)), None)
    case Scalar(t) => (t, None)
    case Wrapper(inner) => GoTypeOf(inner, owner, field)
    case Elements(inner) =>
      var (t, inline) := GoTypeOf(inner, owner, field);
      (ListOf(t), inline)
    case Values(inner) =>
      var (t, inline) := GoTypeOf(inner, owner, field);
      (MapOf(t), inline)
    case Object =>
      var name := ExportName(owner + "_" + field);
      (Named(name), Some(Inline(name, s)))
  }

  function NamesIn(t: GoType): set<string> {
    match t
    case Named(n) => {n}
    case ListOf(e) => NamesIn(e)
    case MapOf(e) => NamesIn(e)
    case _ => {}
  }

  /** Every `$ref` inside the schema leads to one of the given Go names. */
  ghost predicate RefsWithin(s: Schema, names: set<string>) {
    && (s.ref != "" ==> RefName(s.ref) in names)
    && (forall k :: k in s.properties ==> RefsWithin(s.properties[k], names))
    && (s.items.Some? ==> RefsWithin(s.items.value, names))
    && (s.additional.Constrained? ==> RefsWithin(s.additional.s, names))
    && (forall x :: x in s.oneOf ==> RefsWithin(x, names))
    && (forall x :: x in s.anyOf ==> RefsWithin(x, names))
    && (forall x :: x in s.allOf ==> RefsWithin(x, names))
  }

  lemma BaseKeepsScope(s: Schema, names: set<string>)
    requires RefsWithin(s, names)
    ensures RefsWithin(Base(s), names)
  {
    assert forall x :: x in Concrete(s.anyOf) ==> x in s.anyOf;
    if |s.allOf| == 1 {
      assert s.allOf[0] in s.allOf;
    }
  }

  lemma ShapeKeepsScope(s: Schema, names: set<string>)
    requires RefsWithin(s, names)
    ensures var r := ShapeOf(s);
      && (r.Wrapper? || r.Elements? || r.Values? ==> RefsWithin(r.inner, names))
      && (r.Reference? ==> RefName(r.ref) in names)
      && (r.Scalar? ==> NamesIn(r.t) == {})
  {
    hide Size, ExportName, EnumUnion, FirstConcrete;
    if |s.allOf| == 1 {
      assert s.allOf[0] in s.allOf;
    }
  }

  /** A handed-out object has fields and is no larger than the schema it was met in. */
  lemma {:induction false} InlineIsNoLarger(s0: Schema, owner: string, field: string)
    ensures var inline := GoTypeOf(s0, owner, field).1;
      inline.Some? ==> inline.value.s.properties != map[] && Size(inline.value.s) <= Size(s0)
    decreases s0
  {
    hide ShapeOf, Base, Size, ExportName;
    var r := ShapeOf(Base(s0));
    if r.Wrapper? || r.Elements? || r.Values? {
      InlineIsNoLarger(r.inner, owner, field);
    }
  }

  ghost predicate Scoped(r: (GoType, Option<Inline>), names: set<string>) {
    && (forall n :: n in NamesIn(r.0) ==> n in names || (r.1.Some? && n == r.1.value.name))
    && (r.1.Some? ==> RefsWithin(r.1.value.s, names))
  }

  /** A type mentions only the object it hands out and what the schema's references lead to. */
  lemma {:induction false} GoTypeIsScoped(s0: Schema, owner: string, field: string, names: set<string>)
    requires RefsWithin(s0, names)
    ensures Scoped(GoTypeOf(s0, owner, field), names)
    decreases s0
  {
    hide ShapeOf, Base, Size, ExportName, RefsWithin;
    BaseKeepsScope(s0, names);
    ShapeKeepsScope(Base(s0), names);
    var r := ShapeOf(Base(s0));
    if r.Wrapper? || r.Elements? || r.Values? {
      GoTypeIsScoped(r.inner, owner, field, names);
    }
  }

  // ---------- JSON kinds and widening ----------

  ghost predicate InjectiveNames(defs: map<string, Schema>) {
    forall a, b :: a in defs && b in defs && ExportName(a) == ExportName(b) ==> a == b
  }

  ghost function Definition(defs: map<string, Schema>, goName: string): Option<Schema> {
    if d :| d in defs && ExportName(d) == goName then Some(defs[d]) else None
  }

  datatype Kind = NoKind | StringKind | IntegerKind | NumberKind | BooleanKind

  function FirstScalar(ts: seq<JsonType>): Kind {
    if ts == [] then NoKind
    else match ts[0]
      case StringType => StringKind
      case IntegerType => IntegerKind
      case NumberType => NumberKind
      case BooleanType => BooleanKind
      case _ => FirstScalar(ts[1..])
  }

  ghost function GoNamesOf(defs: map<string, Schema>): set<string> {
    set d | d in defs :: ExportName(d)
  }

  /** Where the lookup of a named type's JSON kind goes on: at the single `allOf` reference of a
      definition that is neither an enum of strings nor of a scalar type. */
  ghost function Next(defs: map<string, Schema>, goName: string): (r: Option<string>)
    ensures r.Some? ==> goName in GoNamesOf(defs)
  {
    match Definition(defs, goName)
    case None => None
    case Some(def) =>
      var base := Base(def);
      if IsStringEnum(def) || EnumUnion(def) || FirstScalar(Types(base)) != NoKind || |base.allOf| != 1 then None
      else Some(RefName(base.allOf[0].ref))
  }

  /** The kind of a name whose lookup goes on nowhere. */
  ghost function OwnKind(defs: map<string, Schema>, goName: string): Kind {
    match Definition(defs, goName)
    case None => NoKind
    case Some(def) => if IsStringEnum(def) || EnumUnion(def) then StringKind else FirstScalar(Types(Base(def)))
  }

  /** The JSON kind a named type encodes; None when the lookup comes back to a name it has visited,
      and so, as `EndlessIffCircular` shows, when the source does not return. */
  ghost function NamedKind(defs: map<string, Schema>, goName: string, visited: set<string>): Option<Kind>
    decreases GoNamesOf(defs) - visited
  {
    if goName in visited then None
    else match Next(defs, goName)
      case None => Some(OwnKind(defs, goName))
      case Some(n) => NamedKind(defs, n, visited + {goName})
  }

  /** The name a lookup has come to after `k` references. */
  ghost function Hop(defs: map<string, Schema>, goName: string, k: nat): Option<string>
    decreases k
  {
    if k == 0 then Some(goName)
    else match Next(defs, goName)
      case None => None
      case Some(n) => Hop(defs, n, k - 1)
  }

  /** Following single `allOf` references from the name comes to some name twice. */
  ghost predicate Circular(defs: map<string, Schema>, goName: string) {
    exists i: nat, j: nat :: i < j && Hop(defs, goName, i).Some? && Hop(defs, goName, i) == Hop(defs, goName, j)
  }

  ghost predicate Hits(defs: map<string, Schema>, goName: string, names: set<string>) {
    exists i: nat :: Hop(defs, goName, i).Some? && Hop(defs, goName, i).value in names
  }

  lemma {:induction false} HopsCompose(defs: map<string, Schema>, goName: string, i: nat, j: nat)
    requires Hop(defs, goName, i).Some?
    ensures Hop(defs, goName, i + j) == Hop(defs, Hop(defs, goName, i).value, j)
    decreases i
  {
    hide Next, ExportName, GoNamesOf;
    if i > 0 {
      HopsCompose(defs, Next(defs, goName).value, i - 1, j);
    }
  }

  lemma {:induction false} EarlierHops(defs: map<string, Schema>, goName: string, i: nat, j: nat)
    requires i <= j && Hop(defs, goName, j).Some?
    ensures Hop(defs, goName, i).Some?
    decreases i
  {
    hide Next, ExportName, GoNamesOf;
    if i > 0 {
      EarlierHops(defs, Next(defs, goName).value, i - 1, j - 1);
    }
  }

  /** Behind a name that is not itself hit again, being circular and hitting a name start one later. */
  lemma AfterOneHop(defs: map<string, Schema>, goName: string, visited: set<string>)
    requires goName !in visited && Next(defs, goName).Some?
    ensures var n := Next(defs, goName).value;
      Circular(defs, goName) || Hits(defs, goName, visited)
      <==> Circular(defs, n) || Hits(defs, n, visited + {goName})
  {
    hide Next, ExportName, GoNamesOf;
    var n := Next(defs, goName).value;
    assert forall k: nat :: Hop(defs, goName, k + 1) == Hop(defs, n, k);
    if i: nat, j: nat :| i < j && Hop(defs, goName, i).Some? && Hop(defs, goName, i) == Hop(defs, goName, j) {
      if i == 0 {
        assert Hop(defs, n, j - 1).value in visited + {goName};
      } else {
        assert Hop(defs, n, i - 1) == Hop(defs, n, j - 1);
      }
    }
    if i: nat :| Hop(defs, goName, i).Some? && Hop(defs, goName, i).value in visited {
      assert i > 0 && Hop(defs, n, i - 1).value in visited + {goName};
    }
    if i: nat, j: nat :| i < j && Hop(defs, n, i).Some? && Hop(defs, n, i) == Hop(defs, n, j) {
      assert Hop(defs, goName, i + 1) == Hop(defs, goName, j + 1);
    }
    if i: nat :| Hop(defs, n, i).Some? && Hop(defs, n, i).value in visited + {goName} {
      if Hop(defs, n, i).value == goName {
        assert Hop(defs, goName, 0) == Hop(defs, goName, i + 1);
      } else {
        assert Hop(defs, goName, i + 1).value in visited;
      }
    }
  }

  lemma {:induction false} LookupFailsIff(defs: map<string, Schema>, goName: string, visited: set<string>)
    ensures NamedKind(defs, goName, visited).None? <==> Circular(defs, goName) || Hits(defs, goName, visited)
    decreases GoNamesOf(defs) - visited
  {
    hide Next, ExportName, OwnKind, Circular, Hits;
    if goName in visited {
      NoHop(defs, goName, visited);
    } else {
      match Next(defs, goName) {
        case None => NoHop(defs, goName, visited);
        case Some(n) =>
          LookupFailsIff(defs, n, visited + {goName});
          AfterOneHop(defs, goName, visited);
      }
    }
  }

  lemma NoHop(defs: map<string, Schema>, goName: string, visited: set<string>)
    ensures goName in visited ==> Hits(defs, goName, visited)
    ensures goName !in visited && Next(defs, goName).None? ==> !Circular(defs, goName) && !Hits(defs, goName, visited)
  {
    hide Next, ExportName, GoNamesOf;
    assert Hop(defs, goName, 0) == Some(goName);
    assert Next(defs, goName).None? ==> forall k: nat :: k > 0 ==> Hop(defs, goName, k).None?;
  }

  lemma {:induction false} CircleGoesOn(defs: map<string, Schema>, goName: string, i: nat, j: nat, k: nat)
    requires i < j && Hop(defs, goName, i).Some? && Hop(defs, goName, i) == Hop(defs, goName, j)
    ensures Hop(defs, goName, k).Some?
    decreases k
  {
    hide Hop;
    if k <= j {
      EarlierHops(defs, goName, k, j);
    } else {
      CircleGoesOn(defs, goName, i, j, k - (j - i));
      HopsCompose(defs, goName, i, k - j);
      HopsCompose(defs, goName, j, k - j);
      assert i + (k - j) == k - (j - i);
    }
  }

  lemma {:induction false} LookupEnds(defs: map<string, Schema>, goName: string, visited: set<string>) returns (k: nat)
    requires NamedKind(defs, goName, visited).Some?
    ensures Hop(defs, goName, k).None?
    decreases GoNamesOf(defs) - visited
  {
    hide Next, ExportName, OwnKind;
    match Next(defs, goName) {
      case None => k := 1;
      case Some(n) =>
        var m := LookupEnds(defs, n, visited + {goName});
        k := m + 1;
    }
  }

  /** The lookup of a name never comes to an end, and so finds no kind, exactly when it is circular. */
  lemma EndlessIffCircular(defs: map<string, Schema>, goName: string)
    ensures (forall k: nat :: Hop(defs, goName, k).Some?) <==> Circular(defs, goName)
    ensures NamedKind(defs, goName, {}).None? <==> Circular(defs, goName)
  {
    hide Hop, NamedKind;
    LookupFailsIff(defs, goName, {});
    if i: nat, j: nat :| i < j && Hop(defs, goName, i).Some? && Hop(defs, goName, i) == Hop(defs, goName, j) {
      forall k: nat
        ensures Hop(defs, goName, k).Some?
      {
        CircleGoesOn(defs, goName, i, j, k);
      }
    } else {
      var k := LookupEnds(defs, goName, {});
    }
  }

  ghost function JsonKind(defs: map<string, Schema>, t: GoType): Option<Kind> {
    match t
    case Text => Some(StringKind)
    case Int64 => Some(IntegerKind)
    case Uint64 => Some(IntegerKind)
    case Float64 => Some(NumberKind)
    case Bool => Some(BooleanKind)
    case Named(n) => NamedKind(defs, n, {})
    case _ => Some(NoKind)
  }

  /** Looking up the kind of the type does not return. */
  ghost predicate Loops(defs: map<string, Schema>, t: GoType) {
    t.Named? && Circular(defs, t.name)
  }

  lemma NoKindIffLoops(defs: map<string, Schema>, t: GoType)
    ensures JsonKind(defs, t).None? <==> Loops(defs, t)
  {
    hide NamedKind, Circular;
    if t.Named? {
      EndlessIffCircular(defs, t.name);
    }
  }

  /** The one Go type that stands for every type of a JSON kind. */
  function Canonical(kind: Kind): GoType {
    match kind
    case StringKind => Text
    case IntegerKind => Int64
    case NumberKind => Float64
    case BooleanKind => Bool
    case NoKind => RawJson
  }

  /** The type for both; None when one of the lookups does not return. */
  ghost function Widen(defs: map<string, Schema>, a: GoType, b: GoType): Option<GoType> {
    var ka, kb := JsonKind(defs, a), JsonKind(defs, b);
    if ka.None? || kb.None? then None
    else Some(if ka != kb || ka.value == NoKind then RawJson else Canonical(ka.value))
  }

  /** What folding the arms of a union does to the type of a field: keep it while the arms agree,
      widen it when the next arm differs. None when that does not return. */
  ghost function Folded(defs: map<string, Schema>, ts: seq<GoType>): Option<GoType>
    requires ts != []
  {
    if |ts| == 1 then Some(ts[0])
    else
      match Folded(defs, ts[..|ts| - 1])
      case None => None
      case Some(before) =>
        var t := ts[|ts| - 1];
        if before == t then Some(before) else Widen(defs, before, t)
  }

  ghost predicate AllAre(ts: seq<GoType>, t: GoType) {
    forall x :: x in ts ==> x == t
  }

  ghost predicate AllOfKind(defs: map<string, Schema>, ts: seq<GoType>, kind: Kind) {
    forall x :: x in ts ==> JsonKind(defs, x) == Some(kind)
  }

  ghost predicate AllReturn(defs: map<string, Schema>, ts: seq<GoType>) {
    forall x :: x in ts ==> JsonKind(defs, x).Some?
  }

  /** The one type for a field whose arms give it the types of `ts`. */
  ghost predicate IsFieldType(defs: map<string, Schema>, ts: seq<GoType>, r: GoType) {
    && (forall t :: t in ts && AllAre(ts, t) ==> r == t)
    && ((exists t, u :: t in ts && u in ts && t != u) ==>
        && (forall kind :: kind != NoKind && AllOfKind(defs, ts, kind) ==> r == Canonical(kind))
        && ((forall kind :: kind != NoKind ==> !AllOfKind(defs, ts, kind)) ==> r == RawJson))
  }

  lemma SnocFacts(defs: map<string, Schema>, rest: seq<GoType>, t: GoType)
    ensures forall u :: AllAre(rest + [t], u) <==> AllAre(rest, u) && t == u
    ensures forall kind :: AllOfKind(defs, rest + [t], kind) <==> AllOfKind(defs, rest, kind) && JsonKind(defs, t) == Some(kind)
    ensures AllReturn(defs, rest + [t]) <==> AllReturn(defs, rest) && JsonKind(defs, t).Some?
  {
    hide JsonKind;
    assert forall x :: x in rest + [t] <==> x in rest || x == t;
    forall u | AllAre(rest + [t], u)
      ensures AllAre(rest, u) && t == u
    {
      assert t in rest + [t];
      assert forall x :: x in rest ==> x in rest + [t];
    }
  }

  /** Folding gives the shared type if all arms agree; else nothing if some lookup does not return,
      the canonical type of a scalar kind they all share, or raw JSON. */
  ghost predicate FoldsByCases(defs: map<string, Schema>, ts: seq<GoType>)
    requires ts != []
  {
    Folded(defs, ts) ==
      if AllAre(ts, ts[0]) then Some(ts[0])
      else if !AllReturn(defs, ts) then None
      else if JsonKind(defs, ts[0]).Some? && AllOfKind(defs, ts, JsonKind(defs, ts[0]).value) then
        Some(Canonical(JsonKind(defs, ts[0]).value))
      else Some(RawJson)
  }

  lemma {:induction false} FoldedByCases(defs: map<string, Schema>, ts: seq<GoType>)
    requires ts != []
    ensures FoldsByCases(defs, ts)
    decreases |ts|
  {
    hide JsonKind, AllAre, AllOfKind, AllReturn;
    if |ts| > 1 {
      var rest, t := ts[..|ts| - 1], ts[|ts| - 1];
      FoldedByCases(defs, rest);
      assert ts == rest + [t] && rest[0] == ts[0];
      SnocFacts(defs, rest, t);
      if JsonKind(defs, ts[0]).Some? {
        KindOfCanonical(defs, JsonKind(defs, ts[0]).value);
        SameTypeSameKind(defs, rest, ts[0]);
      }
      FirstReturns(defs, rest);
      KindOfCanonical(defs, NoKind);
    } else {
      assert ts == [ts[0]];
      OneType(ts[0]);
    }
  }

  lemma SameTypeSameKind(defs: map<string, Schema>, ts: seq<GoType>, t: GoType)
    requires JsonKind(defs, t).Some?
    ensures AllAre(ts, t) ==> AllOfKind(defs, ts, JsonKind(defs, t).value) && AllReturn(defs, ts)
  {
    hide JsonKind;
  }

  lemma FirstReturns(defs: map<string, Schema>, ts: seq<GoType>)
    requires ts != []
    ensures AllReturn(defs, ts) ==> JsonKind(defs, ts[0]).Some?
  {
    hide JsonKind;
    assert ts[0] in ts;
  }

  lemma OneType(t: GoType)
    ensures AllAre([t], t)
  {
  }

  lemma KindOfCanonical(defs: map<string, Schema>, kind: Kind)
    ensures JsonKind(defs, Canonical(kind)) == Some(kind)
  {
  }

  /** A field's fold returns exactly when its arms agree on the type or none of their types sends the
      lookup round a circle. */
  lemma FoldReturnsIff(defs: map<string, Schema>, ts: seq<GoType>)
    requires ts != []
    ensures Folded(defs, ts).Some? <==> AllAre(ts, ts[0]) || forall t :: t in ts ==> !Loops(defs, t)
  {
    hide Folded, JsonKind, Loops, AllAre;
    FoldedByCases(defs, ts);
    forall t
      ensures JsonKind(defs, t).None? <==> Loops(defs, t)
    {
      NoKindIffLoops(defs, t);
    }
  }

  lemma FoldedIsFieldType(defs: map<string, Schema>, ts: seq<GoType>)
    requires ts != []
    ensures Folded(defs, ts).Some? ==> IsFieldType(defs, ts, Folded(defs, ts).value)
  {
    hide Folded, JsonKind;
    FoldedByCases(defs, ts);
    assert ts[0] in ts;
  }

  lemma FieldTypeIsUnique(defs: map<string, Schema>, ts: seq<GoType>, us: seq<GoType>, q: GoType, r: GoType)
    requires ts != [] && forall t :: t in ts <==> t in us
    requires IsFieldType(defs, ts, q) && IsFieldType(defs, us, r)
    ensures q == r
  {
    hide JsonKind;
    assert ts[0] in ts;
    assert forall kind :: AllOfKind(defs, ts, kind) <==> AllOfKind(defs, us, kind);
    assert AllAre(ts, ts[0]) <==> AllAre(us, ts[0]);
    if !AllAre(ts, ts[0]) {
      var u :| u in ts && u != ts[0];
      if kind :| kind != NoKind && AllOfKind(defs, ts, kind) {
        assert AllOfKind(defs, us, kind);
      }
    }
  }

  /** The type of a union field does not depend on the order of the arms, nor does whether there is
      one. */
  lemma FieldTypeIgnoresArmOrder(defs: map<string, Schema>, ts: seq<GoType>, us: seq<GoType>)
    requires ts != [] && multiset(ts) == multiset(us)
    ensures us != [] && Folded(defs, ts) == Folded(defs, us)
  {
    hide Folded, IsFieldType, Loops;
    assert |multiset(ts)| == |ts| && |multiset(us)| == |us|;
    forall t
      ensures t in ts <==> t in us
    {
      assert t in ts <==> t in multiset(ts);
      assert t in us <==> t in multiset(us);
    }
    FoldReturnsIff(defs, ts);
    FoldReturnsIff(defs, us);
    assert ts[0] in us && us[0] in ts;
    FoldedIsFieldType(defs, ts);
    FoldedIsFieldType(defs, us);
    if Folded(defs, ts).Some? && Folded(defs, us).Some? {
      FieldTypeIsUnique(defs, ts, us, Folded(defs, ts).value, Folded(defs, us).value);
    }
  }
}
