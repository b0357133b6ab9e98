/** A definition whose single `allOf` refers to itself: rendering it alone returns, and rendering it
    beside a union that has to widen its type does not. */
module CircularKind {
  import opened Options
  import opened Strings
  import opened GoNames
  import opened Schemas
  import opened GoTypes
  import opened Declarations
  import opened Closure
  import Clash = DiscriminatorClash

  function RefA(): Schema {
    Clash.Blank().(ref := "#/A")
  }

  function A(): Schema {
    Clash.Blank().(properties := map["p" := Clash.Blank()], allOf := [RefA()])
  }

  function StringSchema(): Schema {
    Clash.Blank().(typ := One(StringType))
  }

  function Tagged(f: Schema): Schema {
    Clash.Blank().(properties := map["t" := Clash.Blank().(enums := [Str("v")]), "f" := f])
  }

  /** A union whose arms give the field `f` the types `A` and string. */
  function Union(): Schema {
    Clash.Blank().(oneOf := [Tagged(RefA()), Tagged(StringSchema())])
  }

  function Alone(): map<string, Schema> {
    map["A" := A()]
  }

  function Beside(): map<string, Schema> {
    map["A" := A(), "u" := Union()]
  }

  lemma InitialismEnds(last: char)
    requires last == 'A' || last == 'U'
    ensures forall i :: 0 <= i < |Initialisms()| ==>
      Initialisms()[i].0 != "" && Initialisms()[i].0[|Initialisms()[i].0| - 1] != last
  {
  }

  lemma TheNames()
    ensures ExportName("A") == "A" && ExportName("u") == "U" && RefName("#/A") == "A"
  {
    hide Initialisms;
    InitialismEnds('A');
    InitialismEnds('U');
    assert "A"[1..] == "" && "u"[1..] == "";
    assert Words("A", true) == "A" && Words("u", true) == "U";
    Clash.NoInitialism("A", Initialisms());
    Clash.NoInitialism("U", Initialisms());
    assert "#/A"[..2] == "#/";
    assert AfterLastSlash("#/") == "" && AfterLastSlash("#/A") == "" + "A";
  }

  lemma AIsPlain()
    ensures Base(A()) == A() && !EnumUnion(A()) && !IsStringEnum(A()) && Types(A()) == []
    ensures |A().allOf| == 1 && A().allOf[0].ref == "#/A"
  {
    var a := A();
    assert a.typ == NoType && a.enums == [] && a.oneOf == [] && a.anyOf == [] && "p" in a.properties;
    assert Concrete(a.anyOf) == [];
  }

  lemma AIsCircular(defs: map<string, Schema>)
    requires "A" in defs && defs["A"] == A() && forall d :: d in defs && ExportName(d) == "A" ==> d == "A"
    ensures Circular(defs, "A")
  {
    TheNames();
    AIsPlain();
    hide ExportName, A, EnumUnion, IsStringEnum, Base;
    assert Definition(defs, "A") == Some(A());
    assert Next(defs, "A") == Some("A");
    hide Next;
    assert Hop(defs, "A", 0) == Some("A") && Hop(defs, "A", 1) == Some("A");
  }

  lemma TheTypes()
    ensures ArmTypes("U", Union().oneOf, "f") == [Named("A"), Text]
  {
    TheNames();
    hide ExportName;
    var r, s := Tagged(RefA()), Tagged(StringSchema());
    assert Base(RefA()) == RefA() && Base(StringSchema()) == StringSchema();
    assert GoTypeOf(RefA(), "U", "f").0 == Named("A");
    assert GoTypeOf(StringSchema(), "U", "f").0 == Text;
    hide GoTypeOf;
    assert [r, s][..1] == [r] && [r][..0] == [];
    assert ArmTypes("U", [r], "f") == [Named("A")];
  }

  lemma TheOrder()
    ensures Sorted(Beside().Keys) == ["A", "u"] && Sorted(Alone().Keys) == ["A"]
  {
    var m := SortedStep(Beside().Keys);
    assert "A" in Beside().Keys && "u" in Beside().Keys;
    assert !Leq("u", "A") && m == "A";
    assert Beside().Keys - {"A"} == {"u"};
    var n := SortedStep({"u"});
    assert {"u"} - {"u"} == {};
    assert Alone().Keys == {"A"};
    var k := SortedStep({"A"});
    assert {"A"} - {"A"} == {};
  }

  lemma UnionIsTagged()
    ensures IsUnionDefinition(Union()) && !IsUnionDefinition(A()) && TagOf(Union()) != "f"
  {
    var arms := Union().oneOf;
    assert arms[0] == Tagged(RefA()) && !EnumArm(arms[0]);
    assert "t" in CommonTags(arms) && "f" !in CommonTags(arms);
  }

  lemma FLoops()
    ensures FieldLoops(Beside(), "U", Union().oneOf, "f")
  {
    TheNames();
    hide ExportName, ArmTypes, Circular;
    AIsCircular(Beside());
    TheTypes();
    var ts := ArmTypes("U", Union().oneOf, "f");
    assert ts[0] == Named("A") && ts[1] == Text;
    assert Loops(Beside(), ts[0]) && ts[0] in ts && ts[1] in ts;
  }

  /** Alone the circular definition is rendered; beside the union rendering does not return. */
  lemma OnlyTheUnionAsks()
    ensures Circular(Alone(), "A") && Circular(Beside(), "A")
    ensures Rendered(Alone()).Some? && Rendered(Beside()).None?
  {
    TheNames();
    TheOrder();
    UnionIsTagged();
    FLoops();
    hide ExportName, FieldLoops, IsUnionDefinition, Sorted, Circular, Rendered;
    AIsCircular(Alone());
    AIsCircular(Beside());
    RenderingReturnsIff(Alone());
    RenderingReturnsIff(Beside());
    assert ["A", "u"][..1] == ["A"] && ["A"][..0] == [];
    assert Taken(Beside(), ["A"]) == {"A"};
    assert CircleAskedAt(Beside(), ["A", "u"], 1);
    assert !CircleAskedAt(Alone(), ["A"], 0);
  }
}
