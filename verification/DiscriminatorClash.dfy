/** A forest in which two declarations of the generated file do get the same name: a tagged union `x`
    whose discriminator type is the Go name of another definition. */
module DiscriminatorClash {
  import opened Options
  import opened Strings
  import opened GoNames
  import opened Schemas
  import opened GoTypes
  import opened Declarations
  import opened Closure

  function Blank(): Schema {
    Schema("", NoType, [], map[], [], None, NoAdditional, [], [], [], "", "", "", map[], {})
  }

  function Arm(): Schema {
    Blank().(properties := map["t" := Blank().(enums := [Str("v")])])
  }

  function Union(): Schema {
    Blank().(oneOf := [Arm(), Arm()])
  }

  function Forest(): map<string, Schema> {
    map["XType" := Blank(), "x" := Union()]
  }

  /** No initialism ends a name whose last letter ends none of them. */
  lemma {:induction false} NoInitialism(s: string, pairs: seq<(string, string)>)
    requires s != ""
    requires forall i :: 0 <= i < |pairs| ==> pairs[i].0 != "" && pairs[i].0[|pairs[i].0| - 1] != s[|s| - 1]
    ensures ReplaceAll(s, pairs) == s
    decreases |pairs|
  {
    if pairs != [] {
      var x := pairs[0].0;
      assert |x| <= |s| ==> s[|s| - |x|..][|x| - 1] == s[|s| - 1];
      NoInitialism(s, pairs[1..]);
    }
  }

  lemma InitialismEnds(last: char)
    requires last == 'e' || last == 'X'
    ensures forall i :: 0 <= i < |Initialisms()| ==>
      Initialisms()[i].0 != "" && Initialisms()[i].0[|Initialisms()[i].0| - 1] != last
  {
  }

  lemma TheNames()
    ensures ExportName("XType") == "XType" && ExportName("x") == "X"
  {
    hide Initialisms;
    InitialismEnds('e');
    InitialismEnds('X');
    assert Words("x", true) == "X" by {
      assert "x"[1..] == "";
    }
    assert Words("XType", true) == "XType" by {
      assert "XType"[1..] == "Type" && "Type"[1..] == "ype" && "ype"[1..] == "pe" && "pe"[1..] == "e" && "e"[1..] == "";
      assert Words("e", false) == "e";
      assert Words("pe", false) == "pe";
      assert Words("ype", false) == "ype";
      assert Words("Type", false) == "Type";
    }
    NoInitialism("XType", Initialisms());
    NoInitialism("X", Initialisms());
  }

  lemma TheOrder()
    ensures Sorted(Forest().Keys) == ["XType", "x"]
  {
    var m := SortedStep(Forest().Keys);
    assert "XType" in Forest().Keys && "x" in Forest().Keys;
    assert !Leq("x", "XType") && m == "XType";
    assert Forest().Keys - {"XType"} == {"x"};
    var n := SortedStep({"x"});
    assert {"x"} - {"x"} == {};
  }

  lemma UnionIsTagged()
    ensures IsUnionDefinition(Union()) && !IsUnionDefinition(Blank())
  {
    assert Union().oneOf[0] == Arm() && !EnumArm(Arm());
    assert "t" in CommonTags(Union().oneOf);
  }

  /** Its arms have no property but the tag. */
  lemma NobodyAsks()
    ensures !CircleAsked(Forest(), ["XType", "x"])
  {
    hide ExportName, IsUnionDefinition, Taken, FieldLoops;
    UnionIsTagged();
    var arms := Union().oneOf;
    LeastOfTags(arms);
    forall p, owner | p != "t"
      ensures !FieldLoops(Forest(), owner, arms, p)
    {
      LoopingFieldOccurs(Forest(), owner, arms, p);
    }
  }

  lemma LeastOfTags(arms: seq<Schema>)
    requires arms == Union().oneOf
    ensures IsTaggedUnion(Union()) && TagOf(Union()) == "t"
  {
    assert "t" in CommonTags(arms);
    assert forall p :: p in CommonTags(arms) ==> p == "t";
  }

  lemma ADiscriminatorCanRepeat()
    ensures Rendered(Forest()).Some? && HasRepeat(Rendered(Forest()).value.decls)
  {
    TheOrder();
    TheNames();
    UnionIsTagged();
    NobodyAsks();
    hide ExportName, HasRepeat, Rendered, IsUnionDefinition, Sorted, CircleAsked;
    var names := ["XType", "x"];
    assert names[..1] == ["XType"] && ["XType"][..0] == [];
    assert Taken(Forest(), names[..1]) == {"XType"};
    assert "X" + "Type" == "XType";
    assert "X" != "XType";
    assert ClashAt(Forest(), names, 1);
    EveryNameIsDeclared(Forest());
  }
}
