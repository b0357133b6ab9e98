/** `exportName` of the protocol generator: from a JSON or schema name to an exported Go identifier. */
module GoNames {
  predicate IsLower(c: char) { 'a' <= c <= 'z' }
  predicate IsUpper(c: char) { 'A' <= c <= 'Z' }
  predicate IsDigit(c: char) { '0' <= c <= '9' }
  predicate IsAlnum(c: char) { IsLower(c) || IsUpper(c) || IsDigit(c) }

  function Upper(c: char): char {
    if IsLower(c) then 'A' + (c - 'a') else c
  }

  /** The name with word boundaries dropped and each word capitalised; `upper` says that the next
      letter starts a word. */
  function Words(s: string, upper: bool): string {
    if s == "" then ""
    else if !IsAlnum(s[0]) then Words(s[1..], true)
    else if IsDigit(s[0]) then [s[0]] + Words(s[1..], false)
    else [if upper then Upper(s[0]) else s[0]] + Words(s[1..], false)
  }

  /** A Go identifier cannot begin with a digit. */
  function Prefixed(s: string): string {
    if s != "" && IsDigit(s[0]) then "N" + s else s
  }

  /** The i-th row of the source's table. */
  function Initialism(i: nat): (string, string) {
    match i
    case 0 => ("Id", "ID")
    case 1 => ("Url", "URL")
    case 2 => ("Uri", "URI")
    case 3 => ("Api", "API")
    case 4 => ("Json", "JSON")
    case 5 => ("Http", "HTTP")
    case 6 => ("Mcp", "MCP")
    case 7 => ("Sdp", "SDP")
    case 8 => ("Cwd", "Cwd")
    case _ => ("Ts", "Ts")
  }

  function Initialisms(): seq<(string, string)> {
    seq(10, i requires 0 <= i < 10 => Initialism(i))
  }

  predicate HasSuffix(s: string, x: string) {
    |x| <= |s| && s[|s| - |x|..] == x
  }

  function Replace(s: string, pair: (string, string)): string {
    if HasSuffix(s, pair.0) then s[..|s| - |pair.0|] + pair.1 else s
  }

  function ReplaceAll(s: string, pairs: seq<(string, string)>): string
    decreases |pairs|
  {
    if pairs == [] then s else ReplaceAll(Replace(s, pairs[0]), pairs[1..])
  }

  function ExportName(s: string): string {
    ReplaceAll(Prefixed(Words(s, true)), Initialisms())
  }

  /** The builder loop of the source. */
  method BuildWords(s: string) returns (r: string)
    ensures r == Words(s, true)
  {
    r := "";
    var upper := true;
    for i := 0 to |s|
      invariant r + Words(s[i..], upper) == Words(s, true)
    {
      var c := s[i];
      assert s[i..][1..] == s[i + 1..];
      if !IsAlnum(c) {
        upper := true;
      } else {
        ghost var was := r;
        var next := if !IsDigit(c) && upper then Upper(c) else c;
        r := r + [next];
        assert was + ([next] + Words(s[i + 1..], false)) == r + Words(s[i + 1..], false);
        upper := false;
      }
    }
    assert s[|s|..] == "";
  }

  /** The source's pass over the initialisms. */
  method ApplyInitialisms(s: string, pairs: seq<(string, string)>) returns (r: string)
    ensures r == ReplaceAll(s, pairs)
  {
    r := s;
    for i := 0 to |pairs|
      invariant ReplaceAll(r, pairs[i..]) == ReplaceAll(s, pairs)
    {
      assert pairs[i..][1..] == pairs[i + 1..];
      var pair := pairs[i];
      if HasSuffix(r, pair.0) {
        r := r[..|r| - |pair.0|] + pair.1;
      }
    }
    assert pairs[|pairs|..] == [];
  }

  method BuildExportName(s: string) returns (r: string)
    ensures r == ExportName(s)
  {
    r := BuildWords(s);
    if r != "" && IsDigit(r[0]) {
      r := "N" + r;
    }
    r := ApplyInitialisms(r, Initialisms());
  }

  predicate IsExported(s: string) {
    s != "" && IsUpper(s[0]) && forall c :: c in s ==> IsAlnum(c)
  }

  lemma {:induction false} WordsAreAlnum(s: string, upper: bool)
    ensures forall c :: c in Words(s, upper) ==> IsAlnum(c)
    ensures upper && Words(s, upper) != "" ==> IsDigit(Words(s, upper)[0]) || IsUpper(Words(s, upper)[0])
  {
    if s != "" {
      WordsAreAlnum(s[1..], true);
      WordsAreAlnum(s[1..], false);
    }
  }

  lemma {:induction false} ReplacementsKeepIdentifiers(s: string, pairs: seq<(string, string)>)
    requires IsExported(s)
    requires forall p :: p in pairs ==> |p.0| == |p.1| && IsExported(p.1)
    ensures IsExported(ReplaceAll(s, pairs))
    decreases |pairs|
  {
    if pairs != [] {
      var r := Replace(s, pairs[0]);
      assert forall i :: 0 <= i < |r| ==> r[i] in s || r[i] in pairs[0].1;
      ReplacementsKeepIdentifiers(r, pairs[1..]);
    }
  }

  lemma RowIsIdentifier(i: nat)
    requires i < 10
    ensures var p := Initialism(i); |p.0| == |p.1| > 0 && IsExported(p.1)
  {
  }

  lemma InitialismsAreIdentifiers()
    ensures forall p :: p in Initialisms() ==> |p.0| == |p.1| > 0 && IsExported(p.1)
  {
    hide Initialism, IsExported;
    forall i: nat | i < 10
      ensures |Initialism(i).0| == |Initialism(i).1| > 0 && IsExported(Initialism(i).1)
    {
      RowIsIdentifier(i);
    }
  }

  /** The generated name is an exported Go identifier, or empty when the name has no letter and no
      digit at all. */
  lemma ExportNameIsIdentifier(s: string)
    ensures ExportName(s) == "" || IsExported(ExportName(s))
    ensures ExportName(s) == "" <==> forall c :: c in s ==> !IsAlnum(c)
  {
    WordsAreAlnum(s, true);
    WordsEmptyIff(s, true);
    InitialismsAreIdentifiers();
    var w := Prefixed(Words(s, true));
    if w == "" {
      EmptyStaysEmpty(Initialisms());
    } else {
      ReplacementsKeepIdentifiers(w, Initialisms());
    }
  }

  lemma {:induction false} WordsEmptyIff(s: string, upper: bool)
    ensures Words(s, upper) == "" <==> forall c :: c in s ==> !IsAlnum(c)
  {
    if s != "" {
      WordsEmptyIff(s[1..], true);
      assert forall c :: c in s <==> c == s[0] || c in s[1..];
    }
  }

  lemma {:induction false} EmptyStaysEmpty(pairs: seq<(string, string)>)
    requires forall p :: p in pairs ==> p.0 != ""
    ensures ReplaceAll("", pairs) == ""
    decreases |pairs|
  {
    if pairs != [] {
      EmptyStaysEmpty(pairs[1..]);
    }
  }

  // ---------- which letters, and how ----------

  /** A word starts at the first letter or digit after anything else. */
  predicate StartsWord(s: string, upper: bool, k: nat)
    requires k < |s|
  {
    if k == 0 then upper else !IsAlnum(s[k - 1])
  }

  /** The positions of the letters and digits, in order. */
  ghost predicate ArePositions(s: string, ks: seq<nat>) {
    && (forall i, j :: 0 <= i < j < |ks| ==> ks[i] < ks[j])
    && (forall k :: k in ks <==> 0 <= k < |s| && IsAlnum(s[k]))
  }

  /** The text holds the letters and digits of `s` in order, those that start a word capitalised. */
  ghost predicate Spells(r: string, s: string, upper: bool, ks: seq<nat>) {
    && ArePositions(s, ks) && |r| == |ks|
    && forall i :: 0 <= i < |ks| ==> SpellsAt(r[i], s, upper, ks[i])
  }

  predicate SpellsAt(c: char, s: string, upper: bool, k: nat) {
    k < |s| && c == if StartsWord(s, upper, k) then Upper(s[k]) else s[k]
  }

  /** What the last character of a name adds. */
  lemma {:induction false} WordsSnoc(s: string, upper: bool)
    requires s != ""
    ensures var n := |s| - 1;
      Words(s, upper) == Words(s[..n], upper)
        + if !IsAlnum(s[n]) then "" else [if StartsWord(s, upper, n) then Upper(s[n]) else s[n]]
  {
    hide Words, Upper, IsAlnum;
    var n := |s| - 1;
    FirstWord(s, upper);
    if n == 0 {
      NoWords(!IsAlnum(s[0]));
      NoWords(upper);
      assert s[1..] == "" && s[..0] == "";
    } else {
      var next := !IsAlnum(s[0]);
      WordsSnoc(s[1..], next);
      assert s[1..][..n - 1] == s[..n][1..] && s[..n][0] == s[0] && s[1..][n - 1] == s[n];
      FirstWord(s[..n], upper);
    }
  }

  lemma NoWords(upper: bool)
    ensures Words("", upper) == ""
  {
  }

  lemma FirstWord(s: string, upper: bool)
    requires s != ""
    ensures Words(s, upper) ==
      (if !IsAlnum(s[0]) then "" else [if upper then Upper(s[0]) else s[0]]) + Words(s[1..], !IsAlnum(s[0]))
  {
    DigitsStay(s[0]);
    assert "" + Words(s[1..], true) == Words(s[1..], true);
  }

  lemma DigitsStay(c: char)
    ensures IsDigit(c) ==> Upper(c) == c
  {
  }

  lemma {:induction false} WordsSpell(s: string, upper: bool) returns (ks: seq<nat>)
    ensures Spells(Words(s, upper), s, upper, ks)
  {
    hide Spells, Upper, IsAlnum, StartsWord;
    if s == "" {
      ks := [];
      NothingSpelt(upper);
    } else {
      var n := |s| - 1;
      WordsSnoc(s, upper);
      var before := WordsSpell(s[..n], upper);
      ks := before + if IsAlnum(s[n]) then [n] else [];
      OneMoreSpelt(Words(s[..n], upper), s, upper, before, ks);
    }
  }

  lemma NothingSpelt(upper: bool)
    ensures Spells("", "", upper, [])
  {
  }

  lemma MorePositions(s: string, before: seq<nat>)
    requires s != "" && ArePositions(s[..|s| - 1], before)
    ensures ArePositions(s, before + if IsAlnum(s[|s| - 1]) then [|s| - 1] else [])
  {
    hide IsAlnum;
    assert forall i :: 0 <= i < |before| ==> before[i] in before;
  }

  lemma OneMoreSpelt(r: string, s: string, upper: bool, before: seq<nat>, ks: seq<nat>)
    requires s != "" && Spells(r, s[..|s| - 1], upper, before)
    requires ks == before + if IsAlnum(s[|s| - 1]) then [|s| - 1] else []
    ensures var n := |s| - 1;
      Spells(r + if !IsAlnum(s[n]) then "" else [if StartsWord(s, upper, n) then Upper(s[n]) else s[n]], s, upper, ks)
  {
    MorePositions(s, before);
    hide IsAlnum, ArePositions, Upper, SpellsAt;
    var n := |s| - 1;
    LastSpelt(s, upper);
    forall i | 0 <= i < |before|
      ensures SpellsAt(r[i], s, upper, before[i])
    {
      SpeltStays(r[i], s, upper, before[i]);
    }
  }

  lemma LastSpelt(s: string, upper: bool)
    requires s != ""
    ensures var n := |s| - 1; SpellsAt(if StartsWord(s, upper, n) then Upper(s[n]) else s[n], s, upper, n)
  {
  }

  lemma SpeltStays(c: char, s: string, upper: bool, k: nat)
    requires s != "" && SpellsAt(c, s[..|s| - 1], upper, k)
    ensures SpellsAt(c, s, upper, k)
  {
  }

  /** The row that ends in these two letters, if any does. */
  function RowOf(a: char, b: char): nat {
    match b
    case 'l' => 1
    case 'i' => if a == 'r' then 2 else 3
    case 'n' => 4
    case 'p' => if a == 't' then 5 else if a == 'c' then 6 else 7
    case 's' => 9
    case _ => if a == 'w' then 8 else 0
  }

  /** A word ending in a small letter, to be replaced by one ending in a capital, if by another at all. */
  predicate IsInitialism(p: (string, string)) {
    && |p.0| == |p.1| > 1 && IsLower(p.0[|p.0| - 1]) && (p.1 == p.0 || IsUpper(p.1[|p.1| - 1]))
  }

  /** No row is an ending of another: they differ in their last two letters. */
  predicate AreInitialisms(pairs: seq<(string, string)>) {
    && (forall i :: 0 <= i < |pairs| ==> IsInitialism(pairs[i]))
    && (forall i, j :: 0 <= i < |pairs| && 0 <= j < |pairs| && HasSuffix(pairs[i].0, pairs[j].0) ==> i == j)
  }

  lemma RowIsInitialism(i: nat)
    requires i < 10
    ensures var p := Initialism(i); IsInitialism(p) && RowOf(p.0[|p.0| - 2], p.0[|p.0| - 1]) == i
  {
  }

  lemma SameEnding(w: string, x: string)
    requires HasSuffix(w, x) && |x| > 1
    ensures w[|w| - 2] == x[|x| - 2] && w[|w| - 1] == x[|x| - 1]
  {
  }

  lemma TheInitialisms()
    ensures AreInitialisms(Initialisms())
  {
    hide Initialism, RowOf;
    forall i: nat | i < 10
      ensures IsInitialism(Initialism(i))
    {
      RowIsInitialism(i);
    }
    forall i: nat, j: nat | i < 10 && j < 10 && HasSuffix(Initialism(i).0, Initialism(j).0)
      ensures i == j
    {
      RowIsInitialism(i);
      RowIsInitialism(j);
      SameEnding(Initialism(i).0, Initialism(j).0);
    }
  }

  lemma {:induction false} NoneApplies(w: string, pairs: seq<(string, string)>)
    requires forall p :: p in pairs ==> !HasSuffix(w, p.0)
    ensures ReplaceAll(w, pairs) == w
    decreases |pairs|
  {
    if pairs != [] {
      NoneApplies(w, pairs[1..]);
    }
  }

  lemma SuffixesNest(w: string, a: string, b: string)
    requires HasSuffix(w, a) && HasSuffix(w, b)
    ensures HasSuffix(a, b) || HasSuffix(b, a)
  {
    if |b| <= |a| {
      assert a[|a| - |b|..] == w[|w| - |b|..];
    } else {
      assert b[|b| - |a|..] == w[|w| - |a|..];
    }
  }

  lemma NothingNewApplies(w: string, p: (string, string), x: string)
    requires IsInitialism(p) && HasSuffix(w, p.0) && |x| > 1 && IsLower(x[|x| - 1]) && HasSuffix(Replace(w, p), x)
    ensures HasSuffix(p.0, x) || HasSuffix(x, p.0)
  {
    SameEnding(Replace(w, p), x);
    if p.1 == p.0 {
      assert Replace(w, p) == w;
      SuffixesNest(w, p.0, x);
    }
  }

  lemma ChangedOnce(w: string, pairs: seq<(string, string)>)
    requires pairs != [] && AreInitialisms(pairs) && HasSuffix(w, pairs[0].0)
    ensures forall p :: p in pairs[1..] ==> !HasSuffix(Replace(w, pairs[0]), p.0)
  {
    hide HasSuffix;
    forall i | 1 <= i < |pairs|
      ensures !HasSuffix(Replace(w, pairs[0]), pairs[i].0)
    {
      if HasSuffix(Replace(w, pairs[0]), pairs[i].0) {
        NothingNewApplies(w, pairs[0], pairs[i].0);
      }
    }
  }

  lemma FewerInitialisms(pairs: seq<(string, string)>)
    requires pairs != [] && AreInitialisms(pairs)
    ensures AreInitialisms(pairs[1..])
  {
    hide HasSuffix, IsInitialism;
    forall i, j | 0 <= i < |pairs[1..]| && 0 <= j < |pairs[1..]| && HasSuffix(pairs[1..][i].0, pairs[1..][j].0)
      ensures i == j
    {
      assert HasSuffix(pairs[i + 1].0, pairs[j + 1].0);
    }
  }

  /** At most one initialism applies, whatever the order of the passes. */
  lemma {:induction false} OneApplies(w: string, pairs: seq<(string, string)>, i: nat)
    requires AreInitialisms(pairs) && i < |pairs| && HasSuffix(w, pairs[i].0)
    ensures ReplaceAll(w, pairs) == w[..|w| - |pairs[i].0|] + pairs[i].1
    decreases |pairs|
  {
    hide HasSuffix;
    if i == 0 {
      ChangedOnce(w, pairs);
      NoneApplies(Replace(w, pairs[0]), pairs[1..]);
    } else {
      if HasSuffix(w, pairs[0].0) {
        SuffixesNest(w, pairs[0].0, pairs[i].0);
      }
      FewerInitialisms(pairs);
      OneApplies(w, pairs[1..], i - 1);
    }
  }

  /** The generated name keeps the letters and digits of `s` in order, capitalises those that start a
      word, gets an `N` before a leading digit, and its ending is replaced if and only if it is one of
      the initialisms. */
  lemma ExportNameSpells(s: string) returns (letters: string, ks: seq<nat>)
    ensures Spells(letters, s, true, ks)
    ensures var w := (if letters != "" && IsDigit(letters[0]) then "N" else "") + letters;
      && (forall i :: 0 <= i < |Initialisms()| && HasSuffix(w, Initialisms()[i].0) ==>
          ExportName(s) == w[..|w| - |Initialisms()[i].0|] + Initialisms()[i].1)
      && ((forall p :: p in Initialisms() ==> !HasSuffix(w, p.0)) ==> ExportName(s) == w)
  {
    hide Words, Spells, Initialism, AreInitialisms, ReplaceAll;
    letters := Words(s, true);
    ks := WordsSpell(s, true);
    TheInitialisms();
    var w := Prefixed(letters);
    assert w == (if letters != "" && IsDigit(letters[0]) then "N" else "") + letters;
    forall i | 0 <= i < |Initialisms()| && HasSuffix(w, Initialisms()[i].0)
      ensures ExportName(s) == w[..|w| - |Initialisms()[i].0|] + Initialisms()[i].1
    {
      OneApplies(w, Initialisms(), i);
    }
    if forall p :: p in Initialisms() ==> !HasSuffix(w, p.0) {
      NoneApplies(w, Initialisms());
    }
  }
}
