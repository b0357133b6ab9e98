/** The wrapping of page-controlled text between two fixed markers. */
module UntrustedText {
  import opened Options

  /** `strings.ReplaceAll` for a non-empty `what`: left to right, without overlap. */
  function ReplaceAll(s: string, what: string, with: string): string
    requires what != ""
  {
    if s == "" then ""
    else if what <= s then with + ReplaceAll(s[|what|..], what, with)
    else [s[0]] + ReplaceAll(s[1..], what, with)
  }

  function BeginBody(): string {
    "BEGIN UNTRUSTED EXTERNAL CONTENT>>>"
  }

  function EndBody(): string {
    "END UNTRUSTED EXTERNAL CONTENT>>>"
  }

  function BeginMarker(): (m: string)
    ensures m != ""
  {
    "<<<" + BeginBody()
  }

  function EndMarker(): (m: string)
    ensures m != ""
  {
    "<<<" + EndBody()
  }

  /** What replaces a marker found in the text: its first `<` written as an escape. */
  function Escape(m: string): (e: string)
    requires m != ""
    ensures e != ""
  {
    "\\u003c" + m[1..]
  }

  function Escaped(value: string): string {
    ReplaceAll(ReplaceAll(value, BeginMarker(), Escape(BeginMarker())), EndMarker(), Escape(EndMarker()))
  }

  function Wrapped(value: string): string {
    BeginMarker() + "\n" + Escaped(value) + "\n" + EndMarker()
  }

  predicate OccursAt(s: string, m: string, i: int) {
    0 <= i && i + |m| <= |s| && s[i..i + |m|] == m
  }

  predicate Occurs(s: string, m: string) {
    exists i :: 0 <= i <= |s| && OccursAt(s, m, i)
  }

  /** What the argument needs of a marker: it opens with exactly three `<`, has no other, and holds
      neither a backslash nor a newline. */
  predicate IsMarker(m: string) {
    && |m| > 3 && m[0] == m[1] == m[2] == '<'
    && forall i :: 0 <= i < |m| ==> m[i] != '\\' && m[i] != '\n' && (i > 2 ==> m[i] != '<')
  }

  predicate IsBody(body: string) {
    body != "" && forall i :: 0 <= i < |body| ==> body[i] != '<' && body[i] != '\\' && body[i] != '\n'
  }

  lemma TheBodies()
    ensures IsBody(BeginBody()) && BeginBody()[0] == 'B'
    ensures IsBody(EndBody()) && EndBody()[0] == 'E'
  {
  }

  lemma TheMarkers()
    ensures IsMarker(BeginMarker()) && IsMarker(EndMarker())
    ensures BeginMarker()[3] != EndMarker()[3]
  {
    hide BeginBody, EndBody, IsBody;
    TheBodies();
    OpeningMakesMarker(BeginBody());
    OpeningMakesMarker(EndBody());
  }

  lemma OpeningMakesMarker(body: string)
    requires IsBody(body)
    ensures IsMarker("<<<" + body) && ("<<<" + body)[3] == body[0]
  {
    var m := "<<<" + body;
    assert forall i :: 2 < i < |m| ==> m[i] == body[i - 3];
  }

  // ---------- one replacement ----------

  /** What opens a replaced text without a backslash already opened the text. */
  lemma {:induction false} PlainPrefixWasThere(p: string, s: string, m: string)
    requires m != "" && '\\' !in p && p <= ReplaceAll(s, m, Escape(m))
    ensures p <= s
  {
    if p != "" {
      var r := ReplaceAll(s, m, Escape(m));
      assert p[0] == r[0] && p[0] in p;
      assert Escape(m)[0] == '\\';
      assert r[1..] == ReplaceAll(s[1..], m, Escape(m));
      PlainPrefixWasThere(p[1..], s[1..], m);
      assert p == [p[0]] + p[1..] && s == [s[0]] + s[1..];
    }
  }

  /** No marker begins inside the replacement of a marker. */
  lemma NoneInsideEscape(m: string, rest: string, n: string, i: nat)
    requires IsMarker(m) && IsMarker(n) && i < |Escape(m)|
    ensures !OccursAt(Escape(m) + rest, n, i)
  {
    var s := Escape(m) + rest;
    if OccursAt(s, n, i) {
      assert s[i] == s[i..i + |n|][0] && s[i + 1] == s[i..i + |n|][1] && s[i + 2] == s[i..i + |n|][2];
      assert forall k :: 0 <= k < 6 ==> s[k] == "\\u003c"[k];
      assert forall k :: 6 <= k < |Escape(m)| ==> s[k] == m[k - 5];
    }
  }

  lemma OccursInTail(a: string, b: string, m: string, i: int)
    requires i >= |a|
    ensures OccursAt(a + b, m, i) <==> OccursAt(b, m, i - |a|)
  {
    if i + |m| <= |a + b| {
      assert (a + b)[i..i + |m|] == b[i - |a|..i - |a| + |m|];
    }
  }

  lemma OccursSuffix(s: string, m: string, k: nat)
    requires k <= |s| && !Occurs(s, m)
    ensures !Occurs(s[k..], m)
  {
    assert s == s[..k] + s[k..];
    forall i | 0 <= i <= |s[k..]|
      ensures !OccursAt(s[k..], m, i)
    {
      OccursInTail(s[..k], s[k..], m, i + k);
    }
  }

  /** Replacing one marker leaves none of it and makes no occurrence of another, not even across the
      ends of a replacement. */
  lemma {:induction false} ReplacementMakesNone(s: string, m: string, n: string)
    requires IsMarker(m) && IsMarker(n)
    requires n == m || !Occurs(s, n)
    ensures !Occurs(ReplaceAll(s, m, Escape(m)), n)
  {
    var r := ReplaceAll(s, m, Escape(m));
    if s == "" {
    } else if m <= s {
      var rest := s[|m|..];
      if n != m {
        OccursSuffix(s, n, |m|);
      }
      ReplacementMakesNone(rest, m, n);
      var t := ReplaceAll(rest, m, Escape(m));
      forall i | 0 <= i <= |r|
        ensures !OccursAt(r, n, i)
      {
        if i < |Escape(m)| {
          NoneInsideEscape(m, t, n, i);
        } else {
          OccursInTail(Escape(m), t, n, i);
        }
      }
    } else {
      if n != m {
        OccursSuffix(s, n, 1);
      }
      ReplacementMakesNone(s[1..], m, n);
      var t := ReplaceAll(s[1..], m, Escape(m));
      forall i | 0 <= i <= |r|
        ensures !OccursAt(r, n, i)
      {
        if i > 0 {
          OccursInTail([s[0]], t, n, i);
        } else {
          NoneAtStart(s, m, n);
        }
      }
    }
  }

  lemma NoneAtStart(s: string, m: string, n: string)
    requires IsMarker(m) && IsMarker(n)
    requires n == m || !Occurs(s, n)
    requires s != "" && !(m <= s)
    ensures !OccursAt(ReplaceAll(s, m, Escape(m)), n, 0)
  {
    var r := ReplaceAll(s, m, Escape(m));
    assert OccursAt(r, n, 0) ==> n <= r;
    assert n <= s ==> OccursAt(s, n, 0);
    if n <= r {
      PlainPrefixWasThere(n, s, m);
    }
  }

  /** A text without the marker is unchanged, and one with it grows. */
  lemma {:induction false} ReplacementChangesIff(s: string, m: string)
    requires IsMarker(m)
    ensures |ReplaceAll(s, m, Escape(m))| >= |s|
    ensures |ReplaceAll(s, m, Escape(m))| == |s| <==> !Occurs(s, m)
    ensures ReplaceAll(s, m, Escape(m)) == s <==> !Occurs(s, m)
  {
    if s == "" {
    } else if m <= s {
      assert OccursAt(s, m, 0);
      ReplacementChangesIff(s[|m|..], m);
    } else {
      ReplacementChangesIff(s[1..], m);
      if Occurs(s, m) {
        var i :| 0 <= i <= |s| && OccursAt(s, m, i);
        assert i > 0;
        assert s == [s[0]] + s[1..];
        OccursInTail([s[0]], s[1..], m, i);
        assert Occurs(s[1..], m);
      } else {
        OccursSuffix(s, m, 1);
      }
    }
  }

  // ---------- the whole ----------

  /** The escaped text holds neither marker. */
  lemma EscapedHoldsNoMarker(value: string)
    ensures !Occurs(Escaped(value), BeginMarker()) && !Occurs(Escaped(value), EndMarker())
  {
    hide BeginMarker, EndMarker, IsMarker, Occurs, ReplaceAll;
    TheMarkers();
    var once := ReplaceAll(value, BeginMarker(), Escape(BeginMarker()));
    ReplacementMakesNone(value, BeginMarker(), BeginMarker());
    ReplacementMakesNone(once, EndMarker(), BeginMarker());
    ReplacementMakesNone(once, EndMarker(), EndMarker());
  }

  /** Only a text that holds a marker is changed at all. */
  lemma EscapedIsUnchangedIff(value: string)
    ensures Escaped(value) == value <==> !Occurs(value, BeginMarker()) && !Occurs(value, EndMarker())
  {
    hide BeginMarker, EndMarker, IsMarker, Occurs, ReplaceAll;
    TheMarkers();
    var once := ReplaceAll(value, BeginMarker(), Escape(BeginMarker()));
    ReplacementChangesIff(value, BeginMarker());
    ReplacementChangesIff(once, EndMarker());
  }

  // ---------- nothing is lost ----------

  /** Reading the escapes of a marker back restores a text that held none to begin with. */
  lemma {:induction false} MarkerIsRestored(s: string, m: string)
    requires IsMarker(m) && !Occurs(s, Escape(m))
    ensures ReplaceAll(ReplaceAll(s, m, Escape(m)), Escape(m), m) == s
  {
    var e := Escape(m);
    var r := ReplaceAll(s, m, e);
    if s == "" {
    } else if m <= s {
      OccursSuffix(s, e, |m|);
      MarkerIsRestored(s[|m|..], m);
      assert r[|e|..] == ReplaceAll(s[|m|..], m, e);
    } else {
      OccursSuffix(s, e, 1);
      MarkerIsRestored(s[1..], m);
      assert r[1..] == ReplaceAll(s[1..], m, e);
      NoEscapeAtStart(s, m, m);
      assert e <= r ==> OccursAt(r, e, 0);
    }
  }

  lemma PrefixByHead(p: string, s: string)
    requires p != "" && s != ""
    ensures OccursAt(s, p, 0) <==> p[0] == s[0] && p[1..] <= s[1..]
  {
    assert p == [p[0]] + p[1..] && s == [s[0]] + s[1..];
  }

  lemma NoEscapeAtStart(s: string, m: string, n: string)
    requires IsMarker(m) && IsMarker(n) && !Occurs(s, Escape(n))
    requires s != "" && !(m <= s)
    ensures !OccursAt(ReplaceAll(s, m, Escape(m)), Escape(n), 0)
  {
    var r, e, t := ReplaceAll(s, m, Escape(m)), Escape(n), ReplaceAll(s[1..], m, Escape(m));
    assert !OccursAt(s, e, 0);
    assert r == [s[0]] + t;
    assert forall k :: 0 < k < |e| ==> e[k] != '\\';
    PrefixByHead(e, [s[0]] + t);
    PrefixByHead(e, s);
    if OccursAt(r, e, 0) {
      PlainPrefixWasThere(e[1..], s[1..], m);
    }
  }

  lemma {:induction false} ReplacementMakesNoEscape(s: string, m: string, n: string)
    requires IsMarker(m) && IsMarker(n) && m[3] != n[3] && !Occurs(s, Escape(n))
    ensures !Occurs(ReplaceAll(s, m, Escape(m)), Escape(n))
  {
    var r, e := ReplaceAll(s, m, Escape(m)), Escape(n);
    if s == "" {
    } else {
      var head, rest := if m <= s then Escape(m) else [s[0]], if m <= s then s[|m|..] else s[1..];
      var t := ReplaceAll(rest, m, Escape(m));
      OccursSuffix(s, e, |s| - |rest|);
      ReplacementMakesNoEscape(rest, m, n);
      forall i | 0 <= i <= |r|
        ensures !OccursAt(r, e, i)
      {
        if i >= |head| {
          OccursInTail(head, t, e, i);
        } else if m <= s {
          NoOtherEscapeInside(m, t, n, i);
        } else {
          NoEscapeAtStart(s, m, n);
        }
      }
    }
  }

  lemma NoOtherEscapeInside(m: string, rest: string, n: string, i: nat)
    requires IsMarker(m) && IsMarker(n) && m[3] != n[3] && i < |Escape(m)|
    ensures !OccursAt(Escape(m) + rest, Escape(n), i)
  {
    var s, e := Escape(m) + rest, Escape(n);
    assert forall k :: 0 < k < |Escape(m)| ==> s[k] == Escape(m)[k] && s[k] != '\\';
    assert s[8] == m[3] && e[8] == n[3];
    assert i + |e| <= |s| ==> s[i..i + |e|][0] == s[i] && s[i..i + |e|][8] == s[i + 8];
  }

  // ---------- and escapes are gone once read back ----------

  /** No `<` of the text is followed by two more, nor stands at its end. */
  predicate NoOpening(p: string) {
    '\\' !in p && forall i :: 0 <= i < |p| && p[i] == '<' ==> Interrupted(p, i)
  }

  predicate Interrupted(p: string, i: nat) {
    (i + 1 < |p| && p[i + 1] != '<') || (i + 2 < |p| && p[i + 2] != '<')
  }

  lemma NoOpeningInEscape(m: string)
    requires IsMarker(m)
    ensures NoOpening(Escape(m)[1..])
  {
    var p := Escape(m)[1..];
    assert forall i :: 0 <= i < 5 ==> p[i] == "u003c"[i];
    assert forall i :: 5 <= i < |p| ==> p[i] == m[i - 4];
  }

  lemma NotIntoMarker(p: string, m: string, t: string)
    requires IsMarker(m) && NoOpening(p) && p != ""
    ensures !(p <= m + t)
  {
    assert p[0] == '<' ==> Interrupted(p, 0);
    var r := m + t;
    assert r[0] == r[1] == r[2] == '<';
  }

  /** What opens a text read back, without an opening of a marker, already opened the text. */
  lemma {:induction false} PrefixWasThere(p: string, s: string, m: string)
    requires IsMarker(m) && NoOpening(p) && p <= ReplaceAll(s, Escape(m), m)
    ensures p <= s
  {
    if p != "" {
      var r := ReplaceAll(s, Escape(m), m);
      NotIntoMarker(p, m, ReplaceAll(s[if Escape(m) <= s then |Escape(m)| else 0..], Escape(m), m));
      assert p[0] == r[0] && p[0] in p;
      assert r[1..] == ReplaceAll(s[1..], Escape(m), m);
      assert forall i :: 0 <= i < |p[1..]| && Interrupted(p, i + 1) ==> Interrupted(p[1..], i);
      PrefixWasThere(p[1..], s[1..], m);
      assert p == [p[0]] + p[1..] && s == [s[0]] + s[1..];
    }
  }

  lemma NoBackslash(m: string, t: string, n: string, i: nat)
    requires IsMarker(m) && IsMarker(n) && i < |m|
    ensures !OccursAt(m + t, Escape(n), i)
  {
    var s, e := m + t, Escape(n);
    assert s[i] == m[i];
    assert i + |e| <= |s| ==> s[i] == s[i..i + |e|][0];
  }

  lemma NoneAtFront(s: string, m: string, n: string)
    requires IsMarker(m) && IsMarker(n) && s != "" && !(Escape(m) <= s) && (n == m || !Occurs(s, Escape(n)))
    ensures !OccursAt(ReplaceAll(s, Escape(m), m), Escape(n), 0)
  {
    var r, e := ReplaceAll(s, Escape(m), m), Escape(n);
    NoOpeningInEscape(n);
    PrefixByHead(e, [s[0]] + ReplaceAll(s[1..], Escape(m), m));
    PrefixByHead(e, s);
    hide IsMarker, NoOpening;
    assert r == [s[0]] + ReplaceAll(s[1..], Escape(m), m) && r[1..] == ReplaceAll(s[1..], Escape(m), m);
    if OccursAt(r, e, 0) {
      PrefixWasThere(e[1..], s[1..], m);
    }
  }

  /** Reading the escapes of one marker back leaves none of them and makes none of another's. */
  lemma {:induction false} ReadingBackLeavesNone(s: string, m: string, n: string)
    requires IsMarker(m) && IsMarker(n)
    requires n == m || !Occurs(s, Escape(n))
    ensures !Occurs(ReplaceAll(s, Escape(m), m), Escape(n))
  {
    var r, e := ReplaceAll(s, Escape(m), m), Escape(n);
    if s != "" {
      var whole := Escape(m) <= s;
      var head, rest := if whole then m else [s[0]], if whole then s[|Escape(m)|..] else s[1..];
      var t := ReplaceAll(rest, Escape(m), m);
      if n != m {
        OccursSuffix(s, e, |s| - |rest|);
      }
      ReadingBackLeavesNone(rest, m, n);
      assert r == head + t;
      forall i | 0 <= i <= |r|
        ensures !OccursAt(r, e, i)
      {
        if i >= |head| {
          OccursInTail(head, t, e, i);
        } else if whole {
          NoBackslash(m, t, n, i);
        } else {
          NoneAtFront(s, m, n);
        }
      }
    }
  }

  // ---------- back from the wrapping ----------

  function Unescaped(text: string): string {
    ReplaceAll(ReplaceAll(text, Escape(EndMarker()), EndMarker()), Escape(BeginMarker()), BeginMarker())
  }

  /** The text without the begin marker and a newline before it and a newline and the end marker after
      it, read back; None if it does not stand between them. */
  function Unwrapped(text: string): Option<string> {
    var front, back := BeginMarker() + "\n", "\n" + EndMarker();
    if |front| + |back| <= |text| && text[..|front|] == front && text[|text| - |back|..] == back then
      Some(Unescaped(text[|front|..|text| - |back|]))
    else None
  }

  lemma UnwrappedIs(front: string, middle: string, back: string)
    ensures var s := front + middle + back;
      s[..|front|] == front && s[|s| - |back|..] == back && s[|front|..|s| - |back|] == middle
  {
  }

  lemma UnwrapsToUnescaped(value: string)
    ensures Unwrapped(Wrapped(value)) == Some(Unescaped(Escaped(value)))
  {
    hide BeginMarker, EndMarker, Escaped, Unescaped;
    var front, back := BeginMarker() + "\n", "\n" + EndMarker();
    UnwrappedIs(front, Escaped(value), back);
    assert Wrapped(value) == front + Escaped(value) + back;
  }

  /** A page's text is read back from its wrapping if and only if it held no escaped marker. */
  lemma TextIsRestoredIff(value: string)
    ensures Unwrapped(Wrapped(value)) == Some(value) <==>
      !Occurs(value, Escape(BeginMarker())) && !Occurs(value, Escape(EndMarker()))
  {
    hide BeginMarker, EndMarker, IsMarker, Occurs, ReplaceAll, Escape, Wrapped, Unwrapped;
    TheMarkers();
    UnwrapsToUnescaped(value);
    var once := ReplaceAll(value, BeginMarker(), Escape(BeginMarker()));
    var half := ReplaceAll(Escaped(value), Escape(EndMarker()), EndMarker());
    ReadingBackLeavesNone(Escaped(value), EndMarker(), EndMarker());
    ReadingBackLeavesNone(half, BeginMarker(), EndMarker());
    ReadingBackLeavesNone(half, BeginMarker(), BeginMarker());
    if !Occurs(value, Escape(BeginMarker())) && !Occurs(value, Escape(EndMarker())) {
      ReplacementMakesNoEscape(value, BeginMarker(), EndMarker());
      MarkerIsRestored(once, EndMarker());
      MarkerIsRestored(value, BeginMarker());
    }
  }

  /** A text stands verbatim between the markers, each on a line of its own, if and only if it holds
      no marker. */
  lemma WrappedVerbatimIff(value: string)
    ensures Wrapped(value) == BeginMarker() + "\n" + value + "\n" + EndMarker() <==>
      !Occurs(value, BeginMarker()) && !Occurs(value, EndMarker())
  {
    hide BeginMarker, EndMarker, Escaped, Occurs;
    EscapedIsUnchangedIff(value);
    var front, back := BeginMarker() + "\n", "\n" + EndMarker();
    UnwrappedIs(front, Escaped(value), back);
    UnwrappedIs(front, value, back);
    assert Wrapped(value) == front + Escaped(value) + back;
    assert BeginMarker() + "\n" + value + "\n" + EndMarker() == front + value + back;
  }

  // ---------- where the markers stand ----------

  /** Between two newlines a marker can only stand whole in one of the three parts. */
  lemma OccursInPart(a: string, b: string, c: string, m: string, i: int)
    requires IsMarker(m)
    ensures OccursAt(a + "\n" + b + "\n" + c, m, i) <==>
      OccursAt(a, m, i) || OccursAt(b, m, i - |a| - 1) || OccursAt(c, m, i - |a| - |b| - 2)
  {
    hide IsMarker;
    var s := a + "\n" + b + "\n" + c;
    assert s[|a|] == '\n' && s[|a| + 1 + |b|] == '\n';
    if OccursAt(a, m, i) {
      assert s[i..i + |m|] == a[i..i + |m|];
    }
    if OccursAt(b, m, i - |a| - 1) {
      assert s[i..i + |m|] == b[i - |a| - 1..i - |a| - 1 + |m|];
    }
    if OccursAt(c, m, i - |a| - |b| - 2) {
      assert s[i..i + |m|] == c[i - |a| - |b| - 2..i - |a| - |b| - 2 + |m|];
    }
    if OccursAt(s, m, i) {
      NoNewline(s, m, i, |a|);
      NoNewline(s, m, i, |a| + 1 + |b|);
      if i + |m| <= |a| {
        assert s[i..i + |m|] == a[i..i + |m|];
      } else if i > |a| + 1 + |b| {
        assert s[i..i + |m|] == c[i - |a| - |b| - 2..i - |a| - |b| - 2 + |m|];
      } else {
        assert s[i..i + |m|] == b[i - |a| - 1..i - |a| - 1 + |m|];
      }
    }
  }

  lemma NoNewline(s: string, m: string, i: int, k: int)
    requires IsMarker(m) && OccursAt(s, m, i) && 0 <= k < |s| && s[k] == '\n'
    ensures !(i <= k < i + |m|)
  {
    assert forall l :: i <= l < i + |m| ==> s[l] == m[l - i];
  }

  /** A marker occurs in a marker only if they are the same, at its start. */
  lemma MarkerInMarker(m: string, n: string, i: int)
    requires IsMarker(m) && IsMarker(n) && (n == m || n[3] != m[3])
    ensures OccursAt(m, n, i) <==> n == m && i == 0
  {
    if OccursAt(m, n, i) {
      var t := m[i..i + |n|];
      assert t[0] == m[i] && t[1] == m[i + 1] && t[2] == m[i + 2] && t[3] == m[i + 3];
    }
  }

  /** In the wrapped text the begin marker occurs exactly once, at the start, and the end marker
      exactly once, at the end, whatever the page put in it. */
  lemma MarkersOnlyAtTheEnds(value: string, i: int)
    ensures OccursAt(Wrapped(value), BeginMarker(), i) <==> i == 0
    ensures OccursAt(Wrapped(value), EndMarker(), i) <==> i == |Wrapped(value)| - |EndMarker()|
  {
    hide BeginMarker, EndMarker, IsMarker, OccursAt, Escaped;
    TheMarkers();
    EscapedHoldsNoMarker(value);
    var a, b, c := BeginMarker(), Escaped(value), EndMarker();
    OccursInPart(a, b, c, a, i);
    OccursInPart(a, b, c, c, i);
    MarkerInMarker(a, a, i);
    MarkerInMarker(a, c, i);
    MarkerInMarker(c, a, i - |a| - |b| - 2);
    MarkerInMarker(c, c, i - |a| - |b| - 2);
    OccursIsBounded(b, a, i - |a| - 1);
    OccursIsBounded(b, c, i - |a| - 1);
  }

  lemma OccursIsBounded(s: string, m: string, i: int)
    ensures OccursAt(s, m, i) ==> Occurs(s, m)
  {
  }
}
