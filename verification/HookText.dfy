/** The cap on hook texts: a byte budget split around a marker, with the UTF-8 (section 4 of RFC 3629)
    that the two cuts damage repaired. */
module HookText {
  type Byte = b: int | 0 <= b < 256

  const QUESTION_MARK: Byte := 0x3F

  // ---------- well-formed UTF-8 ----------

  /** How many bytes a sequence takes that starts with `b`; 0 if none does. */
  function Need(b: Byte): nat {
    if b < 0x80 then 1
    else if 0xC2 <= b <= 0xDF then 2
    else if 0xE0 <= b <= 0xEF then 3
    else if 0xF0 <= b <= 0xF4 then 4
    else 0
  }

  predicate IsTail(b: Byte) {
    0x80 <= b <= 0xBF
  }

  predicate SecondFits(first: Byte, b: Byte) {
    && IsTail(b)
    && (first == 0xE0 ==> b >= 0xA0) && (first == 0xED ==> b <= 0x9F)
    && (first == 0xF0 ==> b >= 0x90) && (first == 0xF4 ==> b <= 0x8F)
  }

  /** The length of the well-formed sequence a text starts with; 0 if it starts with none. */
  function RuneLen(s: seq<Byte>): (n: nat)
    ensures n <= |s| && n <= 4
  {
    if s == [] then 0
    else
      var n := Need(s[0]);
      if n <= |s| && (n > 1 ==> SecondFits(s[0], s[1])) && (forall i :: 2 <= i < n ==> IsTail(s[i])) then n else 0
  }

  predicate Valid(s: seq<Byte>) {
    s == [] || (RuneLen(s) > 0 && Valid(s[RuneLen(s)..]))
  }

  /** `strings.ToValidUTF8`: every run of invalid bytes becomes one question mark. `bad` says that the
      byte before was invalid. */
  function ToValid(s: seq<Byte>, bad: bool): seq<Byte> {
    if s == [] then []
    else
      var n := RuneLen(s);
      if n == 0 then (if bad then [] else [QUESTION_MARK]) + ToValid(s[1..], true)
      else s[..n] + ToValid(s[n..], false)
  }

  /** "\n[... truncated by AO ...]\n" */
  function Marker(): (m: seq<Byte>)
    ensures |m| == 27 && m[0] == 0x0A && forall i :: 0 <= i < |m| ==> m[i] < 0x80
  {
    [ 0x0A, 0x5B, 0x2E, 0x2E, 0x2E, 0x20, 0x74, 0x72, 0x75, 0x6E, 0x63, 0x61, 0x74, 0x65, 0x64, 0x20, 0x62, 0x79,
      0x20, 0x41, 0x4F, 0x20, 0x2E, 0x2E, 0x2E, 0x5D, 0x0A ]
  }

  /** `value` is the text once trimmed and rid of control characters. */
  function Cap(value: seq<Byte>, limit: int): seq<Byte> {
    if limit <= 0 || |value| <= limit then value
    else
      var budget := limit - |Marker()|;
      if budget <= 0 then []
      else
        var head := budget / 2;
        var tail := budget - head;
        ToValid(value[..head] + Marker() + value[|value| - tail..], false)
  }

  // ---------- repair ----------

  lemma {:induction false} RepairIsNoLonger(s: seq<Byte>, bad: bool)
    ensures |ToValid(s, bad)| <= |s|
  {
    if s != [] {
      var n := RuneLen(s);
      RepairIsNoLonger(s[if n == 0 then 1 else n..], n == 0);
    }
  }

  /** The first sequence is found by its own bytes only. */
  lemma RuneLenIsLocal(s: seq<Byte>, x: seq<Byte>)
    requires RuneLen(s) > 0
    ensures RuneLen(s + x) == RuneLen(s)
  {
  }

  lemma RunePasses(s: seq<Byte>, x: seq<Byte>, bad: bool)
    requires RuneLen(s) > 0
    ensures ToValid(s + x, bad) == s[..RuneLen(s)] + ToValid(s[RuneLen(s)..] + x, false)
  {
    var n := RuneLen(s);
    RuneLenIsLocal(s, x);
    hide RuneLen;
    assert (s + x)[..n] == s[..n] && (s + x)[n..] == s[n..] + x;
  }

  /** Well-formed text passes unchanged. */
  lemma {:induction false} ValidPasses(s: seq<Byte>, x: seq<Byte>, bad: bool)
    requires Valid(s)
    ensures ToValid(s + x, bad) == s + ToValid(x, bad && s == [])
  {
    hide RuneLen;
    if s == [] {
      assert s + x == x;
    } else {
      var n := RuneLen(s);
      ValidPasses(s[n..], x, false);
      RunePasses(s, x, bad);
      assert s[..n] + (s[n..] + ToValid(x, false)) == s + ToValid(x, false);
    }
  }

  /** The repaired text is well-formed, and it is the text itself exactly when that was. */
  lemma {:induction false} RepairIsValid(s: seq<Byte>, bad: bool)
    ensures Valid(ToValid(s, bad))
    ensures !bad ==> (ToValid(s, bad) == s <==> Valid(s))
  {
    hide RuneLen;
    if s != [] {
      var n := RuneLen(s);
      if n == 0 {
        RepairIsValid(s[1..], true);
        QuestionMarkIsValid();
        ValidJoins([QUESTION_MARK], ToValid(s[1..], true));
        QuestionMarkIsARune(s);
        assert [] + ToValid(s[1..], true) == ToValid(s[1..], true);
      } else {
        RepairIsValid(s[n..], false);
        RuneIsValid(s);
        ValidJoins(s[..n], ToValid(s[n..], false));
        SamePrefix(s[..n], ToValid(s[n..], false), s[n..]);
        assert s == s[..n] + s[n..];
      }
    }
  }

  lemma SamePrefix(a: seq<Byte>, b: seq<Byte>, c: seq<Byte>)
    ensures a + b == a + c <==> b == c
  {
    assert (a + b)[|a|..] == b && (a + c)[|a|..] == c;
  }

  lemma QuestionMarkIsValid()
    ensures Valid([QUESTION_MARK])
  {
    assert RuneLen([QUESTION_MARK]) == 1;
  }

  lemma QuestionMarkIsARune(s: seq<Byte>)
    requires s != [] && RuneLen(s) == 0
    ensures s[0] != QUESTION_MARK
  {
  }

  lemma RuneIsValid(s: seq<Byte>)
    requires RuneLen(s) > 0
    ensures Valid(s[..RuneLen(s)])
  {
    var r := s[..RuneLen(s)];
    assert RuneLen(r) == RuneLen(s) && r[RuneLen(r)..] == [];
  }

  lemma {:induction false} ValidJoins(s: seq<Byte>, t: seq<Byte>)
    requires Valid(s)
    ensures Valid(s + t) <==> Valid(t)
  {
    if s == [] {
      assert s + t == t;
    } else {
      RuneLenIsLocal(s, t);
      hide RuneLen;
      ValidJoins(s[RuneLen(s)..], t);
      assert (s + t)[RuneLen(s)..] == s[RuneLen(s)..] + t;
    }
  }

  lemma BadByte(s: seq<Byte>)
    requires s != [] && IsTail(s[0])
    ensures RuneLen(s) == 0 && !Valid(s)
  {
  }

  /** Left-over tail bytes make one question mark. */
  lemma {:induction false} TailsMerge(s: seq<Byte>, x: seq<Byte>, bad: bool)
    requires forall i :: 0 <= i < |s| ==> IsTail(s[i])
    ensures ToValid(s + x, bad) == (if s == [] || bad then [] else [QUESTION_MARK]) + ToValid(x, bad || s != [])
  {
    if s == [] {
      assert s + x == x;
    } else {
      TailsMerge(s[1..], x, true);
      BadByte(s + x);
      hide RuneLen, IsTail;
      assert (s + x)[1..] == s[1..] + x;
    }
  }

  // ---------- the two cuts ----------

  /** A well-formed text cut at `head` and followed by an ASCII byte keeps its whole sequences; what
      the cut left of one more becomes a question mark. */
  lemma {:induction false} HeadCut(v: seq<Byte>, head: nat, x: seq<Byte>) returns (p: nat)
    requires Valid(v) && head <= |v| && x != [] && x[0] < 0x80
    ensures p <= head < p + 4 && Valid(v[..p]) && forall k :: p < k <= head ==> !Valid(v[..k])
    ensures ToValid(v[..head] + x, false) == v[..p] + (if p < head then [QUESTION_MARK] else []) + ToValid(x, false)
    decreases |v|
  {
    hide RuneLen, ToValid;
    var n := RuneLen(v);
    if head == 0 {
      p := 0;
      assert v[..head] + x == x;
    } else if head < n {
      p := 0;
      BrokenHead(v, head, x);
    } else {
      var rest := v[n..];
      var r := HeadCut(rest, head - n, x);
      p := n + r;
      HeadStep(v, head, x, r);
    }
  }

  /** A sequence cut short and not continued is not a sequence. */
  lemma CutRune(v: seq<Byte>, k: nat, y: seq<Byte>)
    requires 0 < k < RuneLen(v) && (y == [] || y[0] < 0x80)
    ensures RuneLen(v[..k] + y) == 0 && !Valid(v[..k] + y)
  {
    var s := v[..k] + y;
    assert s[0] == v[0] && |s| == k + |y| && (y != [] ==> s[k] == y[0]);
  }

  lemma BrokenHead(v: seq<Byte>, head: nat, x: seq<Byte>)
    requires 0 < head < RuneLen(v) && x != [] && x[0] < 0x80
    ensures ToValid(v[..head] + x, false) == [QUESTION_MARK] + ToValid(x, false)
    ensures forall k :: 0 < k <= head ==> !Valid(v[..k])
  {
    TailBytes(v);
    hide RuneLen, IsTail;
    CutRune(v, head, x);
    assert (v[..head] + x)[1..] == v[1..head] + x;
    TailsMerge(v[1..head], x, true);
    AsciiForgets(x);
    forall k | 0 < k <= head
      ensures !Valid(v[..k])
    {
      CutRune(v, k, []);
      assert v[..k] + [] == v[..k];
    }
  }

  lemma AsciiForgets(x: seq<Byte>)
    requires x != [] && x[0] < 0x80
    ensures ToValid(x, true) == ToValid(x, false)
  {
    assert RuneLen(x) == 1;
  }

  lemma HeadStep(v: seq<Byte>, head: nat, x: seq<Byte>, r: nat)
    requires Valid(v) && v != [] && RuneLen(v) + r <= head <= |v|
    ensures var n := RuneLen(v); var rest := v[n..];
      && v[..n] + rest[..r] == v[..n + r]
      && (forall k :: n <= k <= head ==> (Valid(v[..k]) <==> Valid(rest[..k - n])))
      && (forall k :: 0 < k < n ==> !Valid(v[..k]))
      && ToValid(v[..head] + x, false) == v[..n] + ToValid(rest[..head - n] + x, false)
  {
    hide RuneLen, ToValid, Valid;
    var n := RuneLen(v);
    var rest := v[n..];
    assert n > 0 by {
      NonemptyHasRune(v);
    }
    RuneIsValid(v);
    TakeSplits(v, n, n + r);
    forall k | n <= k <= head
      ensures Valid(v[..k]) <==> Valid(rest[..k - n])
    {
      TakeSplits(v, n, k);
      ValidJoins(v[..n], rest[..k - n]);
    }
    forall k | 0 < k < n
      ensures !Valid(v[..k])
    {
      CutRune(v, k, []);
      assert v[..k] + [] == v[..k];
    }
    TakeSplits(v, n, head);
    assert v[..n] + rest[..head - n] + x == v[..n] + (rest[..head - n] + x);
    ValidPasses(v[..n], rest[..head - n] + x, false);
  }

  lemma NonemptyHasRune(v: seq<Byte>)
    requires Valid(v) && v != []
    ensures RuneLen(v) > 0
  {
  }

  lemma TakeSplits(v: seq<Byte>, n: nat, k: nat)
    requires n <= k <= |v|
    ensures v[..k] == v[..n] + v[n..][..k - n]
  {
  }

  lemma TailBytes(v: seq<Byte>)
    ensures forall k :: 0 < k < RuneLen(v) ==> IsTail(v[k])
  {
  }

  /** What follows a cut at `cut` keeps its whole sequences, after a question mark for the rest of a
      cut one. */
  lemma {:induction false} TailCut(v: seq<Byte>, cut: nat) returns (t: nat)
    requires Valid(v) && cut <= |v|
    ensures cut <= t <= |v| && t < cut + 4 && Valid(v[t..]) && forall k :: cut <= k < t ==> !Valid(v[k..])
    ensures ToValid(v[cut..], false) == (if cut < t then [QUESTION_MARK] else []) + v[t..]
    decreases |v|
  {
    hide RuneLen, ToValid;
    var n := RuneLen(v);
    if cut == 0 {
      t := 0;
      RepairIsValid(v, false);
      assert v[cut..] == v;
    } else if cut < n {
      t := n;
      BrokenTail(v, cut);
    } else {
      var r := TailCut(v[n..], cut - n);
      t := n + r;
      TailStep(v, n);
      assert v[n..][r..] == v[t..];
    }
  }

  lemma TailStep(v: seq<Byte>, n: nat)
    requires n <= |v|
    ensures forall k :: n <= k <= |v| ==> v[k..] == v[n..][k - n..]
  {
  }

  lemma BrokenTail(v: seq<Byte>, cut: nat)
    requires Valid(v) && 0 < cut < RuneLen(v)
    ensures ToValid(v[cut..], false) == [QUESTION_MARK] + v[RuneLen(v)..]
    ensures forall k :: cut <= k < RuneLen(v) ==> !Valid(v[k..])
  {
    var n := RuneLen(v);
    TailBytes(v);
    hide RuneLen, IsTail;
    forall k | cut <= k < n
      ensures !Valid(v[k..])
    {
      BadByte(v[k..]);
    }
    TailsMerge(v[cut..n], v[n..], false);
    ValidPasses(v[n..], [], true);
    assert v[cut..] == v[cut..n] + v[n..];
    assert v[n..] + [] == v[n..];
  }

  // ---------- the cap ----------

  lemma RepairIsEmptyIff(s: seq<Byte>)
    ensures ToValid(s, false) == [] <==> s == []
  {
  }

  /** For every positive limit the result has at most that many bytes, and nothing is left of a text
      exactly when it is too long and the limit leaves no room beside the marker. */
  lemma CapIsWithinLimit(value: seq<Byte>, limit: int)
    requires limit > 0
    ensures |Cap(value, limit)| <= limit
    ensures Cap(value, limit) == [] <==> value == [] || (limit < |value| && limit <= |Marker()|)
  {
    hide Marker, ToValid;
    var budget := limit - |Marker()|;
    if |value| > limit && budget > 0 {
      var cut := value[..budget / 2] + Marker() + value[|value| - (budget - budget / 2)..];
      RepairIsNoLonger(cut, false);
      RepairIsEmptyIff(cut);
    }
  }

  /** A well-formed text that is truncated becomes a start of it, the marker and an end of it, each cut
      back to whole sequences, with one question mark at a cut exactly when it split a sequence. */
  lemma CapKeepsBothEnds(value: seq<Byte>, limit: int) returns (p: nat, t: nat)
    requires Valid(value) && |Marker()| < limit < |value|
    ensures var head := (limit - |Marker()|) / 2; var cut := |value| - (limit - |Marker()| - head);
      && p <= head < p + 4 && Valid(value[..p]) && (forall k :: p < k <= head ==> !Valid(value[..k]))
      && cut <= t < cut + 4 && t <= |value| && Valid(value[t..]) && (forall k :: cut <= k < t ==> !Valid(value[k..]))
      && Cap(value, limit) ==
         value[..p] + (if p < head then [QUESTION_MARK] else [])
         + Marker()
         + (if cut < t then [QUESTION_MARK] else []) + value[t..]
  {
    hide Marker, ToValid, Valid;
    var head := (limit - |Marker()|) / 2;
    var cut := |value| - (limit - |Marker()| - head);
    var after := Marker() + value[cut..];
    assert value[..head] + Marker() + value[cut..] == value[..head] + after;
    assert after[0] == Marker()[0];
    p := HeadCut(value, head, after);
    t := TailCut(value, cut);
    AsciiIsValid(Marker());
    ValidPasses(Marker(), value[cut..], false);
  }

  lemma {:induction false} AsciiIsValid(s: seq<Byte>)
    requires forall i :: 0 <= i < |s| ==> s[i] < 0x80
    ensures Valid(s)
  {
    if s != [] {
      AsciiIsValid(s[1..]);
    }
  }

  lemma CapIsRepaired(value: seq<Byte>, limit: int)
    requires Valid(value)
    ensures Valid(Cap(value, limit))
  {
    hide Marker, RuneLen, ToValid;
    var budget := limit - |Marker()|;
    if 0 < limit < |value| && budget > 0 {
      RepairIsValid(value[..budget / 2] + Marker() + value[|value| - (budget - budget / 2)..], false);
    }
  }

  /** So capping keeps text well-formed, and changes it exactly when it is over a positive limit. */
  lemma CapIsValid(value: seq<Byte>, limit: int)
    requires Valid(value)
    ensures Valid(Cap(value, limit))
    ensures Cap(value, limit) == value <==> limit <= 0 || |value| <= limit
  {
    hide Valid, ToValid, Marker;
    CapIsRepaired(value, limit);
    if limit > 0 {
      CapIsWithinLimit(value, limit);
    }
  }
}
