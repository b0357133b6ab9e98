/** The parts of Go's `strings`, `sort` and `strconv` packages the other modules need. */
module Strings {
  // ---------- byte order and sort.Strings ----------

  /** Lexicographic order; for strings of Unicode scalars it agrees with Go's order on UTF-8 bytes. */
  predicate Leq(a: string, b: string) {
    a == "" || (b != "" && (a[0] < b[0] || (a[0] == b[0] && Leq(a[1..], b[1..]))))
  }

  /** The texts differ first at `k`, by a character or by the end of `a`. */
  predicate DiffersAt(a: string, b: string, k: nat) {
    k <= |a| && k < |b| && a[..k] == b[..k] && (k < |a| ==> a[k] < b[k])
  }

  lemma {:induction false} LeqIs(a: string, b: string)
    ensures Leq(a, b) <==> a == b || exists k :: 0 <= k < |b| && DiffersAt(a, b, k)
    decreases |a|
  {
    if a == "" {
      assert b != "" ==> DiffersAt(a, b, 0);
    } else if b != "" {
      assert a == [a[0]] + a[1..] && b == [b[0]] + b[1..];
      assert DiffersAt(a, b, 0) <==> a[0] < b[0];
      LeqIs(a[1..], b[1..]);
      forall k | 0 < k < |b|
        ensures DiffersAt(a, b, k) <==> a[0] == b[0] && DiffersAt(a[1..], b[1..], k - 1)
      {
        if k <= |a| {
          assert a[..k] == [a[0]] + a[1..][..k - 1] && b[..k] == [b[0]] + b[1..][..k - 1];
        }
      }
      assert forall k :: 0 <= k < |b[1..]| && DiffersAt(a[1..], b[1..], k) && a[0] == b[0] ==> DiffersAt(a, b, k + 1);
    }
  }

  lemma {:induction false} LeqTotal(a: string, b: string)
    ensures Leq(a, b) || Leq(b, a)
    ensures Leq(a, b) && Leq(b, a) ==> a == b
    decreases |a|
  {
    if a != "" && b != "" && a[0] == b[0] {
      LeqTotal(a[1..], b[1..]);
      assert a == [a[0]] + a[1..] && b == [b[0]] + b[1..];
    }
  }

  lemma {:induction false} LeqTransitive(a: string, b: string, c: string)
    requires Leq(a, b) && Leq(b, c)
    ensures Leq(a, c)
    decreases |a|
  {
    if a != "" && a[0] == b[0] == c[0] {
      LeqTransitive(a[1..], b[1..], c[1..]);
    }
  }

  ghost predicate IsLeast(m: string, s: set<string>) {
    m in s && forall x :: x in s ==> Leq(m, x)
  }

  lemma {:induction false} LeastExists(s: set<string>)
    requires s != {}
    ensures exists m :: IsLeast(m, s)
    decreases s
  {
    var x :| x in s;
    LeqTotal(x, x);
    if s == {x} {
      assert IsLeast(x, s);
    } else {
      LeastExists(s - {x});
      var m :| IsLeast(m, s - {x});
      LeqTotal(x, m);
      if Leq(m, x) {
        assert IsLeast(m, s);
      } else {
        forall y | y in s
          ensures Leq(x, y)
        {
          if y != x {
            LeqTransitive(x, m, y);
          }
        }
        assert IsLeast(x, s);
      }
    }
  }

  ghost predicate IsGreatest(m: string, s: set<string>) {
    m in s && forall x :: x in s ==> Leq(x, m)
  }

  lemma {:induction false} GreatestExists(s: set<string>)
    requires s != {}
    ensures exists m :: IsGreatest(m, s)
    decreases s
  {
    hide Leq;
    var x :| x in s;
    LeqTotal(x, x);
    if s == {x} {
      assert IsGreatest(x, s);
    } else {
      GreatestExists(s - {x});
      var m :| IsGreatest(m, s - {x});
      LeqTotal(x, m);
      if Leq(x, m) {
        assert IsGreatest(m, s);
      } else {
        forall y | y in s
          ensures Leq(y, x)
        {
          if y != x {
            LeqTransitive(y, m, x);
          }
        }
        assert IsGreatest(x, s);
      }
    }
  }

  /** The elements of a set in sorted order: collecting a map's keys and sorting them. */
  ghost function Sorted(s: set<string>): (r: seq<string>)
    ensures forall x :: x in r <==> x in s
    decreases s
  {
    if s == {} then []
    else
      LeastExists(s);
      var m :| IsLeast(m, s);
      [m] + Sorted(s - {m})
  }

  /** The first of the sorted keys. */
  method Least(s: set<string>) returns (m: string)
    requires s != {}
    ensures IsLeast(m, s)
  {
    m :| m in s;
    LeqTotal(m, m);
    var rest := s - {m};
    while rest != {}
      invariant rest <= s && IsLeast(m, s - rest)
      decreases rest
    {
      var x :| x in rest;
      LeqTotal(x, m);
      LeqTotal(x, x);
      ghost var seen := s - rest;
      if !Leq(m, x) {
        forall y | y in seen
          ensures Leq(x, y)
        {
          LeqTransitive(x, m, y);
        }
        m := x;
      }
      rest := rest - {x};
      assert s - rest == seen + {x};
    }
    assert s - rest == s;
  }

  lemma SortedStep(s: set<string>) returns (m: string)
    requires s != {}
    ensures IsLeast(m, s) && Sorted(s) == [m] + Sorted(s - {m})
  {
    LeastExists(s);
    m :| IsLeast(m, s) && Sorted(s) == [m] + Sorted(s - {m});
  }

  lemma SortedEmpty()
    ensures Sorted({}) == []
  {
  }

  ghost predicate InOrder(r: seq<string>) {
    forall i, j :: 0 <= i < j < |r| ==> Leq(r[i], r[j]) && r[i] != r[j]
  }

  lemma {:induction false} SortedInOrder(s: set<string>)
    ensures InOrder(Sorted(s)) && |Sorted(s)| == |s|
    decreases s
  {
    hide Sorted, Leq;
    if s != {} {
      var m := SortedStep(s);
      SortedInOrder(s - {m});
      var r := Sorted(s - {m});
      assert forall j :: 0 <= j < |r| ==> r[j] in s - {m};
      assert InOrder([m] + r);
    } else {
      SortedEmpty();
    }
  }

  /** Collecting the keys of a map and `sort.Strings`. */
  method SortKeys(s: set<string>) returns (r: seq<string>)
    ensures r == Sorted(s)
  {
    hide Leq, Sorted, IsLeast;
    r := [];
    var rest := s;
    while rest != {}
      invariant r + Sorted(rest) == Sorted(s)
      decreases rest
    {
      var m := Least(rest);
      LeastIsFirst(m, rest);
      assert r + ([m] + Sorted(rest - {m})) == r + [m] + Sorted(rest - {m});
      r := r + [m];
      rest := rest - {m};
    }
    SortedEmpty();
    assert r + [] == r;
  }

  lemma LeastIsFirst(m: string, s: set<string>)
    requires IsLeast(m, s)
    ensures Sorted(s) == [m] + Sorted(s - {m})
  {
    var x := SortedStep(s);
    LeqTotal(m, x);
  }

  // ---------- strings.TrimSpace ----------

  predicate IsSpace(c: char) {
    var n := c as int;
    || 0x09 <= n <= 0x0D || n == 0x20 || n == 0x85 || n == 0xA0
    || n == 0x1680 || 0x2000 <= n <= 0x200A || n == 0x2028 || n == 0x2029 || n == 0x202F || n == 0x205F || n == 0x3000
  }

  function TrimLeft(s: string): string {
    if s != "" && IsSpace(s[0]) then TrimLeft(s[1..]) else s
  }

  function TrimRight(s: string): string {
    if s != "" && IsSpace(s[|s| - 1]) then TrimRight(s[..|s| - 1]) else s
  }

  function Trim(s: string): string {
    TrimRight(TrimLeft(s))
  }

  predicate AllSpace(s: string) {
    forall c :: c in s ==> IsSpace(c)
  }

  lemma {:induction false} TrimLeftIs(s: string)
    ensures var r := TrimLeft(s); var n := |s| - |r|;
      n >= 0 && r == s[n..] && AllSpace(s[..n]) && (r != "" ==> !IsSpace(r[0]))
  {
    hide IsSpace;
    if s != "" {
      TrimLeftIs(s[1..]);
      var n := |s| - |TrimLeft(s)|;
      assert n > 0 && n - 1 <= |s[1..]| ==> s[..n] == [s[0]] + s[1..][..n - 1];
    }
  }

  lemma {:induction false} TrimRightIs(s: string)
    ensures var r := TrimRight(s);
      |r| <= |s| && r == s[..|r|] && AllSpace(s[|r|..]) && (r != "" ==> !IsSpace(r[|r| - 1]))
  {
    hide IsSpace;
    if s != "" {
      var n := |s| - 1;
      TrimRightIs(s[..n]);
      var r := TrimRight(s);
      assert |r| <= n ==> s[|r|..] == s[..n][|r|..] + [s[n]];
    }
  }

  /** The text from `i` to `j` neither begins nor ends with space, and around it is nothing else. */
  predicate IsTrimmed(s: string, i: nat, j: nat) {
    && i <= j <= |s| && AllSpace(s[..i]) && AllSpace(s[j..])
    && (i < j ==> !IsSpace(s[i]) && !IsSpace(s[j - 1]))
  }

  /** Trimming takes off exactly the space at both ends. */
  lemma TrimIs(s: string) returns (i: nat, j: nat)
    ensures IsTrimmed(s, i, j) && Trim(s) == s[i..j]
  {
    hide IsSpace, TrimLeft, TrimRight;
    TrimLeftIs(s);
    var t := TrimLeft(s);
    TrimRightIs(t);
    i := |s| - |t|;
    j := i + |TrimRight(t)|;
    assert s[j..] == t[|TrimRight(t)|..];
  }

  lemma TrimIsEmptyIff(s: string)
    ensures Trim(s) == "" <==> AllSpace(s)
  {
    hide IsSpace, Trim;
    var i, j := TrimIs(s);
    assert i == j ==> s == s[..i] + s[j..];
    assert i < |s| ==> s[i] in s;
  }

  lemma TrimIdempotent(s: string)
    ensures Trim(Trim(s)) == Trim(s)
  {
    var t := Trim(s);
    TrimLeftIs(s);
    TrimRightIs(TrimLeft(s));
    if t != "" {
      assert t[0] == TrimLeft(s)[0];
    }
  }

  // ---------- strconv.Itoa ----------

  function Digit(d: nat): char
    requires d < 10
  {
    '0' + d as char
  }

  function Digits(n: nat): string {
    if n < 10 then [Digit(n)] else Digits(n / 10) + [Digit(n % 10)]
  }

  function Itoa(n: int): string {
    if n < 0 then "-" + Digits(-n) else Digits(n)
  }

  lemma {:induction false} DigitsAreDigits(n: nat)
    ensures Digits(n) != "" && forall c :: c in Digits(n) ==> '0' <= c <= '9'
  {
    if n >= 10 {
      DigitsAreDigits(n / 10);
    }
  }

  /** The number a text of digits stands for. */
  function Value(s: string): int {
    if s == "" then 0 else 10 * Value(s[..|s| - 1]) + (s[|s| - 1] as int - '0' as int)
  }

  /** The digits are those of the number, without a leading zero. */
  lemma {:induction false} DigitsSpell(n: nat)
    ensures forall c :: c in Digits(n) ==> '0' <= c <= '9'
    ensures Value(Digits(n)) == n && Digits(n) != "" && (Digits(n)[0] == '0' ==> n == 0)
  {
    DigitsAreDigits(n);
    if n >= 10 {
      DigitsSpell(n / 10);
      var s := Digits(n);
      assert s[..|s| - 1] == Digits(n / 10) && s[|s| - 1] == Digit(n % 10);
    } else {
      assert [Digit(n)][..0] == "";
    }
  }

  lemma {:induction false} DigitsInjective(m: nat, n: nat)
    requires Digits(m) == Digits(n)
    ensures m == n
  {
    DigitsAreDigits(m / 10);
    DigitsAreDigits(n / 10);
    var s, t := Digits(m), Digits(n);
    assert s[|s| - 1] == Digit(m % 10) && t[|t| - 1] == Digit(n % 10);
    if m >= 10 && n >= 10 {
      assert s[..|s| - 1] == Digits(m / 10) && t[..|t| - 1] == Digits(n / 10);
      DigitsInjective(m / 10, n / 10);
    }
  }

  lemma ItoaSign(n: int)
    ensures Itoa(n) != "" && (Itoa(n)[0] == '-' <==> n < 0)
    ensures forall c :: c in Itoa(n) ==> c == '-' || '0' <= c <= '9'
  {
    DigitsAreDigits(if n < 0 then -n else n);
    assert Digits(if n < 0 then -n else n)[0] in Digits(if n < 0 then -n else n);
  }

  lemma ItoaInjective(m: int, n: int)
    requires Itoa(m) == Itoa(n)
    ensures m == n
  {
    ItoaSign(m);
    ItoaSign(n);
    if m < 0 && n < 0 {
      assert Itoa(m)[1..] == Digits(-m) && Itoa(n)[1..] == Digits(-n);
      DigitsInjective(-m, -n);
    } else if m >= 0 && n >= 0 {
      DigitsInjective(m, n);
    }
  }
}
