/** The string operations the components use: String.prototype.trim (as a
    truthiness gate), localeCompare on the strings being sorted, and
    parseInt on the contents of a numeric input. */
module Text {

  /** The whitespace trim() removes (ASCII blanks, NBSP, the byte order
      mark and the two Unicode line terminators). */
  const Whitespace: set<char> :=
    {' ', '\t', '\n', '\r', '\U{B}', '\U{C}', '\U{A0}', '\U{FEFF}', '\U{2028}', '\U{2029}'}

  predicate IsSpace(c: char) {
    c in Whitespace
  }

  /** A string made of whitespace only (the empty string included). */
  predicate Blank(s: string) {
    forall i :: 0 <= i < |s| ==> IsSpace(s[i])
  }

  /** The longest suffix of s that does not start with whitespace. */
  function TrimStart(s: string): (r: string)
    ensures |r| <= |s|
    ensures r == [] || !IsSpace(r[0])
    decreases |s|
  {
    if s != [] && IsSpace(s[0]) then TrimStart(s[1..]) else s
  }

  /** TrimStart removes a whitespace-only prefix and keeps the rest. */
  lemma {:induction false} TrimStartSplits(s: string)
    ensures TrimStart(s) == s[|s| - |TrimStart(s)|..]
    ensures Blank(s[..|s| - |TrimStart(s)|])
    decreases |s|
  {
    if s != [] && IsSpace(s[0]) {
      var r := TrimStart(s[1..]);
      TrimStartSplits(s[1..]);
      assert s[|s| - |r|..] == s[1..][|s| - 1 - |r|..];
      assert s[..|s| - |r|] == [s[0]] + s[1..][..|s| - 1 - |r|];
    }
  }

  /** The longest prefix of s that does not end with whitespace. */
  function TrimEnd(s: string): (r: string)
    ensures |r| <= |s|
    ensures r == [] || !IsSpace(r[|r| - 1])
    decreases |s|
  {
    if s != [] && IsSpace(s[|s| - 1]) then TrimEnd(s[..|s| - 1]) else s
  }

  /** TrimEnd removes a whitespace-only suffix and keeps the rest. */
  lemma {:induction false} TrimEndSplits(s: string)
    ensures TrimEnd(s) == s[..|TrimEnd(s)|]
    ensures Blank(s[|TrimEnd(s)|..])
    decreases |s|
  {
    if s != [] && IsSpace(s[|s| - 1]) {
      var r := TrimEnd(s[..|s| - 1]);
      TrimEndSplits(s[..|s| - 1]);
      assert s[..|r|] == s[..|s| - 1][..|r|];
      assert s[|r|..] == s[..|s| - 1][|r|..] + [s[|s| - 1]];
    }
  }

  /** s.trim(). */
  function Trim(s: string): (r: string)
    ensures |r| <= |s|
    ensures r == [] || (!IsSpace(r[0]) && !IsSpace(r[|r| - 1]))
  {
    TrimEndSplits(TrimStart(s));
    TrimEnd(TrimStart(s))
  }

  /** `s.trim()` is truthy exactly when s holds a non-whitespace character;
      the gates that test it therefore reject blank input and nothing else. */
  lemma TrimEmptyIffBlank(s: string)
    ensures Trim(s) == [] <==> Blank(s)
  {
    var u := TrimStart(s);
    var k := |s| - |u|;
    TrimStartSplits(s);
    TrimEndSplits(u);
    if Trim(s) == [] {
      assert Blank(u[|TrimEnd(u)|..]);
      assert u == [];
      forall i | 0 <= i < |s|
        ensures IsSpace(s[i])
      {
        assert s[..k][i] == s[i];
      }
    } else {
      var r := Trim(s);
      assert u == s[k..];
      assert r == u[..|r|];
      assert r[0] == s[k];
    }
  }

  /** Code-unit lexicographic order, which localeCompare agrees with on
      the digit, colon and dash strings sorted here (times "HH:MM" and date
      keys "YYYY-MM-DD"). */
  predicate Leq(a: string, b: string)
    decreases |a|
  {
    a == [] || (b != [] && (a[0] < b[0] || (a[0] == b[0] && Leq(a[1..], b[1..]))))
  }

  lemma {:induction false} LeqRefl(a: string)
    ensures Leq(a, a)
    decreases |a|
  {
    if a != [] {
      LeqRefl(a[1..]);
    }
  }

  lemma {:induction false} LeqTotal(a: string, b: string)
    ensures Leq(a, b) || Leq(b, a)
    decreases |a|
  {
    if a != [] && b != [] && a[0] == b[0] {
      LeqTotal(a[1..], b[1..]);
    }
  }

  lemma {:induction false} LeqTrans(a: string, b: string, c: string)
    requires Leq(a, b) && Leq(b, c)
    ensures Leq(a, c)
    decreases |a|
  {
    if a != [] && a[0] == b[0] && b[0] == c[0] {
      LeqTrans(a[1..], b[1..], c[1..]);
    }
  }

  lemma {:induction false} LeqAntisym(a: string, b: string)
    requires Leq(a, b) && Leq(b, a)
    ensures a == b
    decreases |a|
  {
    if a != [] {
      LeqAntisym(a[1..], b[1..]);
    }
  }

  predicate IsDigit(c: char) {
    '0' <= c <= '9'
  }

  /** The length of the run of decimal digits that s starts with. */
  function DigitRun(s: string): (n: nat)
    ensures n <= |s|
    ensures forall i :: 0 <= i < n ==> IsDigit(s[i])
    ensures n == |s| || !IsDigit(s[n])
    decreases |s|
  {
    if s != [] && IsDigit(s[0]) then 1 + DigitRun(s[1..]) else 0
  }

  /** The value of a string of decimal digits, most significant first. */
  function DigitsValue(s: string): nat
    requires forall i :: 0 <= i < |s| ==> IsDigit(s[i])
    decreases |s|
  {
    if s == [] then 0 else 10 * DigitsValue(s[..|s| - 1]) + DigitValue(s[|s| - 1])
  }

  function DigitValue(c: char): (d: nat)
    requires IsDigit(c)
    ensures d < 10
  {
    c as int - '0' as int
  }

  /** parseInt(s, 10) on the leading digit run of s, with an optional sign
      in front; a string with no digit there reads as 0. */
  function ParseInt(s: string): int {
    if s != [] && (s[0] == '-' || s[0] == '+') then
      var m: int := DigitsValue(s[1..][..DigitRun(s[1..])]);
      if s[0] == '-' then -m else m
    else
      DigitsValue(s[..DigitRun(s)])
  }

  /** The decimal rendering of a number, as a numeric input holds it. */
  function Decimal(n: nat): (s: string)
    ensures s != [] && forall i :: 0 <= i < |s| ==> IsDigit(s[i])
    decreases n
  {
    if n < 10 then [('0' as int + n) as char]
    else Decimal(n / 10) + [('0' as int + n % 10) as char]
  }

  /** The digits of n read back as n. */
  lemma {:induction false} DigitsValueOfDecimal(n: nat)
    ensures DigitsValue(Decimal(n)) == n
    decreases n
  {
    var s := Decimal(n);
    if n >= 10 {
      DigitsValueOfDecimal(n / 10);
      assert s[..|s| - 1] == Decimal(n / 10);
    }
  }

  lemma DigitRunOfDigits(s: string)
    requires forall i :: 0 <= i < |s| ==> IsDigit(s[i])
    ensures DigitRun(s) == |s|
  {
  }

  /** parseInt reads back every integer written in decimal, with a minus
      sign for a negative one. */
  lemma ParseIntOfDecimal(n: int)
    ensures n >= 0 ==> ParseInt(Decimal(n)) == n
    ensures n < 0 ==> ParseInt("-" + Decimal(-n)) == n
  {
    var s := if n >= 0 then Decimal(n) else Decimal(-n);
    DigitRunOfDigits(s);
    DigitsValueOfDecimal(if n >= 0 then n else -n);
    assert s[..|s|] == s;
    if n < 0 {
      assert ("-" + s)[1..] == s;
    } else {
      assert IsDigit(s[0]);
    }
  }
}
