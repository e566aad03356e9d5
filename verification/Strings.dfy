/** Decimal numbers and text split at a separator. */
module Strings {
  function Digit(d: nat): char
    requires d < 10
  {
    ['0', '1', '2', '3', '4', '5', '6', '7', '8', '9'][d]
  }

  predicate IsDigit(c: char) {
    '0' <= c <= '9'
  }

  function DigitValue(c: char): nat
    requires IsDigit(c)
  {
    c as int - '0' as int
  }

  /** `std::to_string` of a natural number. */
  function Decimal(n: nat): (s: string)
    ensures s != [] && forall i :: 0 <= i < |s| ==> IsDigit(s[i])
  {
    if n < 10 then [Digit(n)] else Decimal(n / 10) + [Digit(n % 10)]
  }

  lemma DigitInjective(a: nat, b: nat)
    requires a < 10 && b < 10 && Digit(a) == Digit(b)
    ensures a == b
  {
    assert DigitValue(Digit(a)) == a && DigitValue(Digit(b)) == b;
  }

  lemma {:induction false} DecimalInjective(m: nat, n: nat)
    requires Decimal(m) == Decimal(n)
    ensures m == n
  {
    var s, t := Decimal(m), Decimal(n);
    assert s[|s| - 1] == Digit(m % 10) && t[|t| - 1] == Digit(n % 10);
    DigitInjective(m % 10, n % 10);
    if m >= 10 && n >= 10 {
      assert s[..|s| - 1] == Decimal(m / 10) && t[..|t| - 1] == Decimal(n / 10);
      DecimalInjective(m / 10, n / 10);
    }
  }

  /** Position of the last occurrence, or -1. */
  function LastIndex(s: string, c: char): int {
    if s == [] then -1
    else if s[|s| - 1] == c then |s| - 1
    else LastIndex(s[..|s| - 1], c)
  }

  lemma {:induction false} LastIndexOfSplit(a: string, x: string, sep: char)
    requires sep !in x
    ensures LastIndex(a + [sep] + x, sep) == |a|
  {
    var s := a + [sep] + x;
    if x == [] {
      assert s[|s| - 1] == sep;
    } else {
      assert x[|x| - 1] in x;
      LastIndexOfSplit(a, x[..|x| - 1], sep);
      assert s[..|s| - 1] == a + [sep] + x[..|x| - 1];
    }
  }

  /** Text is split in only one way at its last separator. */
  lemma LastSeparator(a: string, x: string, b: string, y: string, sep: char)
    requires a + [sep] + x == b + [sep] + y
    requires sep !in x && sep !in y
    ensures a == b && x == y
  {
    var s, t := a + [sep] + x, b + [sep] + y;
    LastIndexOfSplit(a, x, sep);
    LastIndexOfSplit(b, y, sep);
    assert a == s[..|a|] && b == t[..|b|];
    assert x == s[|a| + 1..] && y == t[|b| + 1..];
  }

  /** Position of the first occurrence, or the length. */
  function Find(s: string, c: char): (i: nat)
    ensures i <= |s|
    ensures forall j :: 0 <= j < i ==> s[j] != c
    ensures i < |s| ==> s[i] == c
  {
    if s == [] || s[0] == c then 0 else 1 + Find(s[1..], c)
  }

  lemma {:induction false} FindSplit(before: string, c: char, after: string)
    requires c !in before
    ensures Find(before + [c] + after, c) == |before|
  {
    if before != [] {
      assert before[0] in before;
      FindSplit(before[1..], c, after);
      assert (before + [c] + after)[1..] == before[1..] + [c] + after;
    }
  }
}
