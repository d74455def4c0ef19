/** Decimal text for integers, as the two languages involved handle it:
    C's `atoi` (MPI_solution/main2.cpp reads --size, --seed and argv[1] with
    it) and Python's `str` of an int (the drivers build those arguments with
    it). Integers are unbounded here; `atoi`'s behaviour on values outside
    `int` (undefined in C) is not modelled. */
module Numerals {

  /** isspace in the C locale. */
  predicate IsCSpace(c: char)
  {
    c == ' ' || c == '\t' || c == '\n' || c == '\U{000B}' || c == '\U{000C}' || c == '\r'
  }

  predicate IsDigit(c: char)
  {
    '0' <= c <= '9'
  }

  predicate AllDigits(s: string)
  {
    forall i :: 0 <= i < |s| ==> IsDigit(s[i])
  }

  function DigitValue(c: char): (d: nat)
    requires IsDigit(c)
    ensures d < 10
  {
    c as int - '0' as int
  }

  function DigitChar(d: nat): (c: char)
    requires d < 10
    ensures IsDigit(c) && DigitValue(c) == d
  {
    ('0' as int + d) as char
  }

  /** `s` without its leading C whitespace. */
  function SkipSpaces(s: string): (t: string)
    ensures |t| <= |s| && t == s[|s| - |t|..]
    ensures |t| > 0 ==> !IsCSpace(t[0])
  {
    if |s| > 0 && IsCSpace(s[0]) then SkipSpaces(s[1..]) else s
  }

  /** The longest prefix of `s` made of decimal digits. */
  function DigitPrefix(s: string): (d: string)
    ensures |d| <= |s| && d == s[..|d|] && AllDigits(d)
    ensures |d| < |s| ==> !IsDigit(s[|d|])
  {
    if |s| > 0 && IsDigit(s[0]) then [s[0]] + DigitPrefix(s[1..]) else []
  }

  /** The number a string of decimal digits denotes. */
  function DigitsValue(d: string): nat
    requires AllDigits(d)
  {
    if |d| == 0 then 0 else DigitsValue(d[..|d| - 1]) * 10 + DigitValue(d[|d| - 1])
  }

  /** atoi: skip leading whitespace, read an optional sign and then as many
      digits as follow; no digits at all gives 0. */
  function Atoi(s: string): int
  {
    var t := SkipSpaces(s);
    var magnitude := DigitsValue(DigitPrefix(Unsigned(t)));
    if |t| > 0 && t[0] == '-' then 0 - magnitude else magnitude
  }

  /** t without its sign character, if it starts with one. */
  function Unsigned(t: string): string
  {
    if |t| > 0 && (t[0] == '-' || t[0] == '+') then t[1..] else t
  }

  /** The decimal digits of k, without leading zeros. */
  function Digits(k: nat): (d: string)
    ensures |d| >= 1 && AllDigits(d)
    ensures d[0] == '0' ==> k == 0
  {
    if k < 10 then [DigitChar(k)] else Digits(k / 10) + [DigitChar(k % 10)]
  }

  /** Python's str(k) for an int k. */
  function PyStr(k: int): string
  {
    if k < 0 then "-" + Digits(-k) else Digits(k)
  }

  /** A run of digits is its own digit prefix. */
  lemma {:induction false} DigitPrefixOfDigits(s: string)
    requires AllDigits(s)
    ensures DigitPrefix(s) == s
  {
    if |s| > 0 {
      DigitPrefixOfDigits(s[1..]);
    }
  }

  /** Reading back the digits of k gives k. */
  lemma {:induction false} DigitsValueOfDigits(k: nat)
    ensures DigitsValue(Digits(k)) == k
  {
    if k >= 10 {
      var d := Digits(k);
      assert d[..|d| - 1] == Digits(k / 10);
      DigitsValueOfDigits(k / 10);
    }
  }

  /** atoi of a non-empty run of digits is its value. */
  lemma AtoiOfDigits(d: string)
    requires |d| > 0 && AllDigits(d)
    ensures Atoi(d) == DigitsValue(d)
  {
    NothingToSkip(d);
    assert Unsigned(d) == d;
    DigitPrefixOfDigits(d);
  }

  /** SkipSpaces leaves a string that starts with a non-space alone. */
  lemma NothingToSkip(s: string)
    requires |s| > 0 && !IsCSpace(s[0])
    ensures SkipSpaces(s) == s
  {
  }

  /** atoi of a minus sign followed by digits is the negated value. */
  lemma AtoiOfNegatedDigits(d: string)
    requires AllDigits(d)
    ensures Atoi("-" + d) == 0 - DigitsValue(d)
  {
    var s := "-" + d;
    assert s[0] == '-' && s[1..] == d;
    assert SkipSpaces(s) == s;
    DigitPrefixOfDigits(d);
  }

  /** atoi reads back what Python's str wrote: a size or seed handed over
      as str(k) arrives in the C program as k. */
  lemma AtoiOfPyStr(k: int)
    ensures Atoi(PyStr(k)) == k
  {
    if k < 0 {
      AtoiOfNegatedDigits(Digits(-k));
      DigitsValueOfDigits(-k);
    } else {
      AtoiOfDigits(Digits(k));
      DigitsValueOfDigits(k);
    }
  }

  /** A token that starts with neither whitespace, a sign nor a digit reads
      as 0. */
  lemma AtoiWithoutDigits(s: string)
    requires |s| > 0 && !IsCSpace(s[0]) && !IsDigit(s[0]) && s[0] != '+' && s[0] != '-'
    ensures Atoi(s) == 0
  {
  }
}
