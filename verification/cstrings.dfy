/**
 * The few C library string routines the renamer leans on: case folding in the
 * C locale, the case-insensitive comparisons behind EQUAL and EQUALN
 * (strcasecmp and strncasecmp), atoi, and small sequence helpers.
 * Strings are sequences of characters that, like C strings, hold no NUL.
 */
module CStrings {

  /** tolower() in the C locale: only 'A'..'Z' change. */
  function ToLower(c: char): char {
    if 'A' <= c <= 'Z' then (c as int + 32) as char else c
  }

  /** The string with every character passed through ToLower. */
  function Lower(s: string): (r: string)
    ensures |r| == |s|
    ensures forall i :: 0 <= i < |s| ==> r[i] == ToLower(s[i])
  {
    seq(|s|, i requires 0 <= i < |s| => ToLower(s[i]))
  }

  /** Folding a string that has no upper-case letter leaves it as it is. */
  lemma LowerOfLowerCase(s: string)
    requires forall i :: 0 <= i < |s| ==> !('A' <= s[i] <= 'Z')
    ensures Lower(s) == s
  {
  }

  /** EQUAL(a, b): strcasecmp(a, b) == 0. */
  predicate Equal(a: string, b: string) {
    Lower(a) == Lower(b)
  }

  /** The character at position i of a C string, NUL past its end. */
  function CharAt(s: string, i: nat): char {
    if i < |s| then s[i] else '\0'
  }

  /** EQUALN(a, b, n): strncasecmp(a, b, n) == 0, comparing at most n characters. */
  predicate EqualN(a: string, b: string, n: nat) {
    forall i :: 0 <= i < n ==> ToLower(CharAt(a, i)) == ToLower(CharAt(b, i))
  }

  /** Comparing against the empty string is the emptiness test. */
  lemma EqualEmpty(s: string)
    ensures Equal(s, "") <==> s == []
  {
    assert Lower("") == [];
  }

  predicate IsDigit(c: char) {
    '0' <= c <= '9'
  }

  predicate IsDigits(s: string) {
    forall i :: 0 <= i < |s| ==> IsDigit(s[i])
  }

  /** isspace() in the C locale: blank, tab, newline, vertical tab, form feed, carriage return. */
  predicate IsSpace(c: char) {
    c == ' ' || '\t' <= c <= '\r'
  }

  function SkipSpaces(s: string): string {
    if |s| > 0 && IsSpace(s[0]) then SkipSpaces(s[1..]) else s
  }

  /** Folds the leading run of decimal digits of s onto acc, stopping at the first non-digit. */
  function DigitsValue(s: string, acc: int): int {
    if |s| > 0 && IsDigit(s[0]) then DigitsValue(s[1..], acc * 10 + (s[0] as int - '0' as int)) else acc
  }

  /**
   * atoi(): optional white space, an optional sign, then the longest run of
   * decimal digits; 0 when there are none.
   */
  function Atoi(s: string): int {
    var t := SkipSpaces(s);
    if |t| > 0 && t[0] == '-' then -DigitsValue(t[1..], 0)
    else if |t| > 0 && t[0] == '+' then DigitsValue(t[1..], 0)
    else DigitsValue(t, 0)
  }

  function DigitChar(d: nat): char
    requires d < 10
  {
    ('0' as int + d) as char
  }

  /** The shortest decimal spelling of n. */
  function Decimal(n: nat): (s: string)
    ensures |s| >= 1 && IsDigits(s)
  {
    if n < 10 then [DigitChar(n)] else Decimal(n / 10) + [DigitChar(n % 10)]
  }

  /** Reading a run of digits and then the rest is reading the rest from the run's value. */
  lemma {:induction false} DigitsValueAppend(a: string, b: string, acc: int)
    requires IsDigits(a)
    ensures DigitsValue(a + b, acc) == DigitsValue(b, DigitsValue(a, acc))
  {
    if a != [] {
      assert (a + b)[0] == a[0];
      assert (a + b)[1..] == a[1..] + b;
      DigitsValueAppend(a[1..], b, acc * 10 + (a[0] as int - '0' as int));
    } else {
      assert a + b == b;
    }
  }

  lemma {:induction false} DecimalValue(n: nat)
    ensures DigitsValue(Decimal(n), 0) == n
  {
    if n >= 10 {
      DecimalValue(n / 10);
      DigitsValueAppend(Decimal(n / 10), [DigitChar(n % 10)], 0);
      assert DigitsValue([DigitChar(n % 10)], n / 10) == DigitsValue([], (n / 10) * 10 + n % 10);
    }
  }

  /**
   * atoi reads a non-empty run of digits, leading zeros included, as its
   * value, and stops at the first character that is not a digit.
   */
  lemma AtoiDigits(d: string, rest: string)
    requires |d| >= 1 && IsDigits(d)
    requires rest == [] || !IsDigit(rest[0])
    ensures Atoi(d + rest) == DigitsValue(d, 0)
  {
    var s := d + rest;
    assert s[0] == d[0];
    assert SkipSpaces(s) == s;
    DigitsValueAppend(d, rest, 0);
    assert DigitsValue(rest, DigitsValue(d, 0)) == DigitsValue(d, 0);
  }

  /** atoi reads back what Decimal writes; "04" reads as 4 as well. */
  lemma AtoiDecimal(n: nat, rest: string)
    requires rest == [] || !IsDigit(rest[0])
    ensures Atoi(Decimal(n) + rest) == n
    ensures Atoi("0" + Decimal(n) + rest) == n
  {
    AtoiDigits(Decimal(n), rest);
    DecimalValue(n);
    assert IsDigits("0" + Decimal(n));
    AtoiDigits("0" + Decimal(n), rest);
    DigitsValueAppend("0", Decimal(n), 0);
    assert DigitsValue("0", 0) == 0;
  }

  /** Number of occurrences of c in s. */
  function Count(s: string, c: char): nat {
    if s == [] then 0 else (if s[0] == c then 1 else 0) + Count(s[1..], c)
  }

  lemma {:induction false} CountAppend(a: string, b: string, c: char)
    ensures Count(a + b, c) == Count(a, c) + Count(b, c)
  {
    if a == [] {
      assert a + b == b;
    } else {
      assert (a + b)[1..] == a[1..] + b;
      CountAppend(a[1..], b, c);
    }
  }

  /** Position of the first c in s, or |s| when there is none. */
  function IndexOf(s: string, c: char): (k: nat)
    ensures k <= |s|
    ensures forall i :: 0 <= i < k ==> s[i] != c
    ensures k < |s| ==> s[k] == c
  {
    if s == [] then 0 else if s[0] == c then 0 else 1 + IndexOf(s[1..], c)
  }
}
