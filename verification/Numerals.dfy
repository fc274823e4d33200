// Positional numerals: what `format(n, 'x')` and `str(n)` print and what
// Python's `int(text, base)` reads.
module Numerals {
  import opened Wrappers
  import opened Text

  // The bases the scripts use.
  type Base = b: int | b == 10 || b == 16 witness 10

  function DigitOf(c: char): Option<nat>
  {
    if '0' <= c <= '9' then Some(c as int - '0' as int)
    else if 'a' <= c <= 'f' then Some(c as int - 'a' as int + 10)
    else if 'A' <= c <= 'F' then Some(c as int - 'A' as int + 10)
    else None
  }

  predicate IsDigit(c: char, b: Base)
  {
    match DigitOf(c)
    case Some(d) => d < b
    case None => false
  }

  // The end of the run of digits that starts at `from`.
  function DigitsEnd(t: string, from: nat): (end: nat)
    requires from <= |t|
    ensures from <= end <= |t|
    ensures forall k :: from <= k < end ==> IsDigit(t[k], 10)
    ensures end < |t| ==> !IsDigit(t[end], 10)
    decreases |t| - from
  {
    if from < |t| && IsDigit(t[from], 10) then DigitsEnd(t, from + 1) else from
  }

  predicate AllDigits(s: string, b: Base)
  {
    forall k :: 0 <= k < |s| ==> IsDigit(s[k], b)
  }

  // The number a run of digits denotes, most significant digit first.
  function Value(s: string, b: Base): nat
    requires AllDigits(s, b)
  {
    if s == "" then 0
    else
      assert IsDigit(s[|s| - 1], b);
      Value(s[..|s| - 1], b) * b + DigitOf(s[|s| - 1]).value
  }

  function DigitChar(d: nat): (c: char)
    requires d < 16
    ensures DigitOf(c) == Some(d)
    ensures d < 10 ==> '0' <= c <= '9'
  {
    if d < 10 then ('0' as int + d) as char else ('a' as int + d - 10) as char
  }

  // The numeral of n, without leading zeros, letters in lower case.
  function Digits(n: nat, b: Base): (s: string)
    ensures s != "" && AllDigits(s, b)
    ensures Value(s, b) == n
    ensures |s| > 1 ==> s[0] != '0'
  {
    if n < b then
      assert [DigitChar(n)][..0] == "";
      [DigitChar(n)]
    else
      var high := Digits(n / b, b);
      var s := high + [DigitChar(n % b)];
      assert s[..|s| - 1] == high;
      assert forall k :: 0 <= k < |s| ==> IsDigit(s[k], b);
      assert |high| == 1 ==> high[..0] == "" && Value(high[..0], b) == 0;
      s
  }

  // Two numbers with the same numeral are the same number.
  lemma DigitsInjective(m: nat, n: nat, b: Base)
    requires Digits(m, b) == Digits(n, b)
    ensures m == n
  {
    assert Value(Digits(m, b), b) == m;
  }

  // ---------------------------------------------------------------- int(text, base)

  // Text without the leading and trailing characters that count as space.
  function Trim(s: string, space: char -> bool): (r: string)
    ensures |r| <= |s|
    decreases |s|
  {
    if s == "" then s
    else if space(s[0]) then Trim(s[1..], space)
    else if space(s[|s| - 1]) then Trim(s[..|s| - 1], space)
    else s
  }

  // Digits, possibly with single underscores between them, without the underscores.
  function Ungrouped(s: string, b: Base): (r: Option<string>)
    ensures r.Some? ==> AllDigits(r.value, b)
  {
    if s == "" || !IsDigit(s[0], b) then None
    else if |s| == 1 then Some(s)
    else
      match Ungrouped(if s[1] == '_' then s[2..] else s[1..], b)
      case None => None
      case Some(rest) => Some([s[0]] + rest)
  }

  function Unprefixed(s: string, b: Base): string
  {
    if b == 16 && |s| >= 2 && s[0] == '0' && (s[1] == 'x' || s[1] == 'X') then
      if |s| > 2 && s[2] == '_' then s[3..] else s[2..]
    else s
  }

  // What int(text, base) reads, and where it raises.
  function ReadInt(text: string, b: Base, space: char -> bool): Option<int>
  {
    var s := Trim(text, space);
    var signed := s != "" && (s[0] == '-' || s[0] == '+');
    match Ungrouped(Unprefixed(if signed then s[1..] else s, b), b)
    case None => None
    case Some(digits) => Some(if signed && s[0] == '-' then 0 - Value(digits, b) else Value(digits, b))
  }

  // What int() skips around a str and around a bytes argument.
  function TextSpace(): char -> bool { c => IsSpace(c) }

  predicate IsByteSpace(c: char) { 9 <= c as int <= 13 || c == ' ' }

  function ByteSpace(): char -> bool { c => IsByteSpace(c) }

  predicate DigitsAreNoSpace(space: char -> bool)
  {
    forall c: char :: DigitOf(c).Some? ==> !space(c)
  }

  lemma SpacesAreNoDigits()
    ensures DigitsAreNoSpace(TextSpace()) && DigitsAreNoSpace(ByteSpace())
  {
  }

  lemma {:induction false} UngroupedDigits(s: string, b: Base)
    requires s != "" && AllDigits(s, b)
    ensures Ungrouped(s, b) == Some(s)
  {
    if |s| > 1 {
      assert IsDigit(s[1], b);
      UngroupedDigits(s[1..], b);
      assert s == [s[0]] + s[1..];
    }
  }

  lemma {:induction false} ReadIntRun(s: string, b: Base, space: char -> bool)
    requires DigitsAreNoSpace(space) && s != "" && AllDigits(s, b)
    ensures Trim(s, space) == s && ReadInt(s, b, space) == Some(Value(s, b))
  {
    assert IsDigit(s[0], b) && IsDigit(s[|s| - 1], b);
    assert |s| > 1 ==> IsDigit(s[1], b);
    assert Unprefixed(s, b) == s;
    UngroupedDigits(s, b);
  }

  // A printed number is read as that number.
  lemma {:induction false} ReadIntDigits(n: nat, b: Base, space: char -> bool)
    requires DigitsAreNoSpace(space)
    ensures ReadInt(Digits(n, b), b, space) == Some(n)
  {
    ReadIntRun(Digits(n, b), b, space);
  }
}
