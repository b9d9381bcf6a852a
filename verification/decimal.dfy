/**
 * Decimal text of integers as the C library writes and reads it: `%d` in a
 * printf format, and `%d%c` in an sscanf format whose result must be 1 (an
 * integer and nothing after it).
 */
module Decimal {
  import opened Opt

  predicate IsDigit(c: char) {
    '0' <= c <= '9'
  }

  /** The characters `isspace` accepts in the C locale. */
  predicate IsSpace(c: char) {
    c == ' ' || c == '\t' || c == '\n' || c == '\U{000B}' || c == '\U{000C}' || c == '\r'
  }

  function DigitChar(d: nat): (c: char)
    requires d < 10
    ensures IsDigit(c) && DigitValue(c) == d
  {
    ('0' as int + d) as char
  }

  function DigitValue(c: char): nat
    requires IsDigit(c)
  {
    c as int - '0' as int
  }

  predicate AllDigits(s: string) {
    forall i :: 0 <= i < |s| ==> IsDigit(s[i])
  }

  /** Decimal digits of `n`, most significant first, without leading zeros. */
  function NatToString(n: nat): (s: string)
    ensures |s| >= 1 && AllDigits(s)
    ensures s[0] == '0' ==> n == 0 && |s| == 1
  {
    if n < 10 then [DigitChar(n)] else NatToString(n / 10) + [DigitChar(n % 10)]
  }

  /** `%d`: a minus sign for a negative number, then the digits of its magnitude. */
  function IntToString(n: int): (s: string)
    ensures |s| >= 1
    ensures n < 0 <==> s[0] == '-'
    ensures n >= 0 ==> AllDigits(s)
  {
    if n < 0 then "-" + NatToString(-n) else NatToString(n)
  }

  /** The number a run of digits spells, most significant first. */
  function DigitsValue(s: string): nat
    requires AllDigits(s)
  {
    if s == [] then 0 else DigitsValue(s[..|s| - 1]) * 10 + DigitValue(s[|s| - 1])
  }

  // ---------------------------------------------------------------------
  // Reading: sscanf(given, "%d%c", ...) == 1
  // ---------------------------------------------------------------------

  /** The first position at or after `i` that is not white space. */
  function SkipSpace(s: string, i: nat): (j: nat)
    requires i <= |s|
    ensures i <= j <= |s|
    ensures j < |s| ==> !IsSpace(s[j])
    decreases |s| - i
  {
    if i < |s| && IsSpace(s[i]) then SkipSpace(s, i + 1) else i
  }

  /** The end of the run of digits starting at `i`. */
  function DigitRun(s: string, i: nat): (j: nat)
    requires i <= |s|
    ensures i <= j <= |s|
    ensures j < |s| ==> !IsDigit(s[j])
    ensures AllDigits(s[i..j])
    decreases |s| - i
  {
    if i < |s| && IsDigit(s[i]) then DigitRun(s, i + 1) else i
  }

  /**
   * The integer `%d` reads (white space, an optional sign, at least one
   * digit), when `%c` then finds nothing left to read; None when the
   * conversion fails or any character follows the digits.
   */
  function ParseInt(s: string): (r: Option<int>)
    ensures r.Some? ==> |s| >= 1 && IsDigit(s[|s| - 1])
    ensures r.Some? && r.value < 0 ==> '-' in s
  {
    var i := SkipSpace(s, 0);
    var neg := i < |s| && s[i] == '-';
    var j := if i < |s| && (s[i] == '-' || s[i] == '+') then i + 1 else i;
    var k := DigitRun(s, j);
    if k == j || k < |s| then None
    else
      var v: int := DigitsValue(s[j..k]);
      Some(if neg then -v else v)
  }

  // ---------------------------------------------------------------------
  // Writing then reading gives the number back
  // ---------------------------------------------------------------------

  lemma {:induction false} NatToStringValue(n: nat)
    ensures DigitsValue(NatToString(n)) == n
  {
    var s := NatToString(n);
    if n >= 10 {
      NatToStringValue(n / 10);
      assert s[..|s| - 1] == NatToString(n / 10);
    }
  }

  lemma {:induction false} DigitRunToEnd(s: string, i: nat)
    requires i <= |s| && forall k :: i <= k < |s| ==> IsDigit(s[k])
    ensures DigitRun(s, i) == |s|
    decreases |s| - i
  {
    if i < |s| {
      DigitRunToEnd(s, i + 1);
    }
  }

  /** `sscanf("%d%c")` accepts exactly the text `%d` writes, and reads back the same number. */
  lemma FormatThenParse(n: int)
    ensures ParseInt(IntToString(n)) == Some(n)
  {
    if n < 0 {
      FormatThenParseNegative(n);
    } else {
      var s := NatToString(n);
      NatToStringValue(n);
      assert SkipSpace(s, 0) == 0;
      DigitRunToEnd(s, 0);
      assert s[0..|s|] == s;
    }
  }

  lemma FormatThenParseNegative(n: int)
    requires n < 0
    ensures ParseInt(IntToString(n)) == Some(n)
  {
    var m := NatToString(-n);
    var s := "-" + m;
    assert IntToString(n) == s;
    NatToStringValue(-n);
    assert SkipSpace(s, 0) == 0 by {
      assert s[0] == '-';
    }
    assert DigitRun(s, 1) == |s| by {
      forall k | 1 <= k < |s| ensures IsDigit(s[k]) {
        assert s[k] == m[k - 1];
      }
      DigitRunToEnd(s, 1);
    }
    assert s[1..|s|] == m;
    var v: int := DigitsValue(m);
    assert ParseInt(s) == Some(-v);
  }

  /** Any character after the digits makes `%c` match, so the answer is rejected. */
  lemma TrailingCharacterRejected(s: string, c: char)
    requires ParseInt(s).Some? && !IsDigit(c)
    ensures ParseInt(s + [c]) == None
  {
    var t := s + [c];
    SkipSpacePrefix(s, [c], 0);
    var i := SkipSpace(s, 0);
    var j := if i < |s| && (s[i] == '-' || s[i] == '+') then i + 1 else i;
    DigitRunPrefix(s, [c], j);
    assert t[|s|] == c;
  }

  /** Text appended after a string that does not end in white space leaves the skip alone. */
  lemma {:induction false} SkipSpacePrefix(s: string, t: string, i: nat)
    requires i <= |s| && SkipSpace(s, i) < |s|
    ensures SkipSpace(s + t, i) == SkipSpace(s, i)
    decreases |s| - i
  {
    assert (s + t)[i] == s[i];
    if IsSpace(s[i]) {
      SkipSpacePrefix(s, t, i + 1);
    }
  }

  lemma {:induction false} DigitRunPrefix(s: string, t: string, i: nat)
    requires i <= |s| && DigitRun(s, i) == |s|
    ensures DigitRun(s + t, i) == DigitRun(s + t, |s|)
    decreases |s| - i
  {
    if i < |s| {
      assert (s + t)[i] == s[i];
      DigitRunPrefix(s, t, i + 1);
    }
  }
}
