/** Decimal rendering and zero padding of integers, as JavaScript's
    `Number.prototype.toString()` and `String.prototype.padStart` produce them
    for the integral values the rate-limit bucket key is built from, plus the
    facts needed to show that such renderings can be read back. */
module Text {
  import opened Wrappers

  type String = seq<char>

  predicate IsDigit(c: char) {
    '0' <= c <= '9'
  }

  predicate AllDigits(s: String) {
    forall i :: 0 <= i < |s| ==> IsDigit(s[i])
  }

  function DigitChar(d: nat): (c: char)
    requires d < 10
    ensures IsDigit(c)
    ensures DigitValue(c) == d
  {
    ('0' as int + d) as char
  }

  function DigitValue(c: char): (d: nat)
    requires IsDigit(c)
    ensures d < 10
  {
    c as int - '0' as int
  }

  /** The number a string of decimal digits denotes (most significant digit first). */
  function DecimalValue(s: String): nat
    requires AllDigits(s)
  {
    if |s| == 0 then 0
    else DecimalValue(s[..|s| - 1]) * 10 + DigitValue(s[|s| - 1])
  }

  /** Shortest decimal rendering of a natural number, without leading zeros. */
  function NatToString(n: nat): (s: String)
    ensures 1 <= |s|
    ensures AllDigits(s)
    ensures n < 10 <==> |s| == 1
    ensures n >= 10 ==> s[0] != '0'
  {
    if n < 10 then [DigitChar(n)]
    else NatToString(n / 10) + [DigitChar(n % 10)]
  }

  /** Decimal rendering of an integer: a leading '-' for negative values. */
  function IntToString(i: int): (s: String)
    ensures 1 <= |s|
    ensures i < 0 <==> s[0] == '-'
    ensures forall k :: 0 <= k < |s| ==> IsDigit(s[k]) || s[k] == '-'
  {
    if i < 0 then "-" + NatToString(-i) else NatToString(i)
  }

  /** `s.padStart(width, fill)`: prefixes copies of `fill` until `width` is reached. */
  function PadStart(s: String, width: nat, fill: char): (r: String)
    ensures |r| == if |s| >= width then |s| else width
    ensures r[|r| - |s|..] == s
    ensures forall k :: 0 <= k < |r| - |s| ==> r[k] == fill
  {
    if |s| >= width then s else seq(width - |s|, _ => fill) + s
  }

  /** Two-digit rendering of a number below 100, the form month, day and hour
      take in the bucket key (see `TwoDigitsIsPadded`). */
  function TwoDigits(n: nat): (s: String)
    requires n < 100
    ensures |s| == 2 && IsDigit(s[0]) && IsDigit(s[1])
    ensures TwoDigitValue(s) == n
  {
    [DigitChar(n / 10), DigitChar(n % 10)]
  }

  /** `n.toString().padStart(2, '0')` is exactly the two-digit rendering. */
  lemma TwoDigitsIsPadded(n: nat)
    requires n < 100
    ensures PadStart(NatToString(n), 2, '0') == TwoDigits(n)
  {
    if n < 10 {
      assert PadStart(NatToString(n), 2, '0') == ['0'] + [DigitChar(n)];
    } else {
      assert NatToString(n / 10) == [DigitChar(n / 10)];
    }
  }

  /** The number a two-digit string denotes. */
  function TwoDigitValue(s: String): nat
    requires |s| == 2 && IsDigit(s[0]) && IsDigit(s[1])
  {
    DigitValue(s[0]) * 10 + DigitValue(s[1])
  }

  /** Reads two decimal digits back into a number. */
  function ParseTwoDigits(a: char, b: char): Option<int> {
    if IsDigit(a) && IsDigit(b) then Some(DigitValue(a) * 10 + DigitValue(b)) else None
  }

  /** Reads an optionally '-'-signed decimal back into an integer. */
  function ParseInt(s: String): Option<int> {
    if |s| > 0 && AllDigits(s) then Some(DecimalValue(s))
    else if |s| > 1 && s[0] == '-' && AllDigits(s[1..]) then Some(0 - DecimalValue(s[1..]))
    else None
  }

  /** Reading back an integer's rendering yields the integer; distinct
      integers therefore render differently. */
  lemma ParseIntRoundTrip(i: int)
    ensures ParseInt(IntToString(i)) == Some(i)
  {
    var s := IntToString(i);
    if i < 0 {
      var digits := NatToString(-i);
      assert s == "-" + digits;
      assert s[1..] == digits;
      assert !IsDigit(s[0]);
      NatToStringRoundTrip(-i);
      assert DecimalValue(s[1..]) == -i;
    } else {
      assert s == NatToString(i);
      NatToStringRoundTrip(i);
    }
  }

  /** Reading back the decimal rendering yields the number rendered. */
  lemma {:induction false} NatToStringRoundTrip(n: nat)
    ensures DecimalValue(NatToString(n)) == n
  {
    if n >= 10 {
      var s := NatToString(n);
      assert s[..|s| - 1] == NatToString(n / 10);
      NatToStringRoundTrip(n / 10);
    }
  }

  /** `c` occurs nowhere in `s`. */
  predicate Lacks(s: String, c: char) {
    forall i :: 0 <= i < |s| ==> s[i] != c
  }

  lemma LacksConcat(a: String, b: String, c: char)
    requires Lacks(a, c) && Lacks(b, c)
    ensures Lacks(a + b, c)
  {
  }

  /** Splitting at the last occurrence of a separator is unambiguous: if the part
      after the separator never contains it, both parts are determined. */
  lemma SplitAtLastSeparator(a: String, b: String, x: String, y: String, sep: char)
    requires a + [sep] + b == x + [sep] + y
    requires Lacks(b, sep) && Lacks(y, sep)
    ensures a == x && b == y
  {
    var s := a + [sep] + b;
    assert forall i :: |a| < i < |s| ==> s[i] == b[i - |a| - 1];
    assert forall i :: |x| < i < |s| ==> s[i] == y[i - |x| - 1];
    assert s[|a|] == sep && s[|x|] == sep;
    assert |a| == |x|;
    assert a == s[..|a|];
    assert x == s[..|x|];
    assert b == s[|a| + 1..];
  }
}
