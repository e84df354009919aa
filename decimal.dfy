/** Decimal text of integers as JavaScript produces and reads it:
    `String(n)` for an integer-valued number, `parseInt(s, 10)`, and the
    integer prefix of a JSON number. */
module Decimal {
  import opened Common

  predicate IsDigit(c: char) {
    '0' <= c <= '9'
  }

  predicate AllDigits(s: string) {
    forall i :: 0 <= i < |s| ==> IsDigit(s[i])
  }

  function DigitValue(c: char): (d: nat)
    requires IsDigit(c)
    ensures d < 10
  {
    (c as int) - ('0' as int)
  }

  function DigitChar(d: nat): (c: char)
    requires d < 10
    ensures IsDigit(c) && DigitValue(c) == d
  {
    (('0' as int) + d) as char
  }

  /** Digits of `n`, most significant first, without leading zeros. */
  function NatDigits(n: nat): (s: string)
    ensures |s| > 0 && AllDigits(s)
    decreases n
  {
    if n < 10 then [DigitChar(n)] else NatDigits(n / 10) + [DigitChar(n % 10)]
  }

  /** The value of a string of decimal digits (0 for the empty string). */
  function DigitsValue(s: string): nat
    requires AllDigits(s)
  {
    if s == [] then 0 else DigitsValue(s[..|s| - 1]) * 10 + DigitValue(s[|s| - 1])
  }

  /** `String(n)` for an integer `n`. */
  function DecimalString(n: int): (s: string)
    ensures |s| > 0 && s[0] != '+'
    ensures !IsJsWhitespace(s[0])
  {
    if n < 0 then "-" + NatDigits(-n) else NatDigits(n)
  }

  /** The number of leading decimal digits of `s`. */
  function DigitPrefixLength(s: string): (k: nat)
    ensures k <= |s| && AllDigits(s[..k])
    ensures k < |s| ==> !IsDigit(s[k])
  {
    if |s| == 0 || !IsDigit(s[0]) then 0
    else
      var k' := DigitPrefixLength(s[1..]);
      assert s[..k' + 1] == [s[0]] + s[1..][..k'];
      k' + 1
  }

  /** White space and line terminators that `parseInt` skips before the number
      (ECMAScript's StrWhiteSpaceChar). */
  predicate IsJsWhitespace(c: char) {
    var n := c as int;
    n == 0x09 || n == 0x0A || n == 0x0B || n == 0x0C || n == 0x0D || n == 0x20
    || n == 0xA0 || n == 0x1680 || (0x2000 <= n <= 0x200A)
    || n == 0x2028 || n == 0x2029 || n == 0x202F || n == 0x205F
    || n == 0x3000 || n == 0xFEFF
  }

  function TrimLeadingWhitespace(s: string): (t: string)
    ensures |t| <= |s| && t == s[|s| - |t|..]
    ensures t == [] || !IsJsWhitespace(t[0])
  {
    if |s| > 0 && IsJsWhitespace(s[0]) then TrimLeadingWhitespace(s[1..]) else s
  }

  /** The text after one optional leading '-' or '+'. */
  function AfterSign(t: string): string {
    if |t| > 0 && (t[0] == '-' || t[0] == '+') then t[1..] else t
  }

  /** `parseInt(s, 10)`: skip leading white space, read an optional sign and
      the longest run of digits after it; `None` stands for NaN (no digit). */
  function ParseInt(s: string): Option<int> {
    var t := TrimLeadingWhitespace(s);
    var negative := |t| > 0 && t[0] == '-';
    var body := AfterSign(t);
    var k := DigitPrefixLength(body);
    var magnitude: int := DigitsValue(body[..k]);
    if k == 0 then None
    else if negative then Some(-magnitude)
    else Some(magnitude)
  }

  /** The integer at the head of a JSON text: an optional '-' and digits.
      Gives the value and the text after it. */
  function ScanInteger(s: string): Option<(int, string)> {
    var negative := |s| > 0 && s[0] == '-';
    var body := if negative then s[1..] else s;
    var k := DigitPrefixLength(body);
    var magnitude: int := DigitsValue(body[..k]);
    if k == 0 then None
    else if negative then Some((-magnitude, body[k..]))
    else Some((magnitude, body[k..]))
  }

  predicate StartsWithoutDigit(s: string) {
    s == [] || !IsDigit(s[0])
  }

  lemma DigitsValueAppend(s: string, c: char)
    requires AllDigits(s) && IsDigit(c)
    ensures AllDigits(s + [c]) && DigitsValue(s + [c]) == DigitsValue(s) * 10 + DigitValue(c)
  {
  }

  /** The digits of `n` read back give `n`. */
  lemma {:induction false} NatDigitsValue(n: nat)
    ensures DigitsValue(NatDigits(n)) == n
    decreases n
  {
    if n < 10 {
      assert NatDigits(n)[..0] == [];
    } else {
      NatDigitsValue(n / 10);
      DigitsValueAppend(NatDigits(n / 10), DigitChar(n % 10));
    }
  }

  /** A run of digits followed by text that does not start with a digit has
      exactly that run as its digit prefix. */
  lemma DigitPrefixOfDigitsThen(d: string, rest: string)
    requires AllDigits(d) && StartsWithoutDigit(rest)
    ensures DigitPrefixLength(d + rest) == |d|
    ensures (d + rest)[..|d|] == d && (d + rest)[|d|..] == rest
  {
  }

  /** `parseInt(String(n), 10) == n`, and `parseInt` stops at the first
      non-digit, so `parseInt("12x", 10) == 12`. */
  lemma ParseIntOfDecimalString(n: int, rest: string)
    requires StartsWithoutDigit(rest)
    ensures ParseInt(DecimalString(n) + rest) == Some(n)
  {
    var s := DecimalString(n) + rest;
    assert s[0] == DecimalString(n)[0];
    assert TrimLeadingWhitespace(s) == s;
    var m: nat := if n < 0 then -n else n;
    var body := if n < 0 then s[1..] else s;
    assert body == NatDigits(m) + rest by {
      if n < 0 {
        assert s == "-" + (NatDigits(m) + rest);
      }
    }
    assert n < 0 <==> s[0] == '-';
    assert s[0] != '+';
    NatDigitsValue(m);
    DigitPrefixOfDigitsThen(NatDigits(m), rest);
  }

  /** `parseInt(String(n), 10) == n`. */
  lemma ParseIntOfDecimal(n: int)
    ensures ParseInt(DecimalString(n)) == Some(n)
  {
    ParseIntOfDecimalString(n, "");
    assert DecimalString(n) + "" == DecimalString(n);
  }

  /** Reading an integer back from the JSON text `String(n)` followed by a
      non-digit gives `n` and leaves the following text. */
  lemma ScanIntegerOfDecimalString(n: int, rest: string)
    requires StartsWithoutDigit(rest)
    ensures ScanInteger(DecimalString(n) + rest) == Some((n, rest))
  {
    var s := DecimalString(n) + rest;
    assert s[0] == DecimalString(n)[0];
    var m: nat := if n < 0 then -n else n;
    var body := if n < 0 then s[1..] else s;
    assert body == NatDigits(m) + rest by {
      if n < 0 {
        assert s == "-" + (NatDigits(m) + rest);
      }
    }
    assert n < 0 <==> s[0] == '-';
    NatDigitsValue(m);
    DigitPrefixOfDigitsThen(NatDigits(m), rest);
    assert body[..DigitPrefixLength(body)] == NatDigits(m);
  }

  /** `parseInt` gives NaN exactly when no digit follows the leading white
      space and the optional sign ("x12", " -a1" and "" among them). */
  lemma ParseIntWithoutDigits(s: string)
    ensures ParseInt(s) == None <==> StartsWithoutDigit(AfterSign(TrimLeadingWhitespace(s)))
  {
  }
}
