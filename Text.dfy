/** Decimal text of integers as the three runtimes write and read it: C#
    `int.ToString()` and JavaScript's `String(n)` for an integer (an optional
    minus sign and the digits without leading zeros), `string.Trim()`, and
    C# `Convert.ToInt32(string)`, whose failures (empty text, a stray
    character, a value outside 32 bits) are `None`. */
module Text {
  import opened Prelude

  predicate IsDigit(c: char)
  {
    '0' <= c <= '9'
  }

  function DigitChar(d: int): (c: char)
    requires 0 <= d < 10
    ensures IsDigit(c)
  {
    ['0', '1', '2', '3', '4', '5', '6', '7', '8', '9'][d]
  }

  function DigitValue(c: char): (d: int)
    requires IsDigit(c)
    ensures 0 <= d < 10
  {
    (c as int) - ('0' as int)
  }

  /** The digits of a natural number, most significant first, no leading zero. */
  function NatString(n: nat): (s: string)
    ensures |s| >= 1 && forall i :: 0 <= i < |s| ==> IsDigit(s[i])
    ensures n > 0 ==> s[0] != '0'
    decreases n
  {
    if n < 10 then [DigitChar(n)] else NatString(n / 10) + [DigitChar(n % 10)]
  }

  /** `n.ToString()`. */
  function DecimalString(n: int): (s: string)
  {
    if n < 0 then "-" + NatString(-n) else NatString(n)
  }

  predicate AllDigits(s: string)
  {
    forall i :: 0 <= i < |s| ==> IsDigit(s[i])
  }

  /** The value of a string of digits. */
  function DigitsValue(s: string): (n: nat)
    requires forall i :: 0 <= i < |s| ==> IsDigit(s[i])
    decreases |s|
  {
    if |s| == 0 then 0 else DigitsValue(s[..|s| - 1]) * 10 + DigitValue(s[|s| - 1])
  }

  /** The digits read back give the number. */
  lemma {:induction false} NatStringValue(n: nat)
    ensures DigitsValue(NatString(n)) == n
    decreases n
  {
    if n >= 10 {
      NatStringValue(n / 10);
      var s := NatString(n);
      assert s[..|s| - 1] == NatString(n / 10);
      assert DigitValue(DigitChar(n % 10)) == n % 10 by {
        DigitCharValue(n % 10);
      }
    } else {
      DigitCharValue(n);
    }
  }

  lemma DigitCharValue(d: int)
    requires 0 <= d < 10
    ensures DigitValue(DigitChar(d)) == d
  {
  }

  /** The white space `Convert.ToInt32` skips around the number. */
  predicate IsNumberWhiteSpace(c: char)
  {
    '\t' <= c <= '\r' || c == ' '
  }

  /** The white space `string.Trim()` removes (`char.IsWhiteSpace`). */
  predicate IsWhiteSpace(c: char)
  {
    '\t' <= c <= '\r' || c == ' ' || c == '\U{0085}' || c == '\U{00A0}' || c == '\U{1680}'
    || '\U{2000}' <= c <= '\U{200A}' || c == '\U{2028}' || c == '\U{2029}' || c == '\U{202F}'
    || c == '\U{205F}' || c == '\U{3000}'
  }

  /** A blank: with `numeric`, one `Convert.ToInt32` skips around the
      number; without, one `string.Trim()` removes. */
  predicate IsBlank(c: char, numeric: bool)
  {
    if numeric then IsNumberWhiteSpace(c) else IsWhiteSpace(c)
  }

  /** The text without its leading blanks. */
  function TrimStart(s: string, numeric: bool): (r: string)
    ensures |r| <= |s| && r == s[|s| - |r|..]
    ensures |r| > 0 ==> !IsBlank(r[0], numeric)
    decreases |s|
  {
    if |s| > 0 && IsBlank(s[0], numeric) then TrimStart(s[1..], numeric) else s
  }

  /** The text without its trailing blanks. */
  function TrimEnd(s: string, numeric: bool): (r: string)
    ensures |r| <= |s| && r == s[..|r|]
    ensures |r| > 0 ==> !IsBlank(r[|r| - 1], numeric)
    decreases |s|
  {
    if |s| > 0 && IsBlank(s[|s| - 1], numeric) then TrimEnd(s[..|s| - 1], numeric) else s
  }

  /** What `TrimStart` drops is blanks. */
  lemma {:induction false} LeadingBlanks(s: string, numeric: bool)
    ensures forall i :: 0 <= i < |s| - |TrimStart(s, numeric)| ==> IsBlank(s[i], numeric)
    decreases |s|
  {
    if |s| > 0 && IsBlank(s[0], numeric) {
      LeadingBlanks(s[1..], numeric);
      assert forall i :: 1 <= i < |s| ==> s[1..][i - 1] == s[i];
    }
  }

  /** What `TrimEnd` drops is blanks. */
  lemma {:induction false} TrailingBlanks(s: string, numeric: bool)
    ensures forall i :: |TrimEnd(s, numeric)| <= i < |s| ==> IsBlank(s[i], numeric)
    decreases |s|
  {
    if |s| > 0 && IsBlank(s[|s| - 1], numeric) {
      TrailingBlanks(s[..|s| - 1], numeric);
    }
  }

  /** `s.Trim()`. */
  function Trim(s: string): (r: string)
    ensures |r| > 0 ==> !IsWhiteSpace(r[0]) && !IsWhiteSpace(r[|r| - 1])
  {
    TrimEnd(TrimStart(s, false), false)
  }

  const Int32Min: int := -0x8000_0000
  const Int32Max: int := 0x7FFF_FFFF

  /** `Convert.ToInt32(s)`: optional surrounding blanks, an optional sign, at
      least one digit and nothing else, within the 32-bit range. */
  function ParseInt32(s: string): (r: Option<int>)
    ensures r.Some? ==> Int32Min <= r.value <= Int32Max
  {
    ParseSigned(TrimEnd(TrimStart(s, true), true))
  }

  /** The number without its surrounding blanks. */
  function ParseSigned(t: string): (r: Option<int>)
    ensures r.Some? ==> Int32Min <= r.value <= Int32Max
  {
    var negative := |t| > 0 && t[0] == '-';
    var body := if |t| > 0 && (t[0] == '-' || t[0] == '+') then t[1..] else t;
    if |body| == 0 || !AllDigits(body) then None
    else
      var magnitude: int := DigitsValue(body);
      var value := if negative then -magnitude else magnitude;
      if Int32Min <= value <= Int32Max then Some(value) else None
  }

  /** Text with no digit in it is not a number. */
  lemma ParseInt32NeedsDigits(s: string)
    requires forall i :: 0 <= i < |s| ==> !IsDigit(s[i])
    ensures ParseInt32(s) == None
  {
    var ts := TrimStart(s, true);
    var t := TrimEnd(ts, true);
    assert forall i :: 0 <= i < |t| ==> t[i] == s[|s| - |ts| + i];
    var body := if |t| > 0 && (t[0] == '-' || t[0] == '+') then t[1..] else t;
    if |body| > 0 {
      if t[0] == '-' || t[0] == '+' {
        assert body[0] == t[1];
      } else {
        assert body[0] == t[0];
      }
      assert !IsDigit(body[0]);
    }
    assert ParseSigned(t) == None;
  }

  /** Text that starts and ends with something other than a blank is left
      alone by the blank trimming. */
  lemma TrimNumberBlanksNoop(s: string)
    requires |s| > 0 && !IsNumberWhiteSpace(s[0]) && !IsNumberWhiteSpace(s[|s| - 1])
    ensures TrimEnd(TrimStart(s, true), true) == s
  {
  }

  /** A digit string, with or without a leading minus, reads as its value. */
  lemma ParseSignedDigits(digits: string, negative: bool)
    requires |digits| > 0 && forall i :: 0 <= i < |digits| ==> IsDigit(digits[i])
    requires var v: int := DigitsValue(digits); Int32Min <= (if negative then -v else v) <= Int32Max
    ensures ParseSigned(if negative then "-" + digits else digits)
      == Some(if negative then -(DigitsValue(digits) as int) else DigitsValue(digits))
  {
    var t := if negative then "-" + digits else digits;
    if negative {
      assert t[1..] == digits;
    } else {
      assert IsDigit(t[0]);
    }
  }

  /** Every 32-bit integer written with `ToString` reads back as itself. */
  lemma DecimalRoundTrip(n: int)
    requires Int32Min <= n <= Int32Max
    ensures ParseInt32(DecimalString(n)) == Some(n)
  {
    var m: nat := if n < 0 then -n else n;
    var digits := NatString(m);
    NatStringValue(m);
    ParseSignedDigits(digits, n < 0);
    var s := DecimalString(n);
    assert s == if n < 0 then "-" + digits else digits;
    TrimNumberBlanksNoop(s);
  }
}
