/** The browser-side colour helpers (RpiSpectrumAnalyzer/wwwroot/Helpers.js):
    a real-valued linear map, conversion between "#RRGGBB" strings and RGB
    triples, and gradients of hex strings. JavaScript numbers are modelled as
    exact integers and reals; `parseInt`, the 32-bit bit operators,
    `Math.round` and `Number.prototype.toString(16)` are written out. */
module HexColor {
  import opened Prelude
  import Colors

  /** The object `hexStringToRgbJson` returns. */
  datatype Rgb = Rgb(r: int, g: int, b: int)

  predicate InRange(c: Rgb)
  {
    0 <= c.r <= 255 && 0 <= c.g <= 255 && 0 <= c.b <= 255
  }

  // ---------------------------------------------------------------------------
  // map

  /** `map`: the affine map taking [fromMin, fromMax] onto [toMin, toMax]. An
      empty source range divides by zero, which JavaScript turns into an
      infinity or NaN; it is excluded here. */
  function MapReal(value: real, fromMin: real, fromMax: real, toMin: real, toMax: real): real
    requires fromMax != fromMin
  {
    toMin + (value - fromMin) * (toMax - toMin) / (fromMax - fromMin)
  }

  /** The map sends the ends of the source range to the ends of the target
      range and preserves order when both ranges run upward. */
  lemma MapRealEndpoints(value: real, other: real, fromMin: real, fromMax: real, toMin: real, toMax: real)
    requires fromMax != fromMin
    ensures MapReal(fromMin, fromMin, fromMax, toMin, toMax) == toMin
    ensures MapReal(fromMax, fromMin, fromMax, toMin, toMax) == toMax
    ensures fromMin < fromMax && toMin <= toMax && value <= other ==>
      MapReal(value, fromMin, fromMax, toMin, toMax) <= MapReal(other, fromMin, fromMax, toMin, toMax)
  {
    var span := fromMax - fromMin;
    var k := (toMax - toMin) / span;
    assert k * span == toMax - toMin;
    assert (fromMax - fromMin) * (toMax - toMin) / span == toMax - toMin;
    if fromMin < fromMax && toMin <= toMax && value <= other {
      Colors.RatioInUnit(0.0, span);
      assert 0.0 <= (toMax - toMin) / span by {
        Colors.RatioInUnit(0.0, span);
        if toMax - toMin <= span {
          Colors.RatioInUnit(toMax - toMin, span);
        } else {
          Colors.DivBelow(span, toMax - toMin, span);
        }
      }
      assert (value - fromMin) * (toMax - toMin) / span == (value - fromMin) * k;
      assert (other - fromMin) * (toMax - toMin) / span == (other - fromMin) * k;
      assert (value - fromMin) * k <= (other - fromMin) * k;
    }
  }

  // ---------------------------------------------------------------------------
  // Hexadecimal digits

  predicate IsHexDigit(c: char)
  {
    '0' <= c <= '9' || 'a' <= c <= 'f' || 'A' <= c <= 'F'
  }

  predicate AllHexDigits(s: string)
  {
    forall i :: 0 <= i < |s| ==> IsHexDigit(s[i])
  }

  function DigitValue(c: char): (d: int)
    requires IsHexDigit(c)
    ensures 0 <= d < 16
  {
    if '0' <= c <= '9' then c as int - '0' as int
    else if 'a' <= c <= 'f' then c as int - 'a' as int + 10
    else c as int - 'A' as int + 10
  }

  /** The digit `toString(16)` writes for d: lower case. */
  function LowerDigit(d: int): (c: char)
    requires 0 <= d < 16
    ensures IsHexDigit(c) && DigitValue(c) == d && !('A' <= c <= 'F')
  {
    if d < 10 then ('0' as int + d) as char else ('a' as int + d - 10) as char
  }

  /** `toUpperCase` on the characters this module produces: ASCII letters are
      raised, everything else is kept. */
  function ToUpper(c: char): char
  {
    if 'a' <= c <= 'z' then (c as int - 'a' as int + 'A' as int) as char else c
  }

  function Upper(s: string): (u: string)
    ensures |u| == |s| && forall i :: 0 <= i < |s| ==> u[i] == ToUpper(s[i])
  {
    seq(|s|, i requires 0 <= i < |s| => ToUpper(s[i]))
  }

  /** Raising a hex digit keeps it a hex digit with the same value. */
  lemma UpperDigit(c: char)
    requires IsHexDigit(c)
    ensures IsHexDigit(ToUpper(c)) && DigitValue(ToUpper(c)) == DigitValue(c)
    ensures ToUpper(LowerDigit(DigitValue(c))) == ToUpper(c)
  {
  }

  function Pow16(w: nat): (p: nat)
    ensures p >= 1
  {
    if w == 0 then 1 else 16 * Pow16(w - 1)
  }

  /** `n.toString(16)` for a nonnegative integer: lower-case digits, no
      leading zeros, "0" for zero. */
  function ToBase16(n: nat): (s: string)
    ensures |s| >= 1 && AllHexDigits(s)
  {
    if n < 16 then [LowerDigit(n)] else ToBase16(n / 16) + [LowerDigit(n % 16)]
  }

  /** Exactly w lower-case digits of v, most significant first (leading zeros kept). */
  function LowerDigits(v: nat, w: nat): (s: string)
    ensures |s| == w && AllHexDigits(s)
  {
    if w == 0 then [] else LowerDigits(v / 16, w - 1) + [LowerDigit(v % 16)]
  }

  /** The value of a string of hex digits, most significant first. */
  function HexValue(s: string): (v: nat)
    requires AllHexDigits(s)
    ensures v < Pow16(|s|)
  {
    if |s| == 0 then 0 else HexValue(s[..|s| - 1]) * 16 + DigitValue(s[|s| - 1])
  }

  /** Division by 16 recovers the quotient and the digit of 16 q + m. */
  lemma DivMod16(n: int, q: int, m: int)
    requires n == 16 * q + m && 0 <= m < 16
    ensures n / 16 == q && n % 16 == m
  {
  }

  /** Written after a leading part a >= 1, a block of w digits is just appended:
      the base-16 string of a * 16^w + v is that of a followed by the w digits of v. */
  lemma {:induction false} ToBase16Split(a: nat, v: nat, w: nat)
    requires a >= 1 && v < Pow16(w)
    ensures ToBase16(a * Pow16(w) + v) == ToBase16(a) + LowerDigits(v, w)
  {
    if w > 0 {
      var p := Pow16(w - 1);
      var n := a * Pow16(w) + v;
      SplitArith(a, v, p);
      DivMod16(n, a * p + v / 16, v % 16);
      ToBase16Split(a, v / 16, w - 1);
      assert ToBase16(n) == ToBase16(a * p + v / 16) + [LowerDigit(v % 16)];
    }
  }

  lemma SplitArith(a: nat, v: nat, p: nat)
    requires a >= 1 && p >= 1 && v < 16 * p
    ensures a * (16 * p) + v == 16 * (a * p + v / 16) + v % 16
    ensures v / 16 < p && a * (16 * p) + v >= 16
  {
    assert a * (16 * p) == 16 * (a * p);
    assert a * p >= p by {
      MulMonotone(p, 1, a);
    }
  }

  /** Parsing w digits written from v gives v back. */
  lemma {:induction false} HexValueOfDigits(v: nat, w: nat)
    requires v < Pow16(w)
    ensures HexValue(Upper(LowerDigits(v, w))) == v
  {
    if w > 0 {
      var s := Upper(LowerDigits(v, w));
      assert s[..w - 1] == Upper(LowerDigits(v / 16, w - 1));
      UpperDigit(LowerDigit(v % 16));
      HexValueOfDigits(v / 16, w - 1);
    }
  }

  /** Writing the value of a digit string back with as many digits gives the
      same string, up to case. */
  lemma {:induction false} DigitsOfHexValue(s: string)
    requires AllHexDigits(s)
    ensures Upper(LowerDigits(HexValue(s), |s|)) == Upper(s)
  {
    if |s| > 0 {
      var t := s[..|s| - 1];
      var c := s[|s| - 1];
      DivMod16(HexValue(s), HexValue(t), DigitValue(c));
      DigitsOfHexValue(t);
      UpperDigit(c);
      assert s == t + [c];
    }
  }

  // ---------------------------------------------------------------------------
  // parseInt(s, 16)

  /** The characters `parseInt` skips at the start: white space and line terminators. */
  predicate IsJsWhiteSpace(c: char)
  {
    '\t' <= c <= '\r' || c == ' ' || c == '\U{00A0}' || c == '\U{1680}' || '\U{2000}' <= c <= '\U{200A}'
    || c == '\U{2028}' || c == '\U{2029}' || c == '\U{202F}' || c == '\U{205F}' || c == '\U{3000}' || c == '\U{FEFF}'
  }

  function TrimStart(s: string): (t: string)
    ensures |t| <= |s| && t == s[|s| - |t|..]
    ensures |t| > 0 ==> !IsJsWhiteSpace(t[0])
  {
    if |s| > 0 && IsJsWhiteSpace(s[0]) then TrimStart(s[1..]) else s
  }

  /** The longest prefix of hex digits. */
  function TakeHexDigits(s: string): (t: string)
    ensures |t| <= |s| && t == s[..|t|] && AllHexDigits(t)
    ensures |t| < |s| ==> !IsHexDigit(s[|t|])
  {
    if |s| == 0 || !IsHexDigit(s[0]) then [] else [s[0]] + TakeHexDigits(s[1..])
  }

  /** The text after an optional leading sign. */
  function StripSign(t: string): (u: string)
    ensures |u| <= |t|
  {
    if |t| > 0 && (t[0] == '-' || t[0] == '+') then t[1..] else t
  }

  /** The text after an optional "0x" or "0X" prefix. */
  function StripHexPrefix(u: string): (body: string)
    ensures |body| <= |u|
  {
    if |u| >= 2 && u[0] == '0' && (u[1] == 'x' || u[1] == 'X') then u[2..] else u
  }

  /** `parseInt(s, 16)`: leading white space, an optional sign and an optional
      "0x" prefix are skipped, then the longest run of hex digits is read;
      None stands for NaN, when there is no digit to read. */
  function ParseIntHex(s: string): Option<int>
  {
    var t := TrimStart(s);
    var digits := TakeHexDigits(StripHexPrefix(StripSign(t)));
    if |digits| == 0 then None
    else
      var value: int := HexValue(digits);
      if |t| > 0 && t[0] == '-' then Some(-value) else Some(value)
  }

  /** A nonempty string of hex digits that does not start with "0x" parses
      to its value. */
  lemma ParseIntHexOfDigits(s: string)
    requires AllHexDigits(s) && |s| > 0 && !(|s| >= 2 && s[0] == '0' && (s[1] == 'x' || s[1] == 'X'))
    ensures ParseIntHex(s) == Some(HexValue(s))
  {
    assert IsHexDigit(s[0]);
    assert TrimStart(s) == s;
    assert StripSign(s) == s;
    assert StripHexPrefix(s) == s;
    TakeAllHexDigits(s);
  }

  /** A string of hex digits is read whole. */
  lemma {:induction false} TakeAllHexDigits(s: string)
    requires AllHexDigits(s)
    ensures TakeHexDigits(s) == s
    decreases |s|
  {
    if |s| > 0 {
      assert AllHexDigits(s[1..]) by {
        assert forall i :: 0 <= i < |s| - 1 ==> s[1..][i] == s[i + 1];
      }
      TakeAllHexDigits(s[1..]);
      assert [s[0]] + s[1..] == s;
    }
  }

  /** A string with no hex digit at all parses to NaN. */
  lemma ParseIntHexWithoutDigits(s: string)
    requires forall i :: 0 <= i < |s| ==> !IsHexDigit(s[i])
    ensures ParseIntHex(s).None?
  {
  }

  /** The 32 bits a JavaScript bit operator sees (`ToInt32`, as an unsigned
      pattern); NaN becomes 0. */
  function Int32Bits(x: Option<int>): (bits: U32)
  {
    match x
    case None => 0
    case Some(v) => v % 0x1_0000_0000
  }

  // ---------------------------------------------------------------------------
  // Conversions

  /** `hexStringToRgbJson`: drop the first character, parse the rest in base
      16, and split bits 16-23, 8-15 and 0-7 into red, green and blue. */
  function HexStringToRgb(hex: string): (c: Rgb)
    ensures InRange(c)
  {
    var bits := Int32Bits(ParseIntHex(if |hex| == 0 then "" else hex[1..]));
    Rgb((bits / 0x10000) % 256, (bits / 0x100) % 256, bits % 256)
  }

  /** `rgbToHexString` for channels in [0, 255]: add 2^24 so that `toString(16)`
      writes seven digits, drop the leading "1" and raise the case. */
  function RgbToHexString(c: Rgb): (hex: string)
    requires InRange(c)
  {
    var x := 0x100_0000 + c.r * 0x10000 + c.g * 0x100 + c.b;
    "#" + Upper(ToBase16(x)[1..])
  }

  /** The value of a colour as a 24-bit integer. */
  function Packed(c: Rgb): int
  {
    c.r * 0x10000 + c.g * 0x100 + c.b
  }

  /** `rgbToHexString` gives "#" and six upper-case digits of the packed colour. */
  lemma RgbToHexForm(c: Rgb)
    requires InRange(c)
    ensures Packed(c) < Pow16(6)
    ensures RgbToHexString(c) == "#" + Upper(LowerDigits(Packed(c), 6))
  {
    assert Pow16(6) == 0x100_0000;
    ToBase16Split(1, Packed(c), 6);
  }

  /** The unique quotient and remainder of n by a positive d. */
  lemma DivModUnique(n: int, d: int, q: int, m: int)
    requires d > 0 && n == d * q + m && 0 <= m < d
    ensures n / d == q && n % d == m
  {
    var q', m' := n / d, n % d;
    assert d * (q - q') == m' - m;
    if q > q' {
      MulMonotone(d, 1, q - q');
    } else if q < q' {
      MulMonotone(d, q - q', -1);
    }
  }

  /** Splitting the packed value of a colour into bytes gives the colour back. */
  lemma SplitOfPacked(c: Rgb)
    requires InRange(c)
    ensures var p := Packed(c); Rgb((p / 0x10000) % 256, (p / 0x100) % 256, p % 256) == c
  {
    var p := Packed(c);
    DivModUnique(p, 0x10000, c.r, 0x100 * c.g + c.b);
    DivModUnique(p, 0x100, 0x100 * c.r + c.g, c.b);
    DivModUnique(0x100 * c.r + c.g, 0x100, c.r, c.g);
    DivModUnique(c.r, 0x100, 0, c.r);
  }

  /** Packing the three bytes of a 24-bit value gives the value back. */
  lemma PackedOfSplit(v: int)
    requires 0 <= v < 0x100_0000
    ensures Packed(Rgb((v / 0x10000) % 256, (v / 0x100) % 256, v % 256)) == v
  {
    var lo, mid := v % 0x100, v / 0x100;
    var hi := mid / 0x100;
    assert v == 0x100 * mid + lo;
    assert mid == 0x100 * hi + mid % 0x100;
    DivModUnique(v, 0x10000, hi, 0x100 * (mid % 0x100) + lo);
    DivModUnique(hi, 0x100, 0, hi);
  }

  /** Parsing "#" and w >= 1 digits written from a value below 2^24 splits that
      value into bytes (w is 6 at every use). */
  lemma ParseWrittenDigits(v: int, w: nat)
    requires 0 <= v < 0x100_0000 && 1 <= w && v < Pow16(w)
    ensures HexStringToRgb("#" + Upper(LowerDigits(v, w))) == Rgb((v / 0x10000) % 256, (v / 0x100) % 256, v % 256)
  {
    var digits := Upper(LowerDigits(v, w));
    ParseDigitsOf(v, w);
    var hex := "#" + digits;
    assert hex[1..] == digits;
    HexStringToRgbOf(hex, v);
  }

  lemma HexStringToRgbOf(hex: string, v: int)
    requires |hex| >= 1 && ParseIntHex(hex[1..]) == Some(v) && 0 <= v < 0x100_0000
    ensures HexStringToRgb(hex) == Rgb((v / 0x10000) % 256, (v / 0x100) % 256, v % 256)
  {
    SmallBits(v);
    HexStringToRgbBits(hex, v);
  }

  /** A value below 2^24 is its own 32-bit pattern. */
  lemma SmallBits(v: int)
    requires 0 <= v < 0x100_0000
    ensures Int32Bits(Some(v)) == v
  {
  }

  lemma HexStringToRgbBits(hex: string, bits: U32)
    requires |hex| >= 1 && Int32Bits(ParseIntHex(hex[1..])) == bits
    ensures HexStringToRgb(hex) == Rgb((bits / 0x10000) % 256, (bits / 0x100) % 256, bits % 256)
  {
  }

  lemma ParseDigitsOf(v: nat, w: nat)
    requires 1 <= w && v < Pow16(w)
    ensures ParseIntHex(Upper(LowerDigits(v, w))) == Some(v)
  {
    var digits := Upper(LowerDigits(v, w));
    HexValueOfDigits(v, w);
    assert AllHexDigits(digits) by {
      forall i | 0 <= i < |digits|
        ensures IsHexDigit(digits[i])
      {
        UpperDigit(LowerDigits(v, w)[i]);
      }
    }
    ParseIntHexOfDigits(digits);
  }

  /** Formatting a colour and parsing the string gives the colour back. */
  lemma RgbHexRoundTrip(c: Rgb)
    requires InRange(c)
    ensures HexStringToRgb(RgbToHexString(c)) == c
  {
    RgbToHexForm(c);
    ParseWrittenDigits(Packed(c), 6);
    SplitOfPacked(c);
  }

  /** Parsing a string of six hex digits after any first character and
      formatting the colour gives "#" and the same digits with letters raised. */
  lemma HexRgbRoundTrip(hex: string)
    requires |hex| == 7 && AllHexDigits(hex[1..])
    ensures RgbToHexString(HexStringToRgb(hex)) == "#" + Upper(hex[1..])
  {
    var s := hex[1..];
    var v := HexValue(s);
    assert Pow16(6) == 0x100_0000;
    ParseIntHexOfDigits(s);
    HexStringToRgbOf(hex, v);
    var c := HexStringToRgb(hex);
    PackedOfSplit(v);
    RgbToHexForm(c);
    DigitsOfHexValue(s);
  }

  // ---------------------------------------------------------------------------
  // Gradients

  /** Entry i of an n-step hex gradient (n >= 2): each channel is rounded with
      `Math.round`. */
  function GradientHexAt(start: Rgb, end: Rgb, i: int, n: int): (hex: string)
    requires InRange(start) && InRange(end) && n >= 2 && 0 <= i < n
  {
    RgbToHexString(GradientRgbAt(start, end, i, n))
  }

  /** The interpolated channel as the script writes it: `s + t * (e - s)`. */
  function JsLerp(s: int, e: int, t: real): real
  {
    s as real + t * (e - s) as real
  }

  function GradientRgbAt(start: Rgb, end: Rgb, i: int, n: int): (c: Rgb)
    requires InRange(start) && InRange(end) && n >= 2 && 0 <= i < n
    ensures InRange(c)
  {
    var t := i as real / (n - 1) as real;
    Colors.RatioMonotone(i as real, i as real, (n - 1) as real);
    RoundedLerpInRange(start.r, end.r, t);
    RoundedLerpInRange(start.g, end.g, t);
    RoundedLerpInRange(start.b, end.b, t);
    Rgb(RoundHalfUp(JsLerp(start.r, end.r, t)), RoundHalfUp(JsLerp(start.g, end.g, t)), RoundHalfUp(JsLerp(start.b, end.b, t)))
  }

  /** A rounded point between two channel values lies between them. */
  lemma RoundedLerpInRange(s: int, e: int, t: real)
    requires 0 <= s <= 255 && 0 <= e <= 255 && 0.0 <= t <= 1.0
    ensures MinInt(s, e) <= RoundHalfUp(JsLerp(s, e, t)) <= if s >= e then s else e
  {
    assert JsLerp(s, e, t) == Colors.Lerp(s, e, t);
    Colors.LerpMonotone(s, e, t, t);
  }

  /** What `generateGradient` returns for one step: t = 0/0 is NaN, so every
      channel is NaN; the shifted red and green become 0, the unshifted blue
      keeps the sum NaN, and "NaN" sliced after its first character and raised
      is "AN". */
  const OneStepGradient: string := "#AN"

  /** The whole n-step hex gradient (n >= 2). */
  function GradientHex(start: Rgb, end: Rgb, n: int): (r: seq<string>)
    requires InRange(start) && InRange(end) && n >= 2
    ensures |r| == n
  {
    seq(n, k requires 0 <= k < n => GradientHexAt(start, end, k, n))
  }

  /** What `generateGradient` returns for already parsed colours: nothing for
      a count below 1, the NaN string for a count of 1, the gradient otherwise. */
  function GeneratedGradient(start: Rgb, end: Rgb, gradientCount: int): (r: seq<string>)
    requires InRange(start) && InRange(end)
    ensures |r| == if gradientCount < 0 then 0 else gradientCount
  {
    if gradientCount <= 0 then []
    else if gradientCount == 1 then [OneStepGradient]
    else GradientHex(start, end, gradientCount)
  }

  /** `generateGradient`: parse both colours and push one hex string per step. */
  method GenerateGradient(startColorAsHexString: string, endColorAsHexString: string, gradientCount: int) returns (gradient: seq<string>)
    ensures gradient == GeneratedGradient(HexStringToRgb(startColorAsHexString), HexStringToRgb(endColorAsHexString), gradientCount)
  {
    var startRgb := HexStringToRgb(startColorAsHexString);
    var endRgb := HexStringToRgb(endColorAsHexString);
    gradient := GradientSteps(startRgb, endRgb, gradientCount);
  }

  /** The loop of `generateGradient` over the parsed colours. */
  method GradientSteps(startRgb: Rgb, endRgb: Rgb, gradientCount: int) returns (gradient: seq<string>)
    requires InRange(startRgb) && InRange(endRgb)
    ensures gradient == GeneratedGradient(startRgb, endRgb, gradientCount)
  {
    ghost var all := GeneratedGradient(startRgb, endRgb, gradientCount);
    gradient := [];
    var i := 0;
    while i < gradientCount
      invariant 0 <= i && (i == 0 || i <= gradientCount)
      invariant gradient == all[..i]
    {
      var hex;
      if gradientCount == 1 {
        hex := OneStepGradient;
      } else {
        hex := GradientStep(startRgb, endRgb, i, gradientCount);
      }
      assert hex == all[i];
      assert all[..i + 1] == all[..i] + [all[i]];
      gradient := gradient + [hex];
      i := i + 1;
    }
  }

  /** The body of the loop in `generateGradient` for step i of n >= 2. */
  method GradientStep(startRgb: Rgb, endRgb: Rgb, i: int, gradientCount: int) returns (hex: string)
    requires InRange(startRgb) && InRange(endRgb) && gradientCount >= 2 && 0 <= i < gradientCount
    ensures hex == GradientHexAt(startRgb, endRgb, i, gradientCount)
  {
    var t := i as real / (gradientCount - 1) as real;
    var r := RoundHalfUp(startRgb.r as real + t * (endRgb.r - startRgb.r) as real);
    var g := RoundHalfUp(startRgb.g as real + t * (endRgb.g - startRgb.g) as real);
    var b := RoundHalfUp(startRgb.b as real + t * (endRgb.b - startRgb.b) as real);
    assert Rgb(r, g, b) == GradientRgbAt(startRgb, endRgb, i, gradientCount);
    hex := RgbToHexString(Rgb(r, g, b));
  }

  /** The first entry of a gradient is the start colour and the last the end
      colour, each written back in canonical upper-case form. */
  lemma GradientHexEndpoints(start: Rgb, end: Rgb, n: int)
    requires InRange(start) && InRange(end) && n >= 2
    ensures GradientHexAt(start, end, 0, n) == RgbToHexString(start)
    ensures GradientHexAt(start, end, n - 1, n) == RgbToHexString(end)
  {
    var d := (n - 1) as real;
    assert 0 as real / d == 0.0;
    assert (n - 1) as real / d == 1.0;
    RoundHalfUpOfInt(start.r); RoundHalfUpOfInt(start.g); RoundHalfUpOfInt(start.b);
    RoundHalfUpOfInt(end.r); RoundHalfUpOfInt(end.g); RoundHalfUpOfInt(end.b);
    assert GradientRgbAt(start, end, 0, n) == start;
    assert GradientRgbAt(start, end, n - 1, n) == end;
  }

  /** Every entry of a gradient parses to a colour between the two ends. */
  lemma GradientHexBetween(start: Rgb, end: Rgb, i: int, n: int)
    requires InRange(start) && InRange(end) && n >= 2 && 0 <= i < n
    ensures var c := HexStringToRgb(GradientHexAt(start, end, i, n));
      MinInt(start.r, end.r) <= c.r <= (if start.r >= end.r then start.r else end.r) &&
      MinInt(start.g, end.g) <= c.g <= (if start.g >= end.g then start.g else end.g) &&
      MinInt(start.b, end.b) <= c.b <= (if start.b >= end.b then start.b else end.b)
  {
    var t := i as real / (n - 1) as real;
    Colors.RatioMonotone(i as real, i as real, (n - 1) as real);
    RoundedLerpInRange(start.r, end.r, t);
    RoundedLerpInRange(start.g, end.g, t);
    RoundedLerpInRange(start.b, end.b, t);
    RgbHexRoundTrip(GradientRgbAt(start, end, i, n));
  }

  lemma RoundHalfUpOfInt(x: int)
    ensures RoundHalfUp(x as real) == x
  {
  }
}
