/** Colour utilities of the Raspberry Pi port (RpiSpectrumAnalyzer/ColorConversion.cs
    and the older copy `ColorHelper` in RpiSpectrumAnalyzer/Common.cs): the
    console colour table, HSL conversion, brightness scaling and linear gradients. */
module Colors {
  import opened Prelude
  import Levels

  /** An RGB colour (`PixelColor`). Channels are plain integers: nothing in the
      class restricts them to [0, 255]. */
  datatype PixelColor = PixelColor(r: int, g: int, b: int)

  predicate InGamut(c: PixelColor)
  {
    0 <= c.r <= 255 && 0 <= c.g <= 255 && 0 <= c.b <= 255
  }

  const BlackPixel: PixelColor := PixelColor(0, 0, 0)

  /** `System.ConsoleColor`. */
  datatype ConsoleColor =
    | Black | DarkBlue | DarkGreen | DarkCyan | DarkRed | DarkMagenta | DarkYellow | Gray
    | DarkGray | Blue | Green | Cyan | Red | Magenta | Yellow | White

  /** `_consoleHueMap`: twelve console colours in hue order with their RGB values. */
  const ConsoleHueMap: seq<(ConsoleColor, PixelColor)> := [
    (DarkRed, PixelColor(128, 0, 0)),
    (Red, PixelColor(255, 0, 0)),
    (DarkYellow, PixelColor(128, 128, 0)),
    (Yellow, PixelColor(255, 255, 0)),
    (Green, PixelColor(0, 255, 0)),
    (DarkGreen, PixelColor(0, 128, 0)),
    (Cyan, PixelColor(0, 255, 255)),
    (DarkCyan, PixelColor(0, 128, 128)),
    (Blue, PixelColor(0, 0, 255)),
    (DarkBlue, PixelColor(0, 0, 128)),
    (Magenta, PixelColor(255, 0, 255)),
    (DarkMagenta, PixelColor(128, 0, 128))
  ]

  // ---------------------------------------------------------------------------
  // Console colour lookup

  /** `Enumerable.First` over the table from position k: the first entry for
      the colour, or None where `First` throws. */
  function FirstEntry(consoleColor: ConsoleColor, k: nat): (r: Option<PixelColor>)
    requires k <= |ConsoleHueMap|
    ensures r.None? <==> forall i :: k <= i < |ConsoleHueMap| ==> ConsoleHueMap[i].0 != consoleColor
    ensures r.Some? ==> exists i :: k <= i < |ConsoleHueMap| && ConsoleHueMap[i] == (consoleColor, r.value)
    decreases |ConsoleHueMap| - k
  {
    if k == |ConsoleHueMap| then None
    else if ConsoleHueMap[k].0 == consoleColor then Some(ConsoleHueMap[k].1)
    else FirstEntry(consoleColor, k + 1)
  }

  /** `ConsoleColorToPixelColor`: the tabled RGB value of a console colour;
      None for the four colours the table lacks, where the lookup throws. */
  function ConsoleColorToPixelColor(consoleColor: ConsoleColor): (r: Option<PixelColor>)
    ensures r.Some? ==> exists i :: 0 <= i < |ConsoleHueMap| && ConsoleHueMap[i] == (consoleColor, r.value)
  {
    FirstEntry(consoleColor, 0)
  }

  /** The four colours the table lacks are exactly the ones the lookup throws on. */
  lemma UntabledColors(c: ConsoleColor)
    ensures ConsoleColorToPixelColor(c).None? <==> c in {Black, Gray, DarkGray, White}
  {
    if c !in {Black, Gray, DarkGray, White} {
      var i := TableIndex(c);
    } else {
      forall i | 0 <= i < |ConsoleHueMap|
        ensures ConsoleHueMap[i].0 != c
      {
        TableEntryTabled(i);
      }
    }
  }

  /** No entry of the table is one of the four untabled colours. */
  lemma TableEntryTabled(i: int)
    requires 0 <= i < |ConsoleHueMap|
    ensures ConsoleHueMap[i].0 !in {Black, Gray, DarkGray, White}
  {
    if i < 6 {
      assert i == 0 || i == 1 || i == 2 || i == 3 || i == 4 || i == 5;
    } else {
      assert i == 6 || i == 7 || i == 8 || i == 9 || i == 10 || i == 11;
    }
  }

  /** The position of a tabled colour. */
  function TableIndex(c: ConsoleColor): (i: int)
    requires c !in {Black, Gray, DarkGray, White}
    ensures 0 <= i < |ConsoleHueMap| && ConsoleHueMap[i].0 == c
  {
    match c
    case DarkRed => 0
    case Red => 1
    case DarkYellow => 2
    case Yellow => 3
    case Green => 4
    case DarkGreen => 5
    case Cyan => 6
    case DarkCyan => 7
    case Blue => 8
    case DarkBlue => 9
    case Magenta => 10
    case DarkMagenta => 11
  }

  /** Every tabled RGB value has its channels in [0, 255]. */
  lemma TableInGamut(i: int)
    requires 0 <= i < |ConsoleHueMap|
    ensures InGamut(ConsoleHueMap[i].1)
  {
  }

  /** No colour appears twice in the table. */
  lemma TableColorsDistinct(i: int, j: int)
    requires 0 <= i < |ConsoleHueMap| && 0 <= j < |ConsoleHueMap|
    requires ConsoleHueMap[i].0 == ConsoleHueMap[j].0
    ensures i == j
  {
    var c := ConsoleHueMap[i].0;
    assert TableIndex(c) == i;
    assert TableIndex(c) == j;
  }

  /** Every table entry is found: the lookup of its console colour gives its RGB value. */
  lemma ConsoleTableLookup(i: int)
    requires 0 <= i < |ConsoleHueMap|
    ensures ConsoleColorToPixelColor(ConsoleHueMap[i].0) == Some(ConsoleHueMap[i].1)
  {
    var c := ConsoleHueMap[i].0;
    var r := ConsoleColorToPixelColor(c);
    assert r.Some?;
    var j :| 0 <= j < |ConsoleHueMap| && ConsoleHueMap[j] == (c, r.value);
    TableColorsDistinct(i, j);
  }

  // ---------------------------------------------------------------------------
  // HSL

  /** Hue in whole degrees, saturation and lightness in [0, 1]. */
  datatype Hsl = Hsl(h: int, s: real, l: real)

  function Max3(a: real, b: real, c: real): (m: real)
    ensures m >= a && m >= b && m >= c && (m == a || m == b || m == c)
  {
    MaxReal(a, MaxReal(b, c))
  }

  function Min3(a: real, b: real, c: real): (m: real)
    ensures m <= a && m <= b && m <= c && (m == a || m == b || m == c)
  {
    if a <= b && a <= c then a else if b <= c then b else c
  }

  /** The hue in sixths of a turn, for a non-gray colour: which channel is the
      largest decides the sector. */
  function HueSixths(rNorm: real, gNorm: real, bNorm: real, max: real, delta: real): (h: real)
    requires delta > 0.0
    requires max == Max3(rNorm, gNorm, bNorm) && delta == max - Min3(rNorm, gNorm, bNorm)
    ensures 0.0 <= h < 6.0
  {
    if max == rNorm then
      RatioInUnit(gNorm - bNorm, delta);
      (gNorm - bNorm) / delta + (if gNorm < bNorm then 6.0 else 0.0)
    else if max == gNorm then
      RatioInUnit(bNorm - rNorm, delta);
      (bNorm - rNorm) / delta + 2.0
    else
      RatioInUnit(rNorm - gNorm, delta);
      (rNorm - gNorm) / delta + 4.0
  }

  /** A difference no larger than the spread, divided by the spread, lies in [-1, 1];
      its sign is the sign of the difference. */
  lemma RatioInUnit(x: real, d: real)
    requires d > 0.0 && -d <= x <= d
    ensures -1.0 <= x / d <= 1.0
    ensures x < 0.0 ==> x / d < 0.0
    ensures x >= 0.0 ==> x / d >= 0.0
  {
    assert x / d * d == x;
  }

  /** `PixelColorToHsl`. */
  function PixelColorToHsl(c: PixelColor): (hsl: Hsl)
    requires InGamut(c)
    ensures 0 <= hsl.h < 360
    ensures 0.0 <= hsl.l <= 1.0 && 0.0 <= hsl.s <= 1.0
    ensures c.r == c.g == c.b ==> hsl.h == 0 && hsl.s == 0.0 && hsl.l == c.r as real / 255.0
  {
    var rNorm := c.r as real / 255.0;
    var gNorm := c.g as real / 255.0;
    var bNorm := c.b as real / 255.0;
    var max := Max3(rNorm, gNorm, bNorm);
    var min := Min3(rNorm, gNorm, bNorm);
    var delta := max - min;
    var l := (max + min) / 2.0;
    if delta == 0.0 then
      Hsl(0, 0.0, l)
    else
      var s := if l < 0.5 then delta / (max + min) else delta / (2.0 - max - min);
      SaturationInUnit(max, min, l);
      var h := HueSixths(rNorm, gNorm, bNorm, max, delta) / 6.0;
      HueDegrees(h);
      Hsl(Trunc(h * 360.0), s, l)
  }

  lemma SaturationInUnit(max: real, min: real, l: real)
    requires 0.0 <= min < max <= 1.0 && l == (max + min) / 2.0
    ensures max + min > 0.0 && 2.0 - max - min > 0.0
    ensures 0.0 <= (if l < 0.5 then (max - min) / (max + min) else (max - min) / (2.0 - max - min)) <= 1.0
  {
    if l < 0.5 {
      RatioInUnit(max - min, max + min);
    } else {
      RatioInUnit(max - min, 2.0 - max - min);
    }
  }

  lemma HueDegrees(h: real)
    requires 0.0 <= h < 1.0
    ensures 0 <= Trunc(h * 360.0) < 360
  {
  }

  /** `PixelColorToConsoleColor`: White for light colours, otherwise the
      table entry at `Map(hue, 0, 300, 0, 11)` capped at 11. */
  function PixelColorToConsoleColor(c: PixelColor): (r: ConsoleColor)
    requires InGamut(c)
    ensures r == White || exists i :: 0 <= i < |ConsoleHueMap| && ConsoleHueMap[i].0 == r
  {
    var hsl := PixelColorToHsl(c);
    if hsl.l > 0.75 then White
    else
      var max := |ConsoleHueMap| - 1;
      var mappedValue := Levels.Map(hsl.h, 0, 300, 0, max);
      Levels.MapNonnegative(hsl.h, 0, 300, 0, max);
      var index := if mappedValue > max then max else mappedValue;
      ConsoleHueMap[index].0
  }

  /** The two lookups are not inverse: a colour with lightness above 0.75
      becomes White, which the reverse lookup does not know (it throws); any
      other colour becomes one the reverse lookup finds. */
  lemma ConsoleColorRoundTrip(c: PixelColor)
    requires InGamut(c)
    ensures PixelColorToHsl(c).l > 0.75 <==> ConsoleColorToPixelColor(PixelColorToConsoleColor(c)).None?
  {
    UntabledColors(PixelColorToConsoleColor(c));
  }

  /** Gray inputs: pure white maps to White, black to the first table entry. */
  lemma GrayConsoleColors()
    ensures PixelColorToConsoleColor(PixelColor(255, 255, 255)) == White
    ensures PixelColorToConsoleColor(PixelColor(0, 0, 0)) == DarkRed
  {
  }

  // ---------------------------------------------------------------------------
  // Brightness

  /** One channel times brightness/100, truncated toward zero. */
  function ChannelWithBrightness(x: int, brightness: real): int
  {
    Trunc(x as real * brightness / 100.0)
  }

  /** One channel times 100/brightness, truncated toward zero. */
  function ChannelWithoutBrightness(x: int, brightness: real): int
    requires brightness != 0.0
  {
    Trunc((x * 100) as real / brightness)
  }

  /** `PixelColorWithBrightness`: every channel times brightness/100, truncated. */
  function PixelColorWithBrightness(c: PixelColor, brightness: real): PixelColor
  {
    PixelColor(ChannelWithBrightness(c.r, brightness), ChannelWithBrightness(c.g, brightness), ChannelWithBrightness(c.b, brightness))
  }

  /** `PixelColorWithoutBrightness`: every channel times 100/brightness, truncated. */
  function PixelColorWithoutBrightness(c: PixelColor, brightness: real): PixelColor
    requires brightness != 0.0
  {
    PixelColor(ChannelWithoutBrightness(c.r, brightness), ChannelWithoutBrightness(c.g, brightness), ChannelWithoutBrightness(c.b, brightness))
  }

  /** Scaling one channel by a brightness in [0, 100] gives a value between 0
      and the channel, not above the exact product. */
  lemma ScaleChannel(x: int, brightness: real)
    requires 0 <= x && 0.0 <= brightness <= 100.0
    ensures 0 <= ChannelWithBrightness(x, brightness) <= x
    ensures ChannelWithBrightness(x, brightness) as real <= x as real * brightness / 100.0
  {
    PercentBetween(x as real, brightness);
    TruncBetween(x as real * brightness / 100.0, x);
  }

  /** Brightness 100 keeps a channel and 0 clears it. */
  lemma ScaleChannelEnds(x: int)
    requires 0 <= x
    ensures ChannelWithBrightness(x, 100.0) == x && ChannelWithBrightness(x, 0.0) == 0
  {
    assert x as real * 100.0 / 100.0 == x as real;
    TruncBetween(x as real, x);
    assert x as real * 0.0 / 100.0 == 0.0;
  }

  /** Brightness 100 is the identity, 0 gives black, and anything in between
      keeps an in-gamut colour in gamut and darkens every channel. */
  lemma BrightnessBounds(c: PixelColor, brightness: real)
    requires InGamut(c) && 0.0 <= brightness <= 100.0
    ensures var d := PixelColorWithBrightness(c, brightness);
      InGamut(d) && d.r <= c.r && d.g <= c.g && d.b <= c.b
    ensures PixelColorWithBrightness(c, 100.0) == c
    ensures PixelColorWithBrightness(c, 0.0) == BlackPixel
  {
    ScaleChannel(c.r, brightness);
    ScaleChannel(c.g, brightness);
    ScaleChannel(c.b, brightness);
    ScaleChannelEnds(c.r);
    ScaleChannelEnds(c.g);
    ScaleChannelEnds(c.b);
  }

  /** On a whole channel and a whole brightness, both nonnegative, the dimming
      is integer arithmetic: `x * brightness / 100`. */
  lemma ChannelWithBrightnessInt(x: int, brightness: int)
    requires 0 <= x && 0 <= brightness
    ensures ChannelWithBrightness(x, brightness as real) == x * brightness / 100
  {
    var n := x * brightness;
    var q, r := n / 100, n % 100;
    assert x as real * brightness as real == n as real;
    assert n as real / 100.0 == q as real + r as real / 100.0;
  }

  /** A brightness above 100 lifts a full channel out of [0, 255], which
      `Color.FromArgb` rejects; at brightness 200 a full channel becomes 510. */
  lemma BrightnessLeavesGamut(c: PixelColor, brightness: int)
    requires brightness > 100 && (c.r == 255 || c.g == 255 || c.b == 255)
    ensures !InGamut(PixelColorWithBrightness(c, brightness as real))
    ensures brightness == 200 ==> ChannelWithBrightness(255, brightness as real) == 510
  {
    ChannelWithBrightnessInt(255, brightness);
    assert 255 * brightness / 100 >= 257;
  }

  /** Undoing a brightness with the same brightness never brightens past the
      original (the truncations only lose), and at 100 it is exact. */
  lemma WithoutUndoesWith(c: PixelColor, brightness: real)
    requires InGamut(c) && 0.0 < brightness <= 100.0
    ensures var d := PixelColorWithoutBrightness(PixelColorWithBrightness(c, brightness), brightness);
      d.r <= c.r && d.g <= c.g && d.b <= c.b
    ensures PixelColorWithoutBrightness(PixelColorWithBrightness(c, 100.0), 100.0) == c
  {
    UndoChannel(c.r, brightness);
    UndoChannel(c.g, brightness);
    UndoChannel(c.b, brightness);
    UndoChannelAt100(c.r);
    UndoChannelAt100(c.g);
    UndoChannelAt100(c.b);
  }

  lemma UndoChannel(x: int, brightness: real)
    requires 0 <= x && 0.0 < brightness <= 100.0
    ensures ChannelWithoutBrightness(ChannelWithBrightness(x, brightness), brightness) <= x
  {
    var y := ChannelWithBrightness(x, brightness);
    ScaleChannel(x, brightness);
    var w := x as real * brightness / 100.0;
    assert (y * 100) as real == y as real * 100.0;
    assert w * 100.0 == x as real * brightness;
    assert y as real * 100.0 <= x as real * brightness;
    var z := (y * 100) as real / brightness;
    DivBelow(y as real * 100.0, x as real * brightness, brightness);
    DivCancel(x as real, brightness);
    TruncMonotone(z, x as real);
  }

  lemma DivCancel(a: real, k: real)
    requires k != 0.0
    ensures a * k / k == a
  {
  }

  /** p <= q * k with k > 0 gives p / k <= q. */
  lemma DivBelow(p: real, qk: real, k: real)
    requires k > 0.0 && p <= qk
    ensures p / k <= qk / k
  {
    assert p / k * k == p && qk / k * k == qk;
  }

  lemma UndoChannelAt100(x: int)
    requires 0 <= x
    ensures ChannelWithoutBrightness(ChannelWithBrightness(x, 100.0), 100.0) == x
  {
    ScaleChannelEnds(x);
    assert (x * 100) as real / 100.0 == x as real;
  }

  lemma MulRealStrict(a: real, b: real, k: real)
    requires a < b && k > 0.0
    ensures a * k < b * k
  {
  }

  // ---------------------------------------------------------------------------
  // Gradients

  /** The point a fraction `ratio` of the way from s to e. */
  function Lerp(s: int, e: int, ratio: real): real
  {
    s as real + (e - s) as real * ratio
  }

  /** Channel i of an n-step gradient from s to e (n >= 2). */
  function GradientChannel(s: int, e: int, i: int, n: int): int
    requires n >= 2
  {
    Trunc(Lerp(s, e, i as real / (n - 1) as real))
  }

  /** Entry i of an n-step gradient from `start` to `end`. */
  function GradientAt(start: PixelColor, end: PixelColor, i: int, n: int): PixelColor
    requires n >= 2
  {
    PixelColor(GradientChannel(start.r, end.r, i, n), GradientChannel(start.g, end.g, i, n), GradientChannel(start.b, end.b, i, n))
  }

  /** `GenerateGradient`: `gradientCount` colours spaced evenly from start to end.
      A count of 1 divides 0 by 0, so it is excluded, as is a negative count,
      for which the array allocation throws. */
  method GenerateGradient(start: PixelColor, end: PixelColor, gradientCount: int) returns (gradient: array<PixelColor>)
    requires gradientCount == 0 || gradientCount >= 2
    ensures gradient.Length == gradientCount
    ensures forall i :: 0 <= i < gradientCount ==> gradient[i] == GradientAt(start, end, i, gradientCount)
  {
    gradient := new PixelColor[gradientCount];
    var i := 0;
    while i < gradientCount
      invariant 0 <= i <= gradientCount
      invariant forall k :: 0 <= k < i ==> gradient[k] == GradientAt(start, end, k, gradientCount)
    {
      gradient[i] := GradientAt(start, end, i, gradientCount);
      i := i + 1;
    }
  }

  /** The first entry is the start colour and the last is the end colour. */
  lemma GradientEndpoints(start: PixelColor, end: PixelColor, n: int)
    requires n >= 2
    ensures GradientAt(start, end, 0, n) == start
    ensures GradientAt(start, end, n - 1, n) == end
  {
    var d := (n - 1) as real;
    assert (n - 1) as real / d == 1.0;
  }

  /** Along the gradient each channel moves monotonically from its start value
      to its end value, so it always lies between the two. */
  lemma GradientChannelMonotone(s: int, e: int, i: int, j: int, n: int)
    requires n >= 2 && 0 <= i <= j <= n - 1
    ensures s <= e ==> s <= GradientChannel(s, e, i, n) <= GradientChannel(s, e, j, n) <= e
    ensures s >= e ==> s >= GradientChannel(s, e, i, n) >= GradientChannel(s, e, j, n) >= e
  {
    var d := (n - 1) as real;
    var ri, rj := i as real / d, j as real / d;
    RatioMonotone(i as real, j as real, d);
    LerpMonotone(s, e, ri, rj);
    var ci, cj := Lerp(s, e, ri), Lerp(s, e, rj);
    if s <= e {
      TruncMonotone(s as real, ci);
      TruncMonotone(ci, cj);
      TruncMonotone(cj, e as real);
    } else {
      TruncMonotone(ci, s as real);
      TruncMonotone(cj, ci);
      TruncMonotone(e as real, cj);
    }
  }

  lemma LerpMonotone(s: int, e: int, ri: real, rj: real)
    requires 0.0 <= ri <= rj <= 1.0
    ensures s <= e ==> s as real <= Lerp(s, e, ri) <= Lerp(s, e, rj) <= e as real
    ensures s >= e ==> s as real >= Lerp(s, e, ri) >= Lerp(s, e, rj) >= e as real
  {
    ScaleMonotone((e - s) as real, ri, rj);
  }

  lemma RatioMonotone(a: real, b: real, d: real)
    requires 0.0 <= a <= b <= d && d > 0.0
    ensures 0.0 <= a / d <= b / d <= 1.0
  {
    RatioInUnit(a, d);
    RatioInUnit(b, d);
    assert a / d * d == a && b / d * d == b;
    if a / d > b / d {
      MulRealStrict(b / d, a / d, d);
    }
  }

  lemma ScaleMonotone(x: real, ri: real, rj: real)
    requires 0.0 <= ri <= rj <= 1.0
    ensures x >= 0.0 ==> 0.0 <= x * ri <= x * rj <= x
    ensures x <= 0.0 ==> 0.0 >= x * ri >= x * rj >= x
  {
  }

  /** Gradient entries between in-gamut endpoints are in gamut. */
  lemma GradientInGamut(start: PixelColor, end: PixelColor, i: int, n: int)
    requires n >= 2 && 0 <= i < n && InGamut(start) && InGamut(end)
    ensures InGamut(GradientAt(start, end, i, n))
  {
    GradientChannelMonotone(start.r, end.r, i, i, n);
    GradientChannelMonotone(start.g, end.g, i, i, n);
    GradientChannelMonotone(start.b, end.b, i, i, n);
  }
}
