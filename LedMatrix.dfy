/** The WS2812B LED matrix of the current ESP32 build (new_version/src/LedMatrix.cpp).
    The matrix keeps three buffers: the FastLED pixel buffer `_LEDs`, the
    per-pixel bar colours `_ledColors` and one peak record per column, all
    indexed column-major through `xyToIndex`. Pushing the buffer to the strip
    (`FastLED.show`, brightness and power limits) is left out; the millisecond
    clock is a parameter, read once per call. */
module LedMatrix {
  import opened Prelude
  import PeakHold
  import Levels

  /** FastLED's `CRGB`: three `uint8_t` channels. */
  datatype Crgb = Crgb(r: U8, g: U8, b: U8)

  const Black: Crgb := Crgb(0, 0, 0)

  /** The `ColPeak` struct of Esp32SpectrumAnalyzer/src/LedMatrix.h: the row and
      the wait are `unsigned short`, the two times `unsigned long`. Its `col`
      member is never read and is left out. */
  datatype LedPeak = LedPeak(row: U16, curWait: U16, curMillis: U32, prevMillis: U32)

  /** A value-initialised record (`new ColPeak[n] {}`). */
  const ZeroPeak: LedPeak := LedPeak(0, 0, 0, 0)

  // ---------------------------------------------------------------------------
  // Layout

  /** `xyToIndex`: the LEDs of column x are the `rows` consecutive entries
      from x * rows, bottom row first. */
  function XyToIndex(x: int, y: int, rows: int): int
  {
    x * rows + y
  }

  /** Every position of a `rows` x `cols` matrix has an index below rows * cols. */
  lemma IndexInRange(x: int, y: int, rows: int, cols: int)
    requires 0 <= x < cols && 0 <= y < rows
    ensures 0 <= XyToIndex(x, y, rows) < rows * cols
  {
    assert x * rows + rows <= cols * rows by {
      MulMonotone(rows, x + 1, cols);
    }
  }

  /** Two positions share an index only if they are the same position. */
  lemma IndexInjective(x1: int, y1: int, x2: int, y2: int, rows: int)
    requires 0 <= x1 && 0 <= x2 && 0 <= y1 < rows && 0 <= y2 < rows
    requires XyToIndex(x1, y1, rows) == XyToIndex(x2, y2, rows)
    ensures x1 == x2 && y1 == y2
  {
    IndexParts(x1, y1, rows);
    IndexParts(x2, y2, rows);
  }

  /** Every index below rows * cols is the index of a position. */
  lemma IndexOnto(i: int, rows: int, cols: int)
    requires rows > 0 && 0 <= i < rows * cols
    ensures 0 <= i / rows < cols && 0 <= i % rows < rows
    ensures XyToIndex(i / rows, i % rows, rows) == i
  {
    if i / rows >= cols {
      MulMonotone(rows, cols, i / rows);
    }
  }

  /** The column and the row are read back from an index by division. */
  lemma IndexParts(x: int, y: int, rows: int)
    requires 0 <= x && 0 <= y < rows
    ensures XyToIndex(x, y, rows) / rows == x && XyToIndex(x, y, rows) % rows == y
  {
    var i := x * rows + y;
    var q, r := i / rows, i % rows;
    assert rows * q + r == rows * x + y;
    if q < x {
      MulMonotone(rows, q + 1, x);
    } else if q > x {
      MulMonotone(rows, x + 1, q);
    }
  }

  lemma MulMonotone(d: int, x: int, y: int)
    requires d > 0 && x <= y
    ensures d * x <= d * y
  {
  }

  /** The hue of row y in the default colours: `map(y, 0, rows, 100, 1)`,
      from 100 at the bottom toward 1 at the top. */
  function DefaultHue(y: int, rows: int): int
    requires rows > 0
  {
    Levels.Map(y, 0, rows, 100, 1)
  }

  /** The default hues lie in [1, 100] and never rise with the row. */
  lemma DefaultHueRange(y: int, rows: int)
    requires 0 <= y < rows
    ensures 1 <= DefaultHue(y, rows) <= 100
    ensures y + 1 < rows ==> DefaultHue(y + 1, rows) <= DefaultHue(y, rows)
  {
    DefaultHueFormula(y, rows);
    HueQuotient(y, rows);
    if y + 1 < rows {
      DefaultHueFormula(y + 1, rows);
      HueQuotientStep(y, rows);
    }
  }

  lemma HueQuotient(y: int, rows: int)
    requires 0 <= y < rows
    ensures 0 <= 99 * y / rows <= 99
  {
    var a, c := 99 * y, 99 * rows;
    DivMonotone(a, c, rows);
    assert c / rows == 99;
  }

  lemma HueQuotientStep(y: int, rows: int)
    requires 0 <= y < rows
    ensures 99 * y / rows <= 99 * (y + 1) / rows
  {
    var a := 99 * y;
    assert 99 * (y + 1) == a + 99;
    DivMonotone(a, a + 99, rows);
  }

  lemma DefaultHueFormula(y: int, rows: int)
    requires 0 <= y && rows > 0
    ensures DefaultHue(y, rows) == 100 - 99 * y / rows
  {
    assert (y - 0) * (1 - 100) == -(99 * y);
    CDivNegate(99 * y, rows);
  }

  // ---------------------------------------------------------------------------
  // The peak wait

  /** The wait update of `setLEDColPeak` as written: the increment is
      subtracted in `unsigned short`, which wraps below zero, and only then
      floored at the increment. */
  function WrappedWait(curWait: U16, increment: U16): (w: U16)
  {
    var d := WrapU16(curWait - increment);
    if d < increment then increment else d
  }

  /** The wait update the floor is there for: the wait shrinks by the
      increment but not below it, as in every other peak step. */
  function NextWait(curWait: U16, increment: U16): (w: U16)
    ensures w >= increment && (w == increment || w == curWait - increment)
  {
    if curWait - increment < increment then increment else curWait - increment
  }

  /** The two agree exactly when nothing wraps, that is, when the wait was
      already at least the increment. */
  lemma WaitsAgreeWithoutWrap(curWait: U16, increment: U16)
    requires curWait >= increment
    ensures WrappedWait(curWait, increment) == NextWait(curWait, increment)
  {
  }

  /** The wrap escapes the floor: after a re-arm with a maximum wait of 10 and
      an increment of 25 the wait becomes 65521 ms instead of 25, and a record
      still at its zero initial value gets 65511 ms. */
  lemma WrappedWaitEscapesFloor()
    ensures WrappedWait(10, 25) == 65521 && NextWait(10, 25) == 25
    ensures WrappedWait(0, 25) == 65511 && NextWait(0, 25) == 25
  {
  }

  /** Any wait below a nonzero increment wraps to a value far above the
      increment: the floor never fires for it. */
  lemma WrappedWaitAboveFloor(curWait: U16, increment: U16)
    requires curWait < increment < 0x8000
    ensures WrappedWait(curWait, increment) == curWait - increment + 0x1_0000
    ensures WrappedWait(curWait, increment) > NextWait(curWait, increment)
  {
  }

  /** The wait update agrees with the reference peak step's countdown. */
  lemma NextWaitIsAccelerate(curWait: U16, increment: U16)
    ensures NextWait(curWait, increment) == PeakHold.Accelerate(PeakHold.ColPeak(0, curWait, 0, 0), increment).curWait
  {
  }

  // ---------------------------------------------------------------------------
  // The peak step

  /** The re-arm of `setLEDColPeak`: a value above the held row moves the peak
      up to it, clamped to the top row, restarts both times and restores the
      full wait. */
  function Rearmed(p: LedPeak, value: U16, rows: int, maxWait: U16, now: U32): (r: LedPeak)
    requires 1 <= rows <= 0x1_0000
    ensures p.row < rows ==> r.row < rows
  {
    if value > p.row then LedPeak(if value > rows - 1 then rows - 1 else value, maxWait, now, now) else p
  }

  /** One call of `setLEDColPeak` on a column's record, with the wait
      floored (see `WrappedWait` for the update as written). The elapsed time
      is an `unsigned long` difference, which wraps with the clock. */
  function PeakStep(p: LedPeak, value: U16, rows: int, maxWait: U16, increment: U16, now: U32): (r: LedPeak)
    requires 1 <= rows <= 0x1_0000
  {
    var q := Rearmed(p, value, rows, maxWait, now).(curMillis := now);
    var f := if SubU32(q.curMillis, q.prevMillis) >= q.curWait && q.row > 0
      then q.(row := q.row - 1, prevMillis := q.curMillis) else q;
    f.(curWait := NextWait(f.curWait, increment))
  }

  /** The record as the reference peak step sees it. */
  function Lift(p: LedPeak): PeakHold.ColPeak
  {
    PeakHold.ColPeak(p.row, p.curWait, p.curMillis, p.prevMillis)
  }

  /** While the clock has not wrapped since the last fall, a call is exactly
      one step of the reference peak machine. */
  lemma PeakStepIsStep(p: LedPeak, value: U16, rows: int, maxWait: U16, increment: U16, now: U32)
    requires 1 <= rows <= 0x1_0000 && now >= p.prevMillis
    ensures Lift(PeakStep(p, value, rows, maxWait, increment, now)) == PeakHold.Step(Lift(p), value, rows, maxWait, increment, now)
  {
  }

  /** The held row stays on the matrix, and the wait never drops below the increment. */
  lemma PeakStepInRange(p: LedPeak, value: U16, rows: int, maxWait: U16, increment: U16, now: U32)
    requires 1 <= rows <= 0x1_0000 && p.row < rows
    ensures PeakStep(p, value, rows, maxWait, increment, now).row < rows
    ensures PeakStep(p, value, rows, maxWait, increment, now).curWait >= increment
  {
  }

  /** The strip after `setLEDColumn(col, value)`: the LEDs of column `col`
      show their stored colour below `value` and are dark from there up;
      every other LED keeps its colour. */
  function ColumnBar(leds: seq<Crgb>, colors: seq<Crgb>, col: int, rows: int, value: int): (r: seq<Crgb>)
    requires |colors| == |leds|
    ensures |r| == |leds|
  {
    seq(|leds|, i requires 0 <= i < |leds| =>
      if col * rows <= i < col * rows + rows then (if i - col * rows < value then colors[i] else Black) else leds[i])
  }

  /** Row y of the drawn column is lit exactly when y < value, and no LED
      outside the column changes. */
  lemma ColumnBarShows(leds: seq<Crgb>, colors: seq<Crgb>, col: int, rows: int, cols: int, value: int)
    requires |colors| == |leds| == rows * cols && 0 <= col < cols
    ensures forall y :: 0 <= y < rows ==>
      0 <= XyToIndex(col, y, rows) < |leds|
      && ColumnBar(leds, colors, col, rows, value)[XyToIndex(col, y, rows)] == if y < value then colors[XyToIndex(col, y, rows)] else Black
    ensures forall i :: 0 <= i < |leds| && !(col * rows <= i < col * rows + rows) ==> ColumnBar(leds, colors, col, rows, value)[i] == leds[i]
  {
    forall y | 0 <= y < rows
      ensures 0 <= XyToIndex(col, y, rows) < |leds|
    {
      IndexInRange(col, y, rows, cols);
    }
  }

  /** The colour `setLEDColPeak` gives the cell of the held row. */
  function PeakPixel(row: int, peakColor: Crgb): Crgb
  {
    if row > 0 then peakColor else Black
  }

  // ---------------------------------------------------------------------------
  // The matrix

  class Matrix {
    const rows: int
    const cols: int
    /** `_LEDs`: the FastLED pixel buffer. */
    const leds: array<Crgb>
    /** `_ledColors`: the colour each pixel shows when it is lit. */
    const ledColors: array<Crgb>
    const colPeaks: array<LedPeak>
    var brightness: U16
    var peakColor: Crgb
    var maxPeakFallingWait: U16
    var peakFallingIntervalIncrement: U16

    /** The buffers have one entry per LED (rows * cols, which must fit the
        `unsigned short` count), one peak record per column, and every held
        row is on the matrix. */
    ghost predicate Valid()
      reads this, colPeaks
    {
      1 <= rows < 0x1_0000 && 0 <= cols && rows * cols < 0x1_0000
      && leds.Length == rows * cols && ledColors.Length == rows * cols && colPeaks.Length == cols
      && leds != ledColors
      && (forall x, y :: 0 <= x < cols && 0 <= y < rows ==> 0 <= XyToIndex(x, y, rows) < rows * cols)
      && forall c :: 0 <= c < cols ==> colPeaks[c].row < rows
    }

    /** A new matrix: default settings, the default hue gradient in every
        column, all peak records zero and all LEDs dark. `CHSV` is the
        parameter `hueColor`. A matrix needs a row: with none, the top row
        index wraps and the column loop never ends. */
    constructor(numberOfRows: U16, numberOfCols: U16, hueColor: int -> Crgb)
      requires 1 <= numberOfRows && numberOfRows * numberOfCols < 0x1_0000
      ensures Valid()
      ensures rows == numberOfRows && cols == numberOfCols
      ensures fresh(leds) && fresh(ledColors) && fresh(colPeaks)
      ensures brightness == 20 && peakColor == Crgb(255, 255, 255)
      ensures maxPeakFallingWait == 1500 && peakFallingIntervalIncrement == 25
      ensures forall c :: 0 <= c < cols ==> colPeaks[c] == ZeroPeak
      ensures forall i :: 0 <= i < leds.Length ==> leds[i] == Black
      ensures forall i :: 0 <= i < ledColors.Length ==> ledColors[i] == hueColor(DefaultHue(i % rows, rows))
    {
      rows := numberOfRows;
      cols := numberOfCols;
      var n := numberOfRows * numberOfCols;
      brightness := 20;
      colPeaks := new LedPeak[numberOfCols](_ => ZeroPeak);
      peakColor := Crgb(255, 255, 255);
      maxPeakFallingWait := 1500;
      peakFallingIntervalIncrement := 25;
      ledColors := new Crgb[n](_ => Black);
      leds := new Crgb[n](_ => Black);
      new;
      forall x, y | 0 <= x < cols && 0 <= y < rows
        ensures 0 <= XyToIndex(x, y, rows) < rows * cols
      {
        IndexInRange(x, y, rows, cols);
      }
      SetupLedDefaultColors(hueColor);
      ClearMatrix();
    }

    /** `setupLedDefaultColors`: column by column, row y gets the colour of
        `DefaultHue(y)`. */
    method SetupLedDefaultColors(hueColor: int -> Crgb)
      requires 1 <= rows && 0 <= cols && ledColors.Length == rows * cols
      modifies ledColors
      ensures forall i :: 0 <= i < ledColors.Length ==> ledColors[i] == hueColor(DefaultHue(i % rows, rows))
    {
      for x := 0 to cols
        invariant forall i :: 0 <= i < x * rows ==> ledColors[i] == hueColor(DefaultHue(i % rows, rows))
      {
        IndexInRange(x, rows - 1, rows, cols);
        for y := 0 to rows
          invariant forall i :: 0 <= i < x * rows + y ==> ledColors[i] == hueColor(DefaultHue(i % rows, rows))
        {
          IndexParts(x, y, rows);
          ledColors[XyToIndex(x, y, rows)] := hueColor(DefaultHue(y, rows));
        }
        assert x * rows + rows == (x + 1) * rows;
      }
    }

    /** `clearMatrix`: every LED goes dark. */
    method ClearMatrix()
      modifies leds
      ensures forall i :: 0 <= i < leds.Length ==> leds[i] == Black
    {
      for i := 0 to leds.Length
        invariant forall j :: 0 <= j < i ==> leds[j] == Black
      {
        leds[i] := Black;
      }
    }

    /** `setLEDColumn`: row y of column `col` shows its stored colour when
        y < value and is dark otherwise (value 0 blanks the column, since
        `value - 1` is computed in `int`); every other LED is left alone. */
    method SetLEDColumn(col: int, value: U16)
      requires Valid() && 0 <= col < cols
      modifies leds
      ensures leds[..] == ColumnBar(old(leds[..]), ledColors[..], col, rows, value)
    {
      IndexInRange(col, rows - 1, rows, cols);
      var base := XyToIndex(col, 0, rows);
      var topRowIndex := rows - 1;
      var y := 0;
      while y <= topRowIndex
        invariant 0 <= y <= rows
        invariant forall i :: base <= i < base + y ==> leds[i] == if i - base < value then ledColors[i] else Black
        invariant forall i :: 0 <= i < leds.Length && !(base <= i < base + y) ==> leds[i] == old(leds[i])
      {
        if y > value - 1 {
          leds[base + y] := Black;
        } else {
          leds[base + y] := ledColors[base + y];
        }
        y := y + 1;
      }
      assert forall i :: 0 <= i < leds.Length ==> leds[..][i] == ColumnBar(old(leds[..]), ledColors[..], col, rows, value)[i];
    }

    /** `setLEDColPeak`: the column's record takes one `PeakStep`, and the
        LED of the re-armed row shows the peak colour when that row is above
        the bottom and goes dark otherwise; nothing else changes. */
    method SetLEDColPeak(col: int, value: U16, now: U32)
      requires Valid() && 0 <= col < cols
      modifies colPeaks, leds
      ensures Valid()
      ensures colPeaks[col] == PeakStep(old(colPeaks[col]), value, rows, maxPeakFallingWait, peakFallingIntervalIncrement, now)
      ensures forall c :: 0 <= c < cols && c != col ==> colPeaks[c] == old(colPeaks[c])
      ensures var row := Rearmed(old(colPeaks[col]), value, rows, maxPeakFallingWait, now).row;
        leds[..] == old(leds[..])[XyToIndex(col, row, rows) := PeakPixel(row, peakColor)]
    {
      var p := colPeaks[col];
      var topRowIndex := rows - 1;
      if value > p.row {
        p := p.(row := value);
        if p.row > topRowIndex {
          p := p.(row := topRowIndex);
        }
        p := p.(curMillis := now, prevMillis := now);
        p := p.(curWait := maxPeakFallingWait);
      }
      IndexInRange(col, p.row, rows, cols);
      if p.row > 0 {
        leds[XyToIndex(col, p.row, rows)] := peakColor;
      } else {
        leds[XyToIndex(col, p.row, rows)] := Black;
      }
      p := p.(curMillis := now);
      if SubU32(p.curMillis, p.prevMillis) >= p.curWait {
        if p.row > 0 {
          p := p.(row := p.row - 1, prevMillis := p.curMillis);
        }
      }
      p := p.(curWait := NextWait(p.curWait, peakFallingIntervalIncrement));
      colPeaks[col] := p;
    }

    /** `setPixelColor`: only the colour at `index` changes. */
    method SetPixelColor(index: U16, value: Crgb)
      requires index < ledColors.Length
      modifies ledColors
      ensures ledColors[..] == old(ledColors[..])[index := value]
    {
      ledColors[index] := value;
    }

    /** `setBrightness`: the brightness is stored as given. */
    method SetBrightness(value: U16)
      requires Valid()
      modifies this
      ensures Valid() && brightness == value
      ensures peakColor == old(peakColor) && maxPeakFallingWait == old(maxPeakFallingWait)
      ensures peakFallingIntervalIncrement == old(peakFallingIntervalIncrement)
    {
      brightness := value;
    }

    /** `setPeakColor`: the peak colour is stored as given. */
    method SetPeakColor(value: Crgb)
      requires Valid()
      modifies this
      ensures Valid() && peakColor == value
      ensures brightness == old(brightness) && maxPeakFallingWait == old(maxPeakFallingWait)
      ensures peakFallingIntervalIncrement == old(peakFallingIntervalIncrement)
    {
      peakColor := value;
    }

    /** `setMaxPeakFallingWait`: any wait is stored, including one below the
        increment, which the wrapping update as written lets escape its floor
        (`WrappedWaitEscapesFloor`). */
    method SetMaxPeakFallingWait(value: U16)
      requires Valid()
      modifies this
      ensures Valid() && maxPeakFallingWait == value
      ensures brightness == old(brightness) && peakColor == old(peakColor)
      ensures peakFallingIntervalIncrement == old(peakFallingIntervalIncrement)
    {
      maxPeakFallingWait := value;
    }

    /** `setPeakFallingIntervalIncrement`: the increment is stored as given. */
    method SetPeakFallingIntervalIncrement(value: U16)
      requires Valid()
      modifies this
      ensures Valid() && peakFallingIntervalIncrement == value
      ensures brightness == old(brightness) && peakColor == old(peakColor)
      ensures maxPeakFallingWait == old(maxPeakFallingWait)
    {
      peakFallingIntervalIncrement := value;
    }

    /** `setLEDColors`: the first rows * cols colours of `value` are copied. */
    method SetLEDColors(value: seq<Crgb>)
      requires Valid() && |value| >= rows * cols
      modifies ledColors
      ensures ledColors[..] == value[..rows * cols]
    {
      var noOfLeds := cols * rows;
      for i := 0 to noOfLeds
        invariant ledColors[..i] == value[..i]
      {
        ledColors[i] := value[i];
        assert ledColors[..i + 1] == ledColors[..i] + [ledColors[i]];
      }
      assert ledColors[..] == ledColors[..noOfLeds];
    }
  }
}
