/** The LED matrix of the oldest ESP32 build (SpectrumAnalyzer/LedMatrix.h): a
    fixed 10 x 10 matrix whose pixel buffer, bar colours and peak settings are
    globals. Its peak logic differs from the reference step in three ways: a
    re-arm keeps the old fall timer, every call advances the fall and the wait
    of every column rather than the one drawn, and the wait is pulled back to
    the increment whenever it leaves [increment, maximum wait]. `millis()` is
    read once per column; the readings are the parameter `nows`. */
module LegacyLedMatrix {
  import opened Prelude
  import PeakHold
  import LedMatrix

  type Crgb = LedMatrix.Crgb

  /** `G_NUM_LEVELS`, `G_NUM_BANDS` and `G_NUM_LEDS`. */
  const NumLevels: int := 10
  const NumBands: int := 10
  const NumLeds: int := NumBands * NumLevels

  /** The `ColPeak` struct of this build: an `uint8_t` row, an `uint16_t` wait
      and `uint64_t` times (the unused `col` member is left out). */
  datatype OldPeak = OldPeak(row: U8, curWait: U16, curMillis: U64, prevMillis: U64)

  const ZeroPeak: OldPeak := OldPeak(0, 0, 0, 0)

  /** `xyToIndex`: x * G_NUM_LEVELS + y. */
  function XyToIndex(x: int, y: int): (i: int)
    ensures 0 <= x < NumBands && 0 <= y < NumLevels ==> 0 <= i < NumLeds
  {
    LedMatrix.XyToIndex(x, y, NumLevels)
  }

  /** The layout is a bijection between positions and LED indices. */
  lemma IndexBijection(x: int, y: int, i: int)
    requires 0 <= x < NumBands && 0 <= y < NumLevels && 0 <= i < NumLeds
    ensures XyToIndex(x, y) == i <==> x == i / NumLevels && y == i % NumLevels
  {
    LedMatrix.IndexParts(x, y, NumLevels);
  }

  /** The re-arm of `setLEDColPeak`: the row rises to the value, clamped to
      the top row, and the wait is restored; the fall timer is not touched. */
  function Rearmed(p: OldPeak, value: U8, maxWait: U16): OldPeak
  {
    if value > p.row then p.(row := if value > NumLevels - 1 then NumLevels - 1 else value, curWait := maxWait) else p
  }

  /** The fall and wait update the loop applies to every column: once the
      wait has elapsed the row drops if it can and the timer restarts in any
      case; the wait shrinks by the increment in `uint16_t` and is reset to the
      increment when it is below it or above the maximum. */
  function Advanced(p: OldPeak, now: U32, maxWait: U16, increment: U16): OldPeak
  {
    var q := p.(curMillis := now);
    var f := if SubU64(q.curMillis, q.prevMillis) >= q.curWait
      then q.(row := if q.row > 0 then q.row - 1 else q.row, prevMillis := q.curMillis) else q;
    var w := WrapU16(f.curWait - increment);
    f.(curWait := if w < increment || w > maxWait then increment else w)
  }

  /** The peak records after `setLEDColPeak(col, value)`. */
  function PeaksAfter(peaks: seq<OldPeak>, col: int, value: U8, nows: seq<U32>, maxWait: U16, increment: U16): (r: seq<OldPeak>)
    requires |peaks| == NumBands && |nows| == NumBands
    ensures |r| == NumBands
  {
    seq(NumBands, x requires 0 <= x < NumBands =>
      Advanced(if x == col then Rearmed(peaks[x], value, maxWait) else peaks[x], nows[x], maxWait, increment))
  }

  // ---------------------------------------------------------------------------
  // Properties

  /** Whatever the wait was, after a call it lies in [increment, maximum]
      when the increment does not exceed the maximum; the reset catches the
      `uint16_t` wrap-around. */
  lemma AdvancedWaitInRange(p: OldPeak, now: U32, maxWait: U16, increment: U16)
    requires increment <= maxWait
    ensures increment <= Advanced(p, now, maxWait, increment).curWait <= maxWait
  {
  }

  /** The held row never rises by falling and stays on the matrix. */
  lemma AdvancedRow(p: OldPeak, now: U32, maxWait: U16, increment: U16)
    requires p.row < NumLevels
    ensures var q := Advanced(p, now, maxWait, increment); q.row <= p.row && (q.row == p.row || q.row == p.row - 1)
    ensures Rearmed(p, 200, maxWait).row == NumLevels - 1
  {
  }

  /** A column that is not re-armed, sits above the bottom and has a wait
      within [increment, increment + maximum] moves exactly as the reference
      step moves it, as long as the clock has not wrapped. */
  lemma AdvancedIsStep(p: OldPeak, now: U32, maxWait: U16, increment: U16, rows: int)
    requires p.row > 0 && now >= p.prevMillis
    requires increment <= p.curWait && p.curWait - increment <= maxWait
    ensures var r := Advanced(p, now, maxWait, increment);
      PeakHold.ColPeak(r.row, r.curWait, r.curMillis, r.prevMillis)
      == PeakHold.Step(PeakHold.ColPeak(p.row, p.curWait, p.curMillis, p.prevMillis), 0, rows, maxWait, increment, now)
  {
  }

  /** Unlike the reference step, a re-armed peak can fall in the very call
      that re-arms it, because its fall timer is still the old one: a peak
      resting at the bottom since time 0 and re-armed to row 5 at 2000 ms
      shows at row 5 but is stored at row 4. The reference step keeps it at 5. */
  lemma RearmKeepsOldTimer()
    ensures var p := Advanced(Rearmed(ZeroPeak, 5, 1500), 2000, 1500, 25);
      p.row == 4 && p.prevMillis == 2000
    ensures PeakHold.Step(PeakHold.Initial, 5, NumLevels, 1500, 25, 2000).row == 5
  {
  }

  /** Unlike the reference step, the timer restarts at the bottom too. */
  lemma BottomRestartsTimer(p: OldPeak, now: U32, maxWait: U16, increment: U16)
    requires p.row == 0 && SubU64(now, p.prevMillis) >= p.curWait
    ensures Advanced(p, now, maxWait, increment).prevMillis == now
    ensures Advanced(p, now, maxWait, increment).row == 0
  {
  }

  /** A call for one column moves the others too: a column that is not drawn
      still falls once its wait has elapsed. */
  lemma OtherColumnsFall(peaks: seq<OldPeak>, col: int, value: U8, nows: seq<U32>, maxWait: U16, increment: U16, x: int)
    requires |peaks| == NumBands && |nows| == NumBands && 0 <= x < NumBands && x != col
    requires peaks[x].row > 0 && SubU64(nows[x], peaks[x].prevMillis) >= peaks[x].curWait
    ensures PeaksAfter(peaks, col, value, nows, maxWait, increment)[x].row == peaks[x].row - 1
  {
  }

  // ---------------------------------------------------------------------------
  // The matrix

  class Matrix {
    /** `LEDs`, the FastLED buffer. */
    const leds: array<Crgb>
    /** `g_ledColors`. */
    const ledColors: array<Crgb>
    const colPeaks: array<OldPeak>
    /** `g_peakColor`, `g_maxPeakFallingWait` and `g_peakFallingIntervalIncrement`. */
    var peakColor: Crgb
    var maxPeakFallingWait: U16
    var peakFallingIntervalIncrement: U16

    ghost predicate Valid()
      reads this, colPeaks
    {
      leds.Length == NumLeds && ledColors.Length == NumLeds && colPeaks.Length == NumBands
      && leds != ledColors
      && forall x :: 0 <= x < NumBands ==> colPeaks[x].row < NumLevels
    }

    /** The static matrix: zeroed peak records, the default hues (through the
        `CHSV` parameter `hueColor`), the global defaults and a cleared buffer. */
    constructor(hueColor: int -> Crgb)
      ensures Valid()
      ensures forall x :: 0 <= x < NumBands ==> colPeaks[x] == ZeroPeak
      ensures forall i :: 0 <= i < NumLeds ==> leds[i] == LedMatrix.Black
      ensures forall i :: 0 <= i < NumLeds ==> ledColors[i] == hueColor(LedMatrix.DefaultHue(i % NumLevels, NumLevels))
      ensures peakColor == LedMatrix.Crgb(255, 255, 255)
      ensures maxPeakFallingWait == 1500 && peakFallingIntervalIncrement == 25
    {
      var colors := new Crgb[NumLeds](_ => LedMatrix.Black);
      for x := 0 to NumBands
        invariant forall i :: 0 <= i < x * NumLevels ==> colors[i] == hueColor(LedMatrix.DefaultHue(i % NumLevels, NumLevels))
      {
        for y := 0 to NumLevels
          invariant forall i :: 0 <= i < x * NumLevels + y ==> colors[i] == hueColor(LedMatrix.DefaultHue(i % NumLevels, NumLevels))
        {
          LedMatrix.IndexParts(x, y, NumLevels);
          colors[XyToIndex(x, y)] := hueColor(LedMatrix.DefaultHue(y, NumLevels));
        }
      }
      ledColors := colors;
      colPeaks := new OldPeak[NumBands](_ => ZeroPeak);
      leds := new Crgb[NumLeds](_ => LedMatrix.Black);
      peakColor := LedMatrix.Crgb(255, 255, 255);
      maxPeakFallingWait := 1500;
      peakFallingIntervalIncrement := 25;
    }

    /** `setLEDColumn`: row y of the column shows its colour when y < value
        and is dark otherwise; every other LED is left alone. */
    method SetLEDColumn(col: int, value: U8)
      requires Valid() && 0 <= col < NumBands
      modifies leds
      ensures forall y :: 0 <= y < NumLevels ==>
        leds[XyToIndex(col, y)] == if y < value then ledColors[XyToIndex(col, y)] else LedMatrix.Black
      ensures forall i :: 0 <= i < NumLeds && i / NumLevels != col ==> leds[i] == old(leds[i])
    {
      var base := XyToIndex(col, 0);
      var topRowIndex := NumLevels - 1;
      var y := 0;
      while y <= topRowIndex
        invariant 0 <= y <= NumLevels
        invariant forall i :: base <= i < base + y ==> leds[i] == if i - base < value then ledColors[i] else LedMatrix.Black
        invariant forall i :: 0 <= i < NumLeds && !(base <= i < base + y) ==> leds[i] == old(leds[i])
      {
        if y > value - 1 {
          leds[base + y] := LedMatrix.Black;
        } else {
          leds[base + y] := ledColors[base + y];
        }
        y := y + 1;
      }
    }

    /** `setLEDColPeak`: the column is re-armed, the LED of its row shows the
        peak colour above the bottom and goes dark at it, and then every
        column falls and updates its wait by `Advanced`. */
    method SetLEDColPeak(col: int, value: U8, nows: seq<U32>)
      requires Valid() && 0 <= col < NumBands && |nows| == NumBands
      modifies colPeaks, leds
      ensures Valid()
      ensures colPeaks[..] == PeaksAfter(old(colPeaks[..]), col, value, nows, maxPeakFallingWait, peakFallingIntervalIncrement)
      ensures var row := Rearmed(old(colPeaks[col]), value, maxPeakFallingWait).row;
        leds[..] == old(leds[..])[XyToIndex(col, row) := if row > 0 then peakColor else LedMatrix.Black]
    {
      ghost var before := colPeaks[..];
      RearmAndPaint(col, value);
      ghost var painted := leds[..];
      for x := 0 to NumBands
        invariant leds[..] == painted
        invariant forall c :: 0 <= c < x ==> colPeaks[c] == PeaksAfter(before, col, value, nows, maxPeakFallingWait, peakFallingIntervalIncrement)[c]
        invariant forall c :: x <= c < NumBands ==> colPeaks[c] == if c == col then Rearmed(before[c], value, maxPeakFallingWait) else before[c]
        invariant forall c :: 0 <= c < NumBands ==> colPeaks[c].row < NumLevels
      {
        AdvancePeak(x, nows[x]);
      }
    }

    /** The first half of `setLEDColPeak`: the re-arm of column `col` and its LED. */
    method RearmAndPaint(col: int, value: U8)
      requires Valid() && 0 <= col < NumBands
      modifies colPeaks, leds
      ensures Valid()
      ensures colPeaks[col] == Rearmed(old(colPeaks[col]), value, maxPeakFallingWait)
      ensures forall c :: 0 <= c < NumBands && c != col ==> colPeaks[c] == old(colPeaks[c])
      ensures var row := colPeaks[col].row;
        leds[..] == old(leds[..])[XyToIndex(col, row) := if row > 0 then peakColor else LedMatrix.Black]
    {
      var topRowIndex := NumLevels - 1;
      var p := colPeaks[col];
      if value > p.row {
        p := p.(row := value);
        if p.row > topRowIndex {
          p := p.(row := topRowIndex);
        }
        p := p.(curWait := maxPeakFallingWait);
      }
      colPeaks[col] := p;
      if p.row > 0 {
        leds[XyToIndex(col, p.row)] := peakColor;
      } else {
        leds[XyToIndex(col, p.row)] := LedMatrix.Black;
      }
    }

    /** The body of the fall loop for column x. */
    method AdvancePeak(x: int, now: U32)
      requires 0 <= x < colPeaks.Length
      modifies colPeaks
      ensures colPeaks[x] == Advanced(old(colPeaks[x]), now, maxPeakFallingWait, peakFallingIntervalIncrement)
      ensures colPeaks[x].row <= old(colPeaks[x].row)
      ensures forall c :: 0 <= c < colPeaks.Length && c != x ==> colPeaks[c] == old(colPeaks[c])
    {
      var p := colPeaks[x];
      p := p.(curMillis := now);
      if SubU64(p.curMillis, p.prevMillis) >= p.curWait {
        if p.row > 0 {
          p := p.(row := p.row - 1);
        }
        p := p.(prevMillis := p.curMillis);
      }
      p := p.(curWait := WrapU16(p.curWait - peakFallingIntervalIncrement));
      if p.curWait < peakFallingIntervalIncrement || p.curWait > maxPeakFallingWait {
        p := p.(curWait := peakFallingIntervalIncrement);
      }
      colPeaks[x] := p;
    }
  }
}
