/** The LED server of the current ESP32 build (new_version/src/LedServer.cpp):
    each frame's bands are attenuated into [0, 1], smoothed against the
    previous frame, turned into column heights and drawn on the LED matrix
    with their peaks. The server's static settings (`_speedFilter`,
    `_attenuationFactor`, `_clientsPaused`) are fields of the one server
    object; the web routes that change them, the Wi-Fi thread and
    `updateLEDs` (the push to the strip) are left out. */
module LedServer {
  import opened Prelude
  import Levels
  import RpiAnalyzer
  import LedMatrix

  /** `highestBand`: starts at 0 and is replaced by every band strictly above it. */
  function Largest(s: seq<real>): (m: real)
    ensures m >= 0.0 && forall i :: 0 <= i < |s| ==> s[i] <= m
    ensures m == 0.0 || exists i :: 0 <= i < |s| && s[i] == m
    decreases |s|
  {
    if |s| == 0 then 0.0
    else
      var m := Largest(s[..|s| - 1]);
      if s[|s| - 1] > m then s[|s| - 1] else m
  }

  /** The divisor of `attenuateBands`: the larger of the highest band and the
      attenuation factor. */
  function Divisor(s: seq<real>, factor: real): real
  {
    MaxReal(Largest(s), factor)
  }

  /** The bands after `attenuateBands`: each divided by `Divisor`. */
  function Attenuated(s: seq<real>, factor: real): (r: seq<real>)
    requires factor > 0.0
    ensures |r| == |s|
  {
    seq(|s|, i requires 0 <= i < |s| => s[i] / Divisor(s, factor))
  }

  /** The bands after `smoothenSpeed`, given the previous frame's. */
  function SmoothedBands(s: seq<real>, previous: seq<real>, speed: real): (r: seq<real>)
    requires |previous| == |s|
    ensures |r| == |s|
  {
    seq(|s|, i requires 0 <= i < |s| => RpiAnalyzer.Smooth(previous[i], s[i], speed))
  }

  /** The column height `sendToLEDMatrix` sends for a band:
      `map((unsigned short)(band * 100), 0, 100, 0, levels)`; a band in
      [0, 1] gives a height in [0, levels]. */
  function ColumnValue(band: real, levels: int): (v: int)
    ensures 0.0 <= band <= 1.0 && levels >= 0 ==> 0 <= v <= levels
  {
    var level := Trunc(band * 100.0);
    MapPercentBounds(level, levels);
    Levels.Map(level, 0, 100, 0, levels)
  }

  /** The heights of a whole frame. */
  function ColumnValues(bands: seq<real>, levels: int): (v: seq<U16>)
    requires InUnit(bands) && 0 <= levels < 0x1_0000
    ensures |v| == |bands|
    ensures forall c :: 0 <= c < |v| ==> v[c] as int == ColumnValue(bands[c], levels) <= levels
  {
    seq(|bands|, c requires 0 <= c < |bands| => ColumnValue(bands[c], levels) as U16)
  }

  predicate InUnit(s: seq<real>)
  {
    forall i :: 0 <= i < |s| ==> 0.0 <= s[i] <= 1.0
  }

  predicate Nonnegative(s: seq<real>)
  {
    forall i :: 0 <= i < |s| ==> s[i] >= 0.0
  }

  lemma MapPercentBounds(level: int, levels: int)
    ensures 0 <= level <= 100 && levels >= 0 ==> 0 <= Levels.Map(level, 0, 100, 0, levels) <= levels
  {
    if 0 <= level <= 100 && levels >= 0 {
      Levels.MapNonnegative(level, 0, 100, 0, levels);
      var p := level * levels;
      if levels > 0 {
        LedMatrix.MulMonotone(levels, level, 100);
      }
      assert 0 <= p <= 100 * levels;
      DivMonotone(p, 100 * levels, 100);
    }
  }

  lemma MapPercentMonotone(a: int, b: int, levels: int)
    requires 0 <= a <= b <= 100 && levels >= 0
    ensures Levels.Map(a, 0, 100, 0, levels) <= Levels.Map(b, 0, 100, 0, levels)
  {
    Levels.MapNonnegative(a, 0, 100, 0, levels);
    Levels.MapNonnegative(b, 0, 100, 0, levels);
    var pa, pb := a * levels, b * levels;
    if levels > 0 {
      LedMatrix.MulMonotone(levels, a, b);
    }
    assert 0 <= pa <= pb;
    DivMonotone(pa, pb, 100);
  }

  // ---------------------------------------------------------------------------
  // Properties

  /** With nonnegative bands and a positive factor every attenuated band lies
      in [0, 1]. */
  lemma AttenuatedInUnit(s: seq<real>, factor: real)
    requires factor > 0.0 && Nonnegative(s)
    ensures InUnit(Attenuated(s, factor))
  {
    var d := Divisor(s, factor);
    var r := Attenuated(s, factor);
    forall i | 0 <= i < |s|
      ensures 0.0 <= r[i] <= 1.0
    {
      DivideBelow(s[i], d);
    }
  }

  /** Attenuation keeps the order of the bands. */
  lemma AttenuatedKeepsOrder(s: seq<real>, factor: real, i: int, j: int)
    requires factor > 0.0 && 0 <= i < |s| && 0 <= j < |s| && s[i] <= s[j]
    ensures Attenuated(s, factor)[i] <= Attenuated(s, factor)[j]
  {
    DivideMonotone(s[i], s[j], Divisor(s, factor));
  }

  /** When the loudest band exceeds the attenuation factor it becomes exactly
      1, and when none does every band is divided by the factor itself. */
  lemma AttenuatedLoudest(s: seq<real>, factor: real, i: int)
    requires factor > 0.0 && 0 <= i < |s|
    ensures s[i] == Largest(s) && Largest(s) >= factor ==> Attenuated(s, factor)[i] == 1.0
    ensures Largest(s) <= factor ==> Attenuated(s, factor)[i] == s[i] / factor
  {
    var d := Divisor(s, factor);
    assert Attenuated(s, factor)[i] == s[i] / d;
    if s[i] == Largest(s) && Largest(s) >= factor {
      assert d == s[i];
      DivideSelf(d);
    }
  }

  lemma DivideSelf(x: real)
    requires x > 0.0
    ensures x / x == 1.0
  {
  }

  lemma DivideBelow(x: real, d: real)
    requires 0.0 <= x <= d && d > 0.0
    ensures 0.0 <= x / d <= 1.0
  {
    assert x / d * d == x;
  }

  lemma DivideMonotone(x: real, y: real, d: real)
    requires x <= y && d > 0.0
    ensures x / d <= y / d
  {
    assert (y / d - x / d) * d == y - x;
  }

  /** Smoothing keeps bands in [0, 1] when the new and the previous bands are
      there and the speed filter is nonnegative; it never lets a band drop
      below its new value nor rise above the larger of new and previous. */
  lemma SmoothedInUnit(s: seq<real>, previous: seq<real>, speed: real)
    requires |previous| == |s| && InUnit(s) && InUnit(previous) && speed >= 0.0
    ensures InUnit(SmoothedBands(s, previous, speed))
    ensures forall i :: 0 <= i < |s| ==> s[i] <= SmoothedBands(s, previous, speed)[i] <= MaxReal(previous[i], s[i])
  {
    var r := SmoothedBands(s, previous, speed);
    forall i | 0 <= i < |s|
      ensures 0.0 <= r[i] <= 1.0 && s[i] <= r[i] <= MaxReal(previous[i], s[i])
    {
      RpiAnalyzer.SmoothUnitInterval(previous[i], s[i], speed);
      RpiAnalyzer.SmoothBounds(previous[i], s[i], speed);
    }
  }

  /** Silence gives an empty column, a full band the full height, and a
      louder band never a lower column. */
  lemma ColumnValueEndpoints(levels: int)
    requires levels >= 0
    ensures ColumnValue(0.0, levels) == 0 && ColumnValue(1.0, levels) == levels
  {
    Levels.MapEndpoints(0, 100, 0, levels);
  }

  lemma ColumnValueMonotone(a: real, b: real, levels: int)
    requires 0.0 <= a <= b <= 1.0 && levels >= 0
    ensures ColumnValue(a, levels) <= ColumnValue(b, levels)
  {
    MapPercentMonotone(Trunc(a * 100.0), Trunc(b * 100.0), levels);
  }

  // ---------------------------------------------------------------------------
  // What the matrix shows

  /** What row y of a column shows after `setLEDColumn` and `setLEDColPeak`
      with the same value: the peak pixel at the re-armed row, otherwise the
      bar. */
  function Shown(y: int, value: int, peakRow: int, peakColor: LedMatrix.Crgb, lit: LedMatrix.Crgb): LedMatrix.Crgb
  {
    if y == peakRow then LedMatrix.PeakPixel(peakRow, peakColor)
    else if y < value then lit else LedMatrix.Black
  }

  /** Every row of column c is on the strip and shows `Shown`. */
  ghost predicate ColumnShows(leds: seq<LedMatrix.Crgb>, colors: seq<LedMatrix.Crgb>, c: int, rows: int,
                              value: int, peakRow: int, peakColor: LedMatrix.Crgb)
  {
    forall y :: 0 <= y < rows ==>
      0 <= LedMatrix.XyToIndex(c, y, rows) < |leds| && LedMatrix.XyToIndex(c, y, rows) < |colors|
      && leds[LedMatrix.XyToIndex(c, y, rows)] == Shown(y, value, peakRow, peakColor, colors[LedMatrix.XyToIndex(c, y, rows)])
  }

  /** A column keeps showing what it showed when none of its LEDs change. */
  lemma ColumnShowsFrame(leds: seq<LedMatrix.Crgb>, leds': seq<LedMatrix.Crgb>, colors: seq<LedMatrix.Crgb>, c: int, rows: int,
                         value: int, peakRow: int, peakColor: LedMatrix.Crgb)
    requires ColumnShows(leds, colors, c, rows, value, peakRow, peakColor) && |leds'| == |leds|
    requires forall y :: 0 <= y < rows ==> leds'[LedMatrix.XyToIndex(c, y, rows)] == leds[LedMatrix.XyToIndex(c, y, rows)]
    ensures ColumnShows(leds', colors, c, rows, value, peakRow, peakColor)
  {
  }

  /** The bar of `setLEDColumn` with the peak pixel of `setLEDColPeak`
      written over it shows `Shown`. */
  lemma PeakOverBar(bar: seq<LedMatrix.Crgb>, leds: seq<LedMatrix.Crgb>, colors: seq<LedMatrix.Crgb>, col: int, rows: int,
                    value: int, peakRow: int, peakColor: LedMatrix.Crgb)
    requires 0 <= peakRow < rows && |colors| == |bar|
    requires forall y :: 0 <= y < rows ==>
      0 <= LedMatrix.XyToIndex(col, y, rows) < |bar|
      && bar[LedMatrix.XyToIndex(col, y, rows)] == if y < value then colors[LedMatrix.XyToIndex(col, y, rows)] else LedMatrix.Black
    requires leds == bar[LedMatrix.XyToIndex(col, peakRow, rows) := LedMatrix.PeakPixel(peakRow, peakColor)]
    ensures ColumnShows(leds, colors, col, rows, value, peakRow, peakColor)
  {
  }

  /** The strip after `sendToLEDMatrix` has drawn columns 0 .. n-1: each
      column's bar (`LedMatrix.ColumnBar`) with its re-armed peak pixel
      written over it. */
  function DrawnColumns(leds: seq<LedMatrix.Crgb>, colors: seq<LedMatrix.Crgb>, peaks: seq<LedMatrix.LedPeak>, values: seq<U16>,
                        rows: int, maxWait: U16, peakColor: LedMatrix.Crgb, nows: seq<U32>, n: int): (r: seq<LedMatrix.Crgb>)
    requires 1 <= rows < 0x1_0000 && |values| == |peaks| && |nows| == |peaks| && 0 <= n <= |peaks|
    requires |colors| == |leds| == rows * |peaks|
    requires forall c :: 0 <= c < |peaks| ==> peaks[c].row < rows
    ensures |r| == |leds|
    decreases n
  {
    if n == 0 then leds
    else
      var c := n - 1;
      var row := LedMatrix.Rearmed(peaks[c], values[c], rows, maxWait, nows[c]).row;
      LedMatrix.IndexInRange(c, row, rows, |peaks|);
      LedMatrix.ColumnBar(DrawnColumns(leds, colors, peaks, values, rows, maxWait, peakColor, nows, c), colors, c, rows, values[c])
        [LedMatrix.XyToIndex(c, row, rows) := LedMatrix.PeakPixel(row, peakColor)]
  }

  /** Drawing one more column: the definition of `DrawnColumns`, unfolded once. */
  lemma DrawnColumnsNext(leds: seq<LedMatrix.Crgb>, colors: seq<LedMatrix.Crgb>, peaks: seq<LedMatrix.LedPeak>, values: seq<U16>,
                         rows: int, maxWait: U16, peakColor: LedMatrix.Crgb, nows: seq<U32>, n: int)
    requires 1 <= rows < 0x1_0000 && |values| == |peaks| && |nows| == |peaks| && 0 <= n < |peaks|
    requires |colors| == |leds| == rows * |peaks|
    requires forall c :: 0 <= c < |peaks| ==> peaks[c].row < rows
    ensures var row := LedMatrix.Rearmed(peaks[n], values[n], rows, maxWait, nows[n]).row;
      && 0 <= LedMatrix.XyToIndex(n, row, rows) < |leds|
      && DrawnColumns(leds, colors, peaks, values, rows, maxWait, peakColor, nows, n + 1)
         == LedMatrix.ColumnBar(DrawnColumns(leds, colors, peaks, values, rows, maxWait, peakColor, nows, n), colors, n, rows, values[n])
              [LedMatrix.XyToIndex(n, row, rows) := LedMatrix.PeakPixel(row, peakColor)]
  {
    LedMatrix.IndexInRange(n, LedMatrix.Rearmed(peaks[n], values[n], rows, maxWait, nows[n]).row, rows, |peaks|);
  }

  /** After drawing columns 0 .. n-1, each of them shows its bar and its
      re-armed peak (`ColumnShows`), and the columns not yet drawn are as
      they were. */
  lemma {:induction false} DrawnColumnsShow(leds: seq<LedMatrix.Crgb>, colors: seq<LedMatrix.Crgb>, peaks: seq<LedMatrix.LedPeak>,
                                            values: seq<U16>, rows: int, maxWait: U16, peakColor: LedMatrix.Crgb, nows: seq<U32>, n: int)
    requires 1 <= rows < 0x1_0000 && |values| == |peaks| && |nows| == |peaks| && 0 <= n <= |peaks|
    requires |colors| == |leds| == rows * |peaks|
    requires forall c :: 0 <= c < |peaks| ==> peaks[c].row < rows
    ensures forall c :: 0 <= c < n ==>
      ColumnShows(DrawnColumns(leds, colors, peaks, values, rows, maxWait, peakColor, nows, n), colors, c, rows, values[c],
                  LedMatrix.Rearmed(peaks[c], values[c], rows, maxWait, nows[c]).row, peakColor)
    ensures forall i :: n * rows <= i < |leds| ==> DrawnColumns(leds, colors, peaks, values, rows, maxWait, peakColor, nows, n)[i] == leds[i]
    decreases n
  {
    if n > 0 {
      var c := n - 1;
      DrawnColumnsShow(leds, colors, peaks, values, rows, maxWait, peakColor, nows, c);
      var peakRows := seq(|peaks|, d requires 0 <= d < |peaks| => LedMatrix.Rearmed(peaks[d], values[d], rows, maxWait, nows[d]).row);
      var prev := DrawnColumns(leds, colors, peaks, values, rows, maxWait, peakColor, nows, c);
      var now := DrawnColumns(leds, colors, peaks, values, rows, maxWait, peakColor, nows, n);
      DrawStep(prev, colors, c, rows, |peaks|, values, peakRows, peakColor);
      assert now == LedMatrix.ColumnBar(prev, colors, c, rows, values[c])
        [LedMatrix.XyToIndex(c, peakRows[c], rows) := LedMatrix.PeakPixel(peakRows[c], peakColor)];
      forall d | 0 <= d < n
        ensures ColumnShows(now, colors, d, rows, values[d], LedMatrix.Rearmed(peaks[d], values[d], rows, maxWait, nows[d]).row, peakColor)
      {
        assert peakRows[d] == LedMatrix.Rearmed(peaks[d], values[d], rows, maxWait, nows[d]).row;
      }
      NextColumnStart(c, rows);
    }
  }

  /** One step of `sendToLEDMatrix` on the strip: drawing column c keeps the
      columns already drawn and makes column c show its bar and peak. */
  lemma DrawStep(prev: seq<LedMatrix.Crgb>, colors: seq<LedMatrix.Crgb>, c: int, rows: int, cols: int,
                 values: seq<U16>, peakRows: seq<int>, peakColor: LedMatrix.Crgb)
    requires 1 <= rows && |colors| == |prev| == rows * cols && 0 <= c < cols
    requires |values| == |peakRows| == cols && 0 <= peakRows[c] < rows
    requires forall d :: 0 <= d < c ==> ColumnShows(prev, colors, d, rows, values[d], peakRows[d], peakColor)
    ensures 0 <= LedMatrix.XyToIndex(c, peakRows[c], rows) < |prev|
    ensures var now := LedMatrix.ColumnBar(prev, colors, c, rows, values[c])
              [LedMatrix.XyToIndex(c, peakRows[c], rows) := LedMatrix.PeakPixel(peakRows[c], peakColor)];
      && (forall d :: 0 <= d <= c ==> ColumnShows(now, colors, d, rows, values[d], peakRows[d], peakColor))
      && forall i :: c * rows + rows <= i < |prev| ==> now[i] == prev[i]
  {
    var row := peakRows[c];
    var p := LedMatrix.XyToIndex(c, row, rows);
    LedMatrix.IndexInRange(c, row, rows, cols);
    var pixel := LedMatrix.PeakPixel(row, peakColor);
    var bar := LedMatrix.ColumnBar(prev, colors, c, rows, values[c]);
    var now := bar[p := pixel];
    LedMatrix.ColumnBarShows(prev, colors, c, rows, cols, values[c]);
    PeakOverBar(bar, now, colors, c, rows, values[c], row, peakColor);
    forall d | 0 <= d < c
      ensures ColumnShows(now, colors, d, rows, values[d], peakRows[d], peakColor)
    {
      forall y | 0 <= y < rows
        ensures 0 <= LedMatrix.XyToIndex(d, y, rows) < |prev| && now[LedMatrix.XyToIndex(d, y, rows)] == prev[LedMatrix.XyToIndex(d, y, rows)]
      {
        LedMatrix.IndexInRange(d, y, rows, cols);
        ColumnBelow(d, c, y, rows);
        DrawOutside(prev, colors, c, rows, values[c], p, pixel, LedMatrix.XyToIndex(d, y, rows));
      }
      ColumnShowsFrame(prev, now, colors, d, rows, values[d], peakRows[d], peakColor);
    }
    forall i | c * rows + rows <= i < |prev|
      ensures now[i] == prev[i]
    {
      DrawOutside(prev, colors, c, rows, values[c], p, pixel, i);
    }
  }

  /** An LED outside column c is left alone by drawing column c. */
  lemma DrawOutside(prev: seq<LedMatrix.Crgb>, colors: seq<LedMatrix.Crgb>, c: int, rows: int, value: int,
                    p: int, pixel: LedMatrix.Crgb, i: int)
    requires |colors| == |prev| && 0 <= i < |prev| && 0 <= p < |prev|
    requires c * rows <= p == LedMatrix.XyToIndex(c, p - c * rows, rows) < c * rows + rows
    requires !(c * rows <= i < c * rows + rows)
    ensures LedMatrix.ColumnBar(prev, colors, c, rows, value)[p := pixel][i] == prev[i]
  {
  }

  lemma NextColumnStart(c: int, rows: int)
    ensures (c + 1) * rows == c * rows + rows
  {
  }

  /** The state of `m` after the loop of `sendToLEDMatrix` has drawn
      columns 0 .. col-1 of a frame that started from `leds0` and `peaks0`:
      those columns' peak records have taken their step, the others have
      not, and the strip is `DrawnColumns`. */
  ghost predicate SentUpTo(m: LedMatrix.Matrix, leds0: seq<LedMatrix.Crgb>, colors: seq<LedMatrix.Crgb>, peaks0: seq<LedMatrix.LedPeak>,
                           values: seq<U16>, nows: seq<U32>, col: int)
    reads m, m.leds, m.ledColors, m.colPeaks
  {
    && m.Valid() && |peaks0| == |values| == |nows| == m.cols && 0 <= col <= m.cols
    && |leds0| == |colors| == m.leds.Length && m.ledColors[..] == colors
    && (forall c :: 0 <= c < m.cols ==> peaks0[c].row < m.rows)
    && (forall c :: 0 <= c < col ==>
          m.colPeaks[c] == LedMatrix.PeakStep(peaks0[c], values[c], m.rows, m.maxPeakFallingWait, m.peakFallingIntervalIncrement, nows[c]))
    && (forall c :: col <= c < m.cols ==> m.colPeaks[c] == peaks0[c])
    && m.leds[..] == DrawnColumns(leds0, colors, peaks0, values, m.rows, m.maxPeakFallingWait, m.peakColor, nows, col)
  }

  /** The loop of `sendToLEDMatrix` on the matrix `m`: column by column,
      the band's height is drawn as a bar with the peak pixel over it, and
      the column's peak record takes one step. */
  method SendColumns(m: LedMatrix.Matrix, bands: seq<real>, nows: seq<U32>)
    requires m.Valid() && |bands| == m.cols && |nows| == m.cols && InUnit(bands)
    modifies m.leds, m.colPeaks
    ensures m.Valid()
    ensures forall c :: 0 <= c < m.cols ==>
      m.colPeaks[c] == LedMatrix.PeakStep(old(m.colPeaks[c]), ColumnValues(bands, m.rows)[c], m.rows,
                                          m.maxPeakFallingWait, m.peakFallingIntervalIncrement, nows[c])
    ensures m.leds[..] == DrawnColumns(old(m.leds[..]), m.ledColors[..], old(m.colPeaks[..]), ColumnValues(bands, m.rows),
                                       m.rows, m.maxPeakFallingWait, m.peakColor, nows, m.cols)
  {
    ghost var leds0, peaks0, colors := m.leds[..], m.colPeaks[..], m.ledColors[..];
    ghost var values := ColumnValues(bands, m.rows);
    for col := 0 to m.cols
      invariant SentUpTo(m, leds0, colors, peaks0, values, nows, col)
    {
      var value := ColumnValue(bands[col], m.rows) as U16;
      SendColumn(m, col, value, nows, leds0, colors, peaks0, values);
    }
  }

  /** One turn of the `sendToLEDMatrix` loop: column `col` is drawn
      (`DrawColumn`) and the loop's state moves on by one column. */
  method SendColumn(m: LedMatrix.Matrix, col: int, value: U16, nows: seq<U32>, ghost leds0: seq<LedMatrix.Crgb>,
                    ghost colors: seq<LedMatrix.Crgb>, ghost peaks0: seq<LedMatrix.LedPeak>, ghost values: seq<U16>)
    requires SentUpTo(m, leds0, colors, peaks0, values, nows, col) && col < m.cols && values[col] == value
    modifies m.leds, m.colPeaks
    ensures SentUpTo(m, leds0, colors, peaks0, values, nows, col + 1)
  {
    DrawColumn(m, col, value, nows[col]);
    assert m.ledColors[..] == colors;
    DrawnColumnsNext(leds0, colors, peaks0, values, m.rows, m.maxPeakFallingWait, m.peakColor, nows, col);
  }

  /** The body of the `sendToLEDMatrix` loop: column `col` gets its bar,
      then its peak pixel over it, and its peak record takes one step. */
  method DrawColumn(m: LedMatrix.Matrix, col: int, value: U16, now: U32)
    requires m.Valid() && 0 <= col < m.cols
    modifies m.leds, m.colPeaks
    ensures m.Valid()
    ensures m.colPeaks[col] == LedMatrix.PeakStep(old(m.colPeaks[col]), value, m.rows,
      m.maxPeakFallingWait, m.peakFallingIntervalIncrement, now)
    ensures forall c :: 0 <= c < m.cols && c != col ==> m.colPeaks[c] == old(m.colPeaks[c])
    ensures var row := LedMatrix.Rearmed(old(m.colPeaks[col]), value, m.rows, m.maxPeakFallingWait, now).row;
      && 0 <= LedMatrix.XyToIndex(col, row, m.rows) < m.leds.Length
      && m.leds[..] == LedMatrix.ColumnBar(old(m.leds[..]), m.ledColors[..], col, m.rows, value)
           [LedMatrix.XyToIndex(col, row, m.rows) := LedMatrix.PeakPixel(row, m.peakColor)]
  {
    ghost var row := LedMatrix.Rearmed(m.colPeaks[col], value, m.rows, m.maxPeakFallingWait, now).row;
    LedMatrix.IndexInRange(col, row, m.rows, m.cols);
    m.SetLEDColumn(col, value);
    m.SetLEDColPeak(col, value, now);
  }

  /** The LEDs of a column lie below those of every later column. */
  lemma ColumnBelow(c: int, col: int, y: int, rows: int)
    requires 0 <= c < col && 0 <= y < rows
    ensures LedMatrix.XyToIndex(c, y, rows) < col * rows
  {
    LedMatrix.MulMonotone(rows, c + 1, col);
    assert (c + 1) * rows == c * rows + rows;
  }

  // ---------------------------------------------------------------------------
  // The server

  class Server {
    const matrix: LedMatrix.Matrix
    const noOfBands: int
    const noOfLevels: int
    /** `_freqBandsOld`: the previous frame's bands, one per column. */
    const freqBandsOld: array<real>
    /** `_freqBands`: the caller's band array, latched on the first update. */
    var freqBands: array?<real>
    var speedFilter: real
    var attenuationFactor: real
    var clientsPaused: bool

    /** The matrix is valid and the server's own state is (`BandsValid`). */
    ghost predicate Valid()
      reads this, matrix, matrix.colPeaks, freqBandsOld
    {
      matrix.Valid() && BandsValid()
    }

    /** One band per column, the previous bands in [0, 1], a nonnegative
        speed filter and a positive attenuation factor. */
    ghost predicate BandsValid()
      reads this, matrix, freqBandsOld
    {
      noOfBands == matrix.cols && noOfLevels == matrix.rows
      && freqBandsOld.Length == noOfBands
      && (freqBands != null ==> freqBands.Length >= noOfBands && freqBands != freqBandsOld)
      && speedFilter >= 0.0 && attenuationFactor > 0.0
      && forall i :: 0 <= i < freqBandsOld.Length ==> 0.0 <= freqBandsOld[i] <= 1.0
    }

    /** A server for `ledMatrix`: one band per column, no band array yet,
        zeroed previous bands, and the static settings at their initial
        values. */
    constructor(ledMatrix: LedMatrix.Matrix)
      requires ledMatrix.Valid()
      ensures Valid()
      ensures matrix == ledMatrix && noOfBands == ledMatrix.cols && noOfLevels == ledMatrix.rows
      ensures fresh(freqBandsOld) && freqBands == null
      ensures forall i :: 0 <= i < noOfBands ==> freqBandsOld[i] == 0.0
      ensures speedFilter == 0.08 && attenuationFactor == 100000.0 && !clientsPaused
    {
      matrix := ledMatrix;
      noOfBands := ledMatrix.cols;
      noOfLevels := ledMatrix.rows;
      freqBandsOld := new real[ledMatrix.cols](_ => 0.0);
      freqBands := null;
      speedFilter := 0.08;
      attenuationFactor := 100000.0;
      clientsPaused := false;
    }

    /** `updateClients`: the first band array passed in is latched and later
        ones are ignored; while paused nothing else happens, otherwise the
        latched bands are attenuated and smoothed in place, the previous bands
        follow, and every column of the matrix is drawn from them. */
    method UpdateClients(freqBins: array<real>, nows: seq<U32>)
      requires Valid() && |nows| == noOfBands
      requires freqBands == null ==> freqBins.Length >= noOfBands && freqBins != freqBandsOld
      requires Nonnegative((if freqBands == null then freqBins else freqBands)[..noOfBands])
      modifies this, (if freqBands == null then freqBins else freqBands), freqBandsOld, matrix.leds, matrix.colPeaks
      ensures Valid()
      ensures freqBands == if old(freqBands) == null then freqBins else old(freqBands)
      ensures clientsPaused == old(clientsPaused) && speedFilter == old(speedFilter) && attenuationFactor == old(attenuationFactor)
      ensures old(clientsPaused) ==>
        var bands := freqBands;
        && bands[..] == old(bands[..]) && freqBandsOld[..] == old(freqBandsOld[..])
        && matrix.leds[..] == old(matrix.leds[..]) && matrix.colPeaks[..] == old(matrix.colPeaks[..])
      ensures !old(clientsPaused) ==>
        var bands := freqBands;
        && bands[..noOfBands] == SmoothedBands(Attenuated(old(bands[..noOfBands]), attenuationFactor), old(freqBandsOld[..]), speedFilter)
        && freqBandsOld[..] == bands[..noOfBands]
        && InUnit(bands[..noOfBands])
        && (forall c :: 0 <= c < noOfBands ==>
              matrix.colPeaks[c] == LedMatrix.PeakStep(old(matrix.colPeaks[c]), ColumnValues(bands[..noOfBands], noOfLevels)[c], noOfLevels,
                                                       matrix.maxPeakFallingWait, matrix.peakFallingIntervalIncrement, nows[c]))
        && matrix.leds[..] == DrawnColumns(old(matrix.leds[..]), matrix.ledColors[..], old(matrix.colPeaks[..]),
                                           ColumnValues(bands[..noOfBands], noOfLevels), noOfLevels, matrix.maxPeakFallingWait,
                                           matrix.peakColor, nows, noOfBands)
    {
      if freqBands == null {
        freqBands := freqBins;
      }
      if clientsPaused {
        return;
      }
      ghost var raw := freqBands[..noOfBands];
      ghost var previous := freqBandsOld[..];
      AttenuateBands();
      AttenuatedInUnit(raw, attenuationFactor);
      SmoothenSpeed();
      SmoothedInUnit(Attenuated(raw, attenuationFactor), previous, speedFilter);
      SendToLEDMatrix(nows);
    }

    /** The first loop of `attenuateBands`: the highest band, or 0 when
        every band is nonpositive. */
    method HighestBand() returns (highestBand: real)
      requires Valid() && freqBands != null
      ensures highestBand == Largest(freqBands[..noOfBands])
    {
      var bands := freqBands;
      ghost var s := bands[..noOfBands];
      highestBand := 0.0;
      for i := 0 to noOfBands
        invariant highestBand == Largest(s[..i])
      {
        assert s[..i + 1][..i] == s[..i];
        if bands[i] > highestBand {
          highestBand := bands[i];
        }
      }
      assert s[..noOfBands] == s;
    }

    /** `attenuateBands`: every band is divided by `Divisor`, in place. */
    method AttenuateBands()
      requires Valid() && freqBands != null
      modifies freqBands
      ensures freqBands[..noOfBands] == Attenuated(old(freqBands[..noOfBands]), attenuationFactor)
      ensures freqBands[noOfBands..] == old(freqBands[noOfBands..])
    {
      var highestBand := HighestBand();
      var attenuation := MaxReal(highestBand, attenuationFactor);
      var bands, n := freqBands, noOfBands;
      ghost var s := bands[..n];
      assert attenuation == Divisor(s, attenuationFactor);
      for i := 0 to n
        invariant forall j :: 0 <= j < i ==> bands[j] == s[j] / attenuation
        invariant forall j :: i <= j < bands.Length ==> bands[j] == old(bands[j])
      {
        bands[i] := bands[i] / attenuation;
      }
      assert forall j :: 0 <= j < n ==> bands[..n][j] == Attenuated(s, attenuationFactor)[j];
    }

    /** `smoothenSpeed`: each band goes through the asymmetric filter against
        its previous value, and the result becomes the new previous value. */
    method SmoothenSpeed()
      requires Valid() && freqBands != null
      modifies freqBands, freqBandsOld
      ensures freqBands[..noOfBands] == SmoothedBands(old(freqBands[..noOfBands]), old(freqBandsOld[..]), speedFilter)
      ensures freqBands[noOfBands..] == old(freqBands[noOfBands..])
      ensures freqBandsOld[..] == freqBands[..noOfBands]
    {
      var bands, olds, speed := freqBands, freqBandsOld, speedFilter;
      for i := 0 to noOfBands
        invariant forall j :: 0 <= j < i ==>
          bands[j] == RpiAnalyzer.Smooth(old(olds[j]), old(bands[j]), speed) && olds[j] == bands[j]
        invariant forall j :: i <= j < bands.Length ==> bands[j] == old(bands[j])
        invariant forall j :: i <= j < noOfBands ==> olds[j] == old(olds[j])
      {
        var freqBandsNew := bands[i];
        if freqBandsNew < olds[i] {
          bands[i] := MaxReal(olds[i] - speed, freqBandsNew);
        } else if freqBandsNew > olds[i] {
          bands[i] := freqBandsNew;
        }
        olds[i] := bands[i];
      }
    }

    /** `sendToLEDMatrix`: the loop over the columns, on this server's
        matrix and bands. */
    method SendToLEDMatrix(nows: seq<U32>)
      requires Valid() && freqBands != null && |nows| == noOfBands
      requires InUnit(freqBands[..noOfBands])
      modifies matrix.leds, matrix.colPeaks
      ensures Valid()
      ensures forall c :: 0 <= c < noOfBands ==>
        matrix.colPeaks[c] == LedMatrix.PeakStep(old(matrix.colPeaks[c]), ColumnValues(freqBands[..noOfBands], noOfLevels)[c], noOfLevels,
                                                 matrix.maxPeakFallingWait, matrix.peakFallingIntervalIncrement, nows[c])
      ensures matrix.leds[..] == DrawnColumns(old(matrix.leds[..]), matrix.ledColors[..], old(matrix.colPeaks[..]),
                                              ColumnValues(freqBands[..noOfBands], noOfLevels), noOfLevels, matrix.maxPeakFallingWait,
                                              matrix.peakColor, nows, noOfBands)
    {
      SendColumns(matrix, freqBands[..noOfBands], nows);
    }

    /** `pauseClients`: the flag is set and the matrix goes dark. */
    method PauseClients()
      modifies this, matrix.leds
      ensures clientsPaused
      ensures forall i :: 0 <= i < matrix.leds.Length ==> matrix.leds[i] == LedMatrix.Black
      ensures freqBands == old(freqBands) && speedFilter == old(speedFilter) && attenuationFactor == old(attenuationFactor)
    {
      clientsPaused := true;
      matrix.ClearMatrix();
    }

    /** `resumeClients`: the matrix goes dark and the flag is cleared. */
    method ResumeClients()
      modifies this, matrix.leds
      ensures !clientsPaused
      ensures forall i :: 0 <= i < matrix.leds.Length ==> matrix.leds[i] == LedMatrix.Black
      ensures freqBands == old(freqBands) && speedFilter == old(speedFilter) && attenuationFactor == old(attenuationFactor)
    {
      matrix.ClearMatrix();
      clientsPaused := false;
    }
  }
}
