/** The terminal display of the Raspberry Pi analyzer
    (RpiSpectrumAnalyzer/ConsoleDisplay.cs). Every band is a column of `===`
    cells, six characters apart, with its frequency label under it; a cell
    below the column's current level takes the column's colour, the held peak
    is drawn in the peak colour, and everything else is black. The terminal is
    modelled as the colour of each cell, `screen[y, x]` for row `y` counted from
    the bottom, and the text of each label. The millisecond clock is one
    reading per peak step, passed in. */
module ConsoleDisplay {
  import opened Prelude
  import opened Levels
  import opened Colors
  import opened PeakHold
  import opened DisplayConfig
  import opened Text
  import RpiAnalyzer

  /** The characters of one cell. */
  const LevelChars: string := "==="

  /** The terminal column at which band `x` is drawn. */
  function ColumnPosition(x: int): int
  {
    x * |LevelChars| * 2
  }

  /** The label under a band: the frequency in Hz, or in whole kHz (truncated)
      with a `K` from 1000 Hz up. */
  function Label(value: int): (s: string)
  {
    if value >= 1000 then DecimalString(CDiv(value, 1000)) + "K" else DecimalString(value)
  }

  /** The hue index of row `y` in the default palette: row 0 maps to 5 and the
      top row to 0 (`y.Map(0, rows - 1, 5, 0)`). */
  function DefaultHueIndex(y: int, rows: int): int
    requires rows != 1
  {
    Map(y, 0, rows - 1, 5, 0)
  }

  /** The default palette: the same column of hue-table colours for every band. */
  function DefaultColors(rows: int, cols: int): seq<seq<ConsoleColor>>
    requires rows == 0 || rows >= 2
    requires cols >= 0
  {
    seq(cols, _ => seq(rows, y requires 0 <= y < rows => ConsoleHueMap[DefaultHueIndexInRange(y, rows)].0))
  }

  /** `DefaultHueIndex` with its range, for indexing. */
  function DefaultHueIndexInRange(y: int, rows: int): (i: int)
    requires rows >= 2 && 0 <= y < rows
    ensures 0 <= i <= 5
    ensures i == DefaultHueIndex(y, rows)
  {
    DefaultHueIndexRange(y, rows);
    DefaultHueIndex(y, rows)
  }

  /** `GetPeakRow`'s answer: the held row after the re-arm, as a row index
      (a negative row would read as 0). */
  function ShownPeakRow(p: ColPeak, value: int, rows: int, peakWait: int, now: int): int
  {
    var row := Rearm(p, value, rows, peakWait, now).row;
    if row > 0 then row else 0
  }

  /** A palette with a colour for every cell of `rows` x `cols`. */
  predicate Covers(palette: seq<seq<ConsoleColor>>, rows: int, cols: int)
  {
    |palette| >= cols && forall x :: 0 <= x < cols ==> |palette[x]| >= rows
  }

  /** Every colour of the palette has an entry in the hue table. */
  predicate InHueTable(palette: seq<seq<ConsoleColor>>)
  {
    forall x, y :: 0 <= x < |palette| && 0 <= y < |palette[x]| ==> ConsoleColorToPixelColor(palette[x][y]).Some?
  }

  /** The palette translated colour by colour through the hue table. */
  function ToPixelColors(palette: seq<seq<ConsoleColor>>): (r: seq<seq<PixelColor>>)
    requires InHueTable(palette)
    ensures |r| == |palette|
    ensures forall x :: 0 <= x < |palette| ==> |r[x]| == |palette[x]|
    ensures forall x, y :: 0 <= x < |palette| && 0 <= y < |palette[x]| ==>
      Some(r[x][y]) == ConsoleColorToPixelColor(palette[x][y])
  {
    seq(|palette|, x requires 0 <= x < |palette| =>
      seq(|palette[x]|, y requires 0 <= y < |palette[x]| => ConsoleColorToPixelColor(palette[x][y]).value))
  }

  /** The update guard: only a configuration for the console display is applied. */
  predicate Accepts(config: Option<DisplayConfiguration>)
  {
    config.Some? && config.value.displayType == CONSOLE
  }

  class Display {
    const rows: int
    const cols: int
    const curLevels: array<real>
    const colPeaks: array<ColPeak>
    /** The colour of each cell, [row from the bottom, band]. */
    const screen: array2<ConsoleColor>
    /** The label under each band. */
    const labels: array<string>

    const peakWaitMin: int
    const peakWaitMax: int
    const peakWaitCountDownMin: int
    const peakWaitCountDownMax: int
    const transitionSpeedMin: real
    const transitionSpeedMax: real
    const amplificationFactorMin: int
    const amplificationFactorMax: int

    var transitionSpeed: real
    var peakWait: int
    var peakWaitCountDown: int
    var amplificationFactor: int
    var showPeaks: bool
    var showPeaksWhenSilent: bool
    var peakColor: ConsoleColor
    var pixelColors: seq<seq<ConsoleColor>>

    /** The arrays have the display's shape and every held peak is on it. */
    ghost predicate Valid()
      reads this, colPeaks
    {
      0 <= rows && 0 <= cols
      && curLevels.Length == cols && colPeaks.Length == cols
      && screen.Length0 == rows && screen.Length1 == cols && labels.Length == cols
      && forall c :: 0 <= c < cols ==> 0 <= colPeaks[c].row && (rows > 0 ==> colPeaks[c].row < rows)
    }

    /** A new display: the default settings and palette, a cleared terminal,
        all levels and peaks at the bottom. A single row divides by zero in
        the palette's row mapping. */
    constructor(rows: int, cols: int)
      requires rows == 0 || rows >= 2
      requires cols >= 0
      ensures Valid()
      ensures this.rows == rows && this.cols == cols
      ensures fresh(curLevels) && fresh(colPeaks) && fresh(screen) && fresh(labels)
      ensures peakWaitMin == 1 && peakWaitMax == 5000 && peakWaitCountDownMin == 1 && peakWaitCountDownMax == 1000
      ensures transitionSpeedMin == 1.0 && transitionSpeedMax == (rows / 2) as real
      ensures amplificationFactorMin == 1000 && amplificationFactorMax == 10000
      ensures peakWait == 2000 && peakWaitCountDown == 20 && transitionSpeed == 1.0
      ensures amplificationFactor == 5000 && showPeaks && showPeaksWhenSilent
      ensures peakColor == DarkRed
      ensures pixelColors == DefaultColors(rows, cols)
      ensures forall x :: 0 <= x < cols ==> curLevels[x] == 0.0 && colPeaks[x] == Initial && labels[x] == ""
      ensures forall y, x :: 0 <= y < rows && 0 <= x < cols ==> screen[y, x] == Black
    {
      this.rows := rows;
      this.cols := cols;
      curLevels := new real[cols](_ => 0.0);
      colPeaks := new ColPeak[cols](_ => Initial);
      screen := new ConsoleColor[rows, cols]((_, _) => Black);
      labels := new string[cols](_ => "");
      peakWaitMin := 1;
      peakWait := 2000;
      peakWaitMax := 5000;
      peakWaitCountDownMin := 1;
      peakWaitCountDown := 20;
      peakWaitCountDownMax := 1000;
      transitionSpeedMin := 1.0;
      transitionSpeed := 1.0;
      transitionSpeedMax := (rows / 2) as real;
      amplificationFactorMin := 1000;
      amplificationFactor := 5000;
      amplificationFactorMax := 10000;
      showPeaks := true;
      showPeaksWhenSilent := true;
      peakColor := DarkRed;
      pixelColors := [];
      new;
      Clear();
      SetupDefaultColors();
    }

    /** The terminal cleared: every cell black, no labels. */
    method Clear()
      requires Valid()
      modifies screen, labels
      ensures forall y, x :: 0 <= y < rows && 0 <= x < cols ==> screen[y, x] == Black
      ensures forall x :: 0 <= x < cols ==> labels[x] == ""
    {
      for y := 0 to rows
        invariant forall r, x :: 0 <= r < y && 0 <= x < cols ==> screen[r, x] == Black
      {
        for x := 0 to cols
          invariant forall r, c :: 0 <= r < rows && 0 <= c < cols && (r < y || (r == y && c < x)) ==> screen[r, c] == Black
        {
          screen[y, x] := Black;
        }
      }
      for x := 0 to cols
        invariant forall c :: 0 <= c < x ==> labels[c] == ""
        invariant forall r, c :: 0 <= r < rows && 0 <= c < cols ==> screen[r, c] == Black
      {
        labels[x] := "";
      }
    }

    /** Every band gets the same column of hue-table colours, from index 5 at
        the bottom row to index 0 at the top. */
    method SetupDefaultColors()
      requires rows == 0 || rows >= 2
      requires 0 <= cols
      modifies this`pixelColors
      ensures pixelColors == DefaultColors(rows, cols)
    {
      ghost var column := seq(rows, y requires 0 <= y < rows => ConsoleHueMap[DefaultHueIndexInRange(y, rows)].0);
      var columns: seq<seq<ConsoleColor>> := [];
      for x := 0 to cols
        invariant |columns| == x
        invariant forall k :: 0 <= k < x ==> columns[k] == column
      {
        var colors: seq<ConsoleColor> := [];
        for y := 0 to rows
          invariant colors == column[..y]
        {
          var hueIndex := Map(y, 0, rows - 1, 5, 0);
          DefaultHueIndexRange(y, rows);
          colors := colors + [ConsoleHueMap[hueIndex].0];
        }
        columns := columns + [colors];
      }
      pixelColors := columns;
    }

    /** `GetConfiguration`: the display's settings, tagged as an LED display,
        with the console colours translated through the hue table (a colour
        missing from the table makes the lookup throw). */
    function GetConfiguration(): (r: DisplayConfiguration)
      requires ConsoleColorToPixelColor(peakColor).Some? && InHueTable(pixelColors)
      reads this
      ensures r.displayType == LED && !Accepts(Some(r))
      ensures r.rows == rows && r.cols == cols
      ensures r.peakWait == peakWait && r.peakWaitCountDown == peakWaitCountDown
      ensures r.transitionSpeed == transitionSpeed && r.amplificationFactor == amplificationFactor
      ensures r.showPeaks == showPeaks && r.showPeaksWhenSilent == showPeaksWhenSilent
      ensures !r.isBrightnessSupported
      ensures r.peakColor == ConsoleColorToPixelColor(peakColor)
      ensures r.pixelColors == Some(ToPixelColors(pixelColors))
    {
      DisplayConfiguration(
        LED, rows, cols,
        0, 0, 0,
        transitionSpeedMin, transitionSpeed, transitionSpeedMax,
        peakWaitMin, peakWait, peakWaitMax,
        peakWaitCountDownMin, peakWaitCountDown, peakWaitCountDownMax,
        amplificationFactorMin, amplificationFactor, amplificationFactorMax,
        showPeaks, showPeaksWhenSilent, false,
        ConsoleColorToPixelColor(peakColor),
        Some(ToPixelColors(pixelColors)),
        None, None)
    }

    /** `UpdateConfiguration`: a configuration not tagged CONSOLE is refused,
        and an accepted one changes nothing either, since the assignments are
        disabled in the source. */
    method UpdateConfiguration(config: Option<DisplayConfiguration>)
      ensures transitionSpeed == old(transitionSpeed) && peakWait == old(peakWait)
      ensures peakWaitCountDown == old(peakWaitCountDown) && amplificationFactor == old(amplificationFactor)
      ensures showPeaks == old(showPeaks) && showPeaksWhenSilent == old(showPeaksWhenSilent)
      ensures peakColor == old(peakColor) && pixelColors == old(pixelColors)
    {
      if !Accepts(config) {
        return;
      }
    }

    /** The colour a frame leaves in row `y` of band `x`, from the band's new
        level, its peak record before the frame and the clock readings of the
        column's peak steps. */
    function Cell(y: int, x: int, level: real, p: ColPeak, times: seq<int>): ConsoleColor
      requires Covers(pixelColors, rows, x + 1) && 0 <= y < rows && 0 <= x && y < |times|
      reads this
    {
      var bar := if (y as real) < level then pixelColors[x][y] else Black;
      if showPeaks then
        var value := Trunc(level);
        var peakRow := ShownPeakRow(Steps(p, value, rows, peakWait, peakWaitCountDown, times[..y]), value, rows, peakWait, times[y]);
        if y == peakRow && peakRow >= PeakThreshold(showPeaksWhenSilent) then peakColor else bar
      else bar
    }

    /** The column's peak record after a frame: one step per row when peaks
        are shown. */
    function PeakAfterFrame(p: ColPeak, level: real, times: seq<int>): ColPeak
      requires |times| >= rows >= 0
      reads this
    {
      if showPeaks then Steps(p, Trunc(level), rows, peakWait, peakWaitCountDown, times[..rows]) else p
    }

    /** `DisplayAsLevels`: the bands amplified, normalised and quantised to the
        rows, then drawn. */
    method DisplayAsLevels(bands: seq<BandInfo>, nows: seq<seq<int>>)
      requires Valid() && |bands| <= cols && Covers(pixelColors, rows, |bands|)
      requires |nows| >= |bands| && forall x :: 0 <= x < |bands| ==> |nows[x]| >= rows
      modifies curLevels, colPeaks, screen, labels
      ensures Valid()
      ensures forall x :: 0 <= x < |bands| ==> labels[x] == Label(bands[x].band)
      ensures forall x :: 0 <= x < |bands| ==>
        curLevels[x] == RpiAnalyzer.Smooth(old(curLevels[x]), Levels.DisplayLevels(bands, amplificationFactor, rows)[x].level as real, transitionSpeed)
      ensures forall x :: 0 <= x < |bands| ==> colPeaks[x] == PeakAfterFrame(old(colPeaks[x]), curLevels[x], nows[x])
      ensures forall y, x :: 0 <= y < rows && 0 <= x < |bands| ==> screen[y, x] == Cell(y, x, curLevels[x], old(colPeaks[x]), nows[x])
    {
      var levels := Levels.DisplayLevels(bands, amplificationFactor, rows);
      DisplayLevels(levels, nows);
    }

    /** One frame, one column per target level: the label is written, the
        current level rises to the target at once or falls by at most the
        transition speed but not below the target, and every row is drawn in
        the column's colour below the level and black above it, except the row
        `GetPeakRow` reports, which takes the peak colour when it is at or
        above the threshold. `GetPeakRow` runs once per row, so the peak
        record steps `rows` times per frame. Columns past the targets are
        left alone. */
    method DisplayLevels(targetLevels: seq<LevelInfo>, nows: seq<seq<int>>)
      requires Valid() && |targetLevels| <= cols && Covers(pixelColors, rows, |targetLevels|)
      requires |nows| >= |targetLevels| && forall x :: 0 <= x < |targetLevels| ==> |nows[x]| >= rows
      modifies curLevels, colPeaks, screen, labels
      ensures Valid()
      ensures forall x :: 0 <= x < |targetLevels| ==> labels[x] == Label(targetLevels[x].band)
      ensures forall x :: 0 <= x < |targetLevels| ==>
        curLevels[x] == RpiAnalyzer.Smooth(old(curLevels[x]), targetLevels[x].level as real, transitionSpeed)
      ensures forall x :: 0 <= x < |targetLevels| ==> colPeaks[x] == PeakAfterFrame(old(colPeaks[x]), curLevels[x], nows[x])
      ensures forall y, x :: 0 <= y < rows && 0 <= x < |targetLevels| ==> screen[y, x] == Cell(y, x, curLevels[x], old(colPeaks[x]), nows[x])
      ensures forall x :: |targetLevels| <= x < cols ==>
        labels[x] == old(labels[x]) && curLevels[x] == old(curLevels[x]) && colPeaks[x] == old(colPeaks[x])
      ensures forall y, x :: 0 <= y < rows && |targetLevels| <= x < cols ==> screen[y, x] == old(screen[y, x])
    {
      var n := |targetLevels|;
      for x := 0 to n
        invariant Valid()
        invariant forall c :: 0 <= c < x ==> labels[c] == Label(targetLevels[c].band)
        invariant forall c :: 0 <= c < x ==>
          curLevels[c] == RpiAnalyzer.Smooth(old(curLevels[c]), targetLevels[c].level as real, transitionSpeed)
        invariant forall c :: 0 <= c < x ==> colPeaks[c] == PeakAfterFrame(old(colPeaks[c]), curLevels[c], nows[c])
        invariant forall y, c :: 0 <= y < rows && 0 <= c < x ==> screen[y, c] == Cell(y, c, curLevels[c], old(colPeaks[c]), nows[c])
        invariant forall c :: x <= c < cols ==>
          labels[c] == old(labels[c]) && curLevels[c] == old(curLevels[c]) && colPeaks[c] == old(colPeaks[c])
        invariant forall y, c :: 0 <= y < rows && x <= c < cols ==> screen[y, c] == old(screen[y, c])
      {
        DisplayColumn(x, targetLevels[x], nows[x]);
      }
    }

    /** The body of the column loop of `DisplayLevels` for band `x`. */
    method DisplayColumn(x: int, target: LevelInfo, times: seq<int>)
      requires Valid() && 0 <= x < cols && Covers(pixelColors, rows, x + 1) && |times| >= rows
      modifies curLevels, colPeaks, screen, labels
      ensures Valid()
      ensures labels[x] == Label(target.band)
      ensures curLevels[x] == RpiAnalyzer.Smooth(old(curLevels[x]), target.level as real, transitionSpeed)
      ensures colPeaks[x] == PeakAfterFrame(old(colPeaks[x]), curLevels[x], times)
      ensures forall c :: 0 <= c < cols && c != x ==>
        labels[c] == old(labels[c]) && curLevels[c] == old(curLevels[c]) && colPeaks[c] == old(colPeaks[c])
      ensures forall y, c :: 0 <= y < rows && 0 <= c < cols ==>
        screen[y, c] == (if c == x then Cell(y, x, curLevels[x], old(colPeaks[x]), times) else old(screen[y, c]))
    {
      DisplayLabels(x, target.band);
      var targetLevel := target.level as real;
      if targetLevel > curLevels[x] {
        curLevels[x] := targetLevel;
      } else if targetLevel < curLevels[x] {
        curLevels[x] := MaxReal(curLevels[x] - transitionSpeed, targetLevel);
      }
      var level := curLevels[x];
      ghost var p := colPeaks[x];
      for y := 0 to rows
        invariant Valid()
        invariant colPeaks[x] == (if showPeaks then Steps(p, Trunc(level), rows, peakWait, peakWaitCountDown, times[..y]) else p)
        invariant forall c :: 0 <= c < cols && c != x ==> colPeaks[c] == old(colPeaks[c])
        invariant forall r, c :: 0 <= r < rows && 0 <= c < cols ==>
          screen[r, c] == (if c == x && r < y then Cell(r, x, level, p, times) else old(screen[r, c]))
        modifies colPeaks, screen
      {
        DrawCell(x, y, level, p, times);
      }
    }

    /** The body of the row loop of `DisplayLevels`: row `y` of band `x` is
        drawn, and the peak record takes its `y`-th step of the frame. */
    method DrawCell(x: int, y: int, level: real, ghost p: ColPeak, times: seq<int>)
      requires Valid() && 0 <= x < cols && Covers(pixelColors, rows, x + 1)
      requires 0 <= y < rows && |times| >= rows
      requires colPeaks[x] == (if showPeaks then Steps(p, Trunc(level), rows, peakWait, peakWaitCountDown, times[..y]) else p)
      modifies colPeaks, screen
      ensures Valid()
      ensures colPeaks[x] == (if showPeaks then Steps(p, Trunc(level), rows, peakWait, peakWaitCountDown, times[..y + 1]) else p)
      ensures forall c :: 0 <= c < cols && c != x ==> colPeaks[c] == old(colPeaks[c])
      ensures forall r, c :: 0 <= r < rows && 0 <= c < cols ==>
        screen[r, c] == (if c == x && r == y then Cell(y, x, level, p, times) else old(screen[r, c]))
    {
      var color := if (y as real) < level then pixelColors[x][y] else Black;
      if showPeaks {
        assert times[..y + 1][..y] == times[..y];
        var peakRow := GetPeakRow(x, Trunc(level), times[y]);
        var targetPeakRow := 1;
        if showPeaksWhenSilent {
          targetPeakRow := 0;
        }
        if y == peakRow && peakRow >= targetPeakRow {
          color := peakColor;
        }
      }
      screen[y, x] := color;
    }

    /** `DisplayLabels`: the band's label under its column. */
    method DisplayLabels(x: int, value: int)
      requires 0 <= x < labels.Length
      modifies labels
      ensures labels[..] == old(labels[..])[x := Label(value)]
    {
      var text := DecimalString(value);
      if value >= 1000 {
        text := DecimalString(CDiv(value, 1000)) + "K";
      }
      labels[x] := text;
    }

    /** `GetPeakRow`: one step of the column's peak logic; the answer is the
        held row after the re-arm and before the fall. */
    method GetPeakRow(col: int, value: int, now: int) returns (peakRow: int)
      requires Valid() && 0 <= col < cols && rows >= 1
      modifies colPeaks
      ensures Valid()
      ensures peakRow == ShownPeakRow(old(colPeaks[col]), value, rows, peakWait, now)
      ensures colPeaks[col] == Step(old(colPeaks[col]), value, rows, peakWait, peakWaitCountDown, now)
      ensures forall c :: 0 <= c < cols && c != col ==> colPeaks[c] == old(colPeaks[c])
    {
      var p := colPeaks[col];
      StepRowInRange(p, value, rows, peakWait, peakWaitCountDown, now);
      var topRowIndex := rows - 1;
      if value > p.row {
        p := p.(row := value);
        if p.row > topRowIndex {
          p := p.(row := topRowIndex);
        }
        p := p.(curMilSecs := now, prevMilSecs := now);
        p := p.(curWait := peakWait);
      }
      if p.row > 0 {
        peakRow := p.row;
      } else {
        peakRow := 0;
      }
      p := p.(curMilSecs := now);
      if p.curMilSecs - p.prevMilSecs >= p.curWait {
        if p.row > 0 {
          p := p.(row := p.row - 1, prevMilSecs := p.curMilSecs);
        }
      }
      p := p.(curWait := p.curWait - peakWaitCountDown);
      if p.curWait < peakWaitCountDown {
        p := p.(curWait := peakWaitCountDown);
      }
      colPeaks[col] := p;
    }
  }

  // ---------------------------------------------------------------------------
  // Properties

  /** The default palette's row mapping stays in the first six hue-table
      entries, from 5 at the bottom row down to 0 at the top, never rising
      with the row. */
  lemma DefaultHueIndexRange(y: int, rows: int)
    requires rows >= 2 && 0 <= y < rows
    ensures 0 <= DefaultHueIndex(y, rows) <= 5
    ensures DefaultHueIndex(0, rows) == 5 && DefaultHueIndex(rows - 1, rows) == 0
    ensures y + 1 < rows ==> DefaultHueIndex(y + 1, rows) <= DefaultHueIndex(y, rows)
  {
    var d := rows - 1;
    assert CDiv(-5 * d, d) == -5;
    var q := CDiv(-5 * y, d);
    assert -5 * y == d * q + (-5 * y - d * q);
    if y + 1 < rows {
      var q1 := CDiv(-5 * (y + 1), d);
      HueStepArith(y, d, q, q1);
    }
    HueRangeArith(y, d, q);
  }

  lemma HueStepArith(y: int, d: int, q: int, q1: int)
    requires d >= 1 && 0 <= y && y + 1 <= d
    requires q == CDiv(-5 * y, d) && q1 == CDiv(-5 * (y + 1), d)
    ensures q1 <= q
  {
    CDivNegate(5 * y, d);
    CDivNegate(5 * (y + 1), d);
    DivMonotone(5 * y, 5 * (y + 1), d);
  }

  lemma HueRangeArith(y: int, d: int, q: int)
    requires d >= 1 && 0 <= y <= d && q == CDiv(-5 * y, d)
    ensures -5 <= q <= 0
  {
    CDivNegate(5 * y, d);
    DivMonotone(5 * y, 5 * d, d);
    assert (5 * d) / d == 5;
  }

  /** Labels below 1000 Hz read back as the frequency; from 1000 Hz up they
      are the whole kilohertz, truncated, followed by `K`. */
  lemma LabelReadsBack(value: int)
    requires Int32Min <= value <= Int32Max
    ensures value < 1000 ==> ParseInt32(Label(value)) == Some(value)
    ensures value >= 1000 ==> var s := Label(value);
      |s| >= 2 && s[|s| - 1] == 'K' && ParseInt32(s[..|s| - 1]) == Some(value / 1000)
      && (value / 1000) * 1000 <= value < (value / 1000 + 1) * 1000
  {
    if value >= 1000 {
      CDivNonnegative(value, 1000);
      var k := value / 1000;
      DecimalRoundTrip(k);
      var s := Label(value);
      assert s[..|s| - 1] == DecimalString(k);
    } else {
      DecimalRoundTrip(value);
    }
  }

  /** A record whose row is on the display: the row `GetPeakRow` reports is
      the re-armed row itself, and it is on the display too. */
  lemma ShownPeakRowIsRearmed(p: ColPeak, value: int, rows: int, peakWait: int, now: int)
    requires rows >= 1 && 0 <= p.row < rows
    ensures ShownPeakRow(p, value, rows, peakWait, now) == Rearm(p, value, rows, peakWait, now).row
    ensures 0 <= ShownPeakRow(p, value, rows, peakWait, now) < rows
  {
  }

  /** The console display refuses its own configuration: `GetConfiguration`
      tags it LED, and the update guard only lets CONSOLE through. */
  lemma OwnConfigurationIsRefused(d: Display)
    requires ConsoleColorToPixelColor(d.peakColor).Some? && InHueTable(d.pixelColors)
    ensures !Accepts(Some(d.GetConfiguration()))
  {
  }

  /** The default palette holds only hue-table colours, so `GetConfiguration`
      can translate it. */
  lemma DefaultColorsInHueTable(rows: int, cols: int)
    requires rows >= 2 && cols >= 0
    ensures Covers(DefaultColors(rows, cols), rows, cols)
    ensures InHueTable(DefaultColors(rows, cols))
  {
    var palette := DefaultColors(rows, cols);
    forall x, y | 0 <= x < |palette| && 0 <= y < |palette[x]|
      ensures ConsoleColorToPixelColor(palette[x][y]).Some?
    {
      var i := DefaultHueIndexInRange(y, rows);
      ConsoleTableLookup(i);
    }
  }
}
