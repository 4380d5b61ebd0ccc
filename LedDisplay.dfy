/** The WS2812B LED-matrix display of the Raspberry Pi analyzer
    (RpiSpectrumAnalyzer/LedDisplay.cs). Each frame moves every column's current
    level toward its target, lights the rows below the level in the column's
    colour, and draws and advances the column's held peak. The LED buffer is an
    `array2` indexed [row, column]; pushing it to the strip is left out, and the
    millisecond clock is one reading per column, passed in. */
module LedDisplay {
  import opened Prelude
  import opened Levels
  import opened Colors
  import opened PeakHold
  import opened DisplayConfig
  import RpiAnalyzer

  /** Row `y` of a bar whose current level is `level`: the row's colour at the
      configured brightness below the level, black at and above it. */
  function BarPixel(y: int, level: real, color: PixelColor, brightness: int): PixelColor
  {
    if (y as real) < level then PixelColorWithBrightness(color, brightness as real) else BlackPixel
  }

  /** The pixel drawn at the held row: the peak colour at the configured
      brightness when the peak is visible, black otherwise. */
  function PeakPixel(row: int, showPeaksWhenSilent: bool, peakColor: PixelColor, brightness: int): PixelColor
  {
    if PeakVisible(row, showPeaksWhenSilent) then PixelColorWithBrightness(peakColor, brightness as real) else BlackPixel
  }

  /** The default palette: every column holds the same `rows`-colour gradient. */
  function DefaultColors(start: PixelColor, end: PixelColor, rows: int, cols: int): seq<seq<PixelColor>>
    requires rows == 0 || rows >= 2
    requires cols >= 0
  {
    seq(cols, _ => seq(rows, y requires 0 <= y < rows => GradientAt(start, end, y, rows)))
  }

  /** A palette with a colour for every pixel of a `rows` x `cols` display. */
  predicate Covers(palette: seq<seq<PixelColor>>, rows: int, cols: int)
  {
    |palette| >= cols && forall x :: 0 <= x < cols ==> |palette[x]| >= rows
  }

  /** `k` frames of the current-level rule with an unchanging target. */
  function Settle(current: real, target: real, speed: real, k: nat): real
    decreases k
  {
    if k == 0 then current else Settle(RpiAnalyzer.Smooth(current, target, speed), target, speed, k - 1)
  }

  /** The configurable settings of the display. */
  datatype Settings = Settings(
    transitionSpeed: real, peakWait: int, peakWaitCountDown: int, brightness: int, amplificationFactor: int,
    showPeaks: bool, showPeaksWhenSilent: bool,
    peakColor: PixelColor, pixelColors: seq<seq<PixelColor>>,
    gradientStartColor: PixelColor, gradientEndColor: PixelColor)

  predicate Positive(s: Settings)
  {
    s.peakWait > 0 && s.peakWaitCountDown > 0 && s.transitionSpeed > 0.0 && s.brightness > 0 && s.amplificationFactor > 0
  }

  /** The settings after `UpdateConfiguration(config)`: a positive numeric
      value replaces the current one and anything else leaves it; the two
      flags are copied, and are false without a configuration; a present
      colour or palette replaces the current one. Nothing is checked against
      the display type, the rows and columns, or the minimum and maximum. */
  function Configured(s: Settings, config: Option<DisplayConfiguration>): (r: Settings)
    ensures config.None? ==> r == s.(showPeaks := false, showPeaksWhenSilent := false)
    ensures config.Some? ==> r.showPeaks == config.value.showPeaks && r.showPeaksWhenSilent == config.value.showPeaksWhenSilent
    ensures Positive(s) ==> Positive(r)
  {
    match config
    case None => s.(showPeaks := false, showPeaksWhenSilent := false)
    case Some(c) =>
      Settings(
        PositiveOrReal(c.transitionSpeed, s.transitionSpeed),
        PositiveOr(c.peakWait, s.peakWait),
        PositiveOr(c.peakWaitCountDown, s.peakWaitCountDown),
        PositiveOr(c.brightness, s.brightness),
        PositiveOr(c.amplificationFactor, s.amplificationFactor),
        c.showPeaks, c.showPeaksWhenSilent,
        PresentOr(c.peakColor, s.peakColor),
        PresentOr(c.pixelColors, s.pixelColors),
        PresentOr(c.gradientStartColor, s.gradientStartColor),
        PresentOr(c.gradientEndColor, s.gradientEndColor))
  }

  /** A positive incoming value is taken and any other is ignored, field by
      field, for the five numeric settings. */
  lemma ConfiguredNumeric(s: Settings, c: DisplayConfiguration)
    ensures var r := Configured(s, Some(c));
      && (c.peakWait > 0 ==> r.peakWait == c.peakWait) && (c.peakWait <= 0 ==> r.peakWait == s.peakWait)
      && (c.peakWaitCountDown > 0 ==> r.peakWaitCountDown == c.peakWaitCountDown)
      && (c.peakWaitCountDown <= 0 ==> r.peakWaitCountDown == s.peakWaitCountDown)
      && (c.transitionSpeed > 0.0 ==> r.transitionSpeed == c.transitionSpeed)
      && (c.transitionSpeed <= 0.0 ==> r.transitionSpeed == s.transitionSpeed)
      && (c.brightness > 0 ==> r.brightness == c.brightness) && (c.brightness <= 0 ==> r.brightness == s.brightness)
      && (c.amplificationFactor > 0 ==> r.amplificationFactor == c.amplificationFactor)
      && (c.amplificationFactor <= 0 ==> r.amplificationFactor == s.amplificationFactor)
  {
  }

  /** A present colour or palette replaces the current one; a missing one
      leaves it. */
  lemma ConfiguredColors(s: Settings, c: DisplayConfiguration)
    ensures var r := Configured(s, Some(c));
      && r.peakColor == (if c.peakColor.Some? then c.peakColor.value else s.peakColor)
      && r.pixelColors == (if c.pixelColors.Some? then c.pixelColors.value else s.pixelColors)
      && r.gradientStartColor == (if c.gradientStartColor.Some? then c.gradientStartColor.value else s.gradientStartColor)
      && r.gradientEndColor == (if c.gradientEndColor.Some? then c.gradientEndColor.value else s.gradientEndColor)
  {
  }

  /** Applying the same configuration twice is the same as applying it once. */
  lemma ConfiguredIdempotent(s: Settings, config: Option<DisplayConfiguration>)
    ensures Configured(Configured(s, config), config) == Configured(s, config)
  {
  }

  class Display {
    const rows: int
    const cols: int
    /** `_curLevels`: allocated with one entry per row, read for each column. */
    const curLevels: array<real>
    const colPeaks: array<ColPeak>
    /** The image of the LED strip, [row, column]. */
    const frame: array2<PixelColor>

    var transitionSpeed: real
    var peakWait: int
    var peakWaitCountDown: int
    var brightness: int
    var amplificationFactor: int
    var showPeaks: bool
    var showPeaksWhenSilent: bool
    var peakColor: PixelColor
    var pixelColors: seq<seq<PixelColor>>
    var gradientStartColor: PixelColor
    var gradientEndColor: PixelColor

    /** The arrays have the display's shape (the current levels one per row,
        which holds every column only because `cols <= rows`), every held peak
        is on the display, and the timing, speed and brightness settings are
        positive. */
    ghost predicate Valid()
      reads this, colPeaks
    {
      0 <= cols <= rows
      && curLevels.Length == rows && colPeaks.Length == cols
      && frame.Length0 == rows && frame.Length1 == cols
      && Positive(Current())
      && forall c :: 0 <= c < cols ==> 0 <= colPeaks[c].row < rows
    }

    /** A new display: default settings, a gradient palette, all pixels black,
        all levels and peaks at the bottom. A single row would divide by zero
        in the gradient, and more columns than rows index past the current
        levels on the first frame. */
    constructor(rows: int, cols: int)
      requires rows == 0 || rows >= 2
      requires 0 <= cols <= rows
      ensures Valid()
      ensures this.rows == rows && this.cols == cols
      ensures fresh(curLevels) && fresh(colPeaks) && fresh(frame)
      ensures transitionSpeed == 1.5 && peakWait == 500 && peakWaitCountDown == 100
      ensures brightness == 2 && amplificationFactor == 5000
      ensures showPeaks && showPeaksWhenSilent
      ensures peakColor == PixelColor(255, 0, 0)
      ensures gradientStartColor == PixelColor(100, 255, 0) && gradientEndColor == PixelColor(255, 100, 0)
      ensures pixelColors == DefaultColors(gradientStartColor, gradientEndColor, rows, cols)
      ensures forall c :: 0 <= c < rows ==> curLevels[c] == 0.0
      ensures forall c :: 0 <= c < cols ==> colPeaks[c] == Initial
      ensures forall y, x :: 0 <= y < rows && 0 <= x < cols ==> frame[y, x] == BlackPixel
    {
      this.rows := rows;
      this.cols := cols;
      curLevels := new real[rows](_ => 0.0);
      colPeaks := new ColPeak[cols](_ => Initial);
      frame := new PixelColor[rows, cols]((_, _) => BlackPixel);
      transitionSpeed := 1.5;
      peakWait := 500;
      peakWaitCountDown := 100;
      brightness := 2;
      amplificationFactor := 5000;
      showPeaks := true;
      showPeaksWhenSilent := true;
      peakColor := PixelColor(255, 0, 0);
      gradientStartColor := PixelColor(100, 255, 0);
      gradientEndColor := PixelColor(255, 100, 0);
      pixelColors := [];
      new;
      SetupDefaultColors();
      Clear();
    }

    /** Every column gets the gradient from the start to the end colour, one
        colour per row. */
    method SetupDefaultColors()
      requires rows == 0 || rows >= 2
      requires 0 <= cols
      modifies this`pixelColors
      ensures pixelColors == DefaultColors(gradientStartColor, gradientEndColor, rows, cols)
    {
      var start, end := gradientStartColor, gradientEndColor;
      var gradient := Colors.GenerateGradient(start, end, rows);
      ghost var column := seq(rows, y requires 0 <= y < rows => GradientAt(start, end, y, rows));
      assert gradient[..] == column;
      var columns: seq<seq<PixelColor>> := [];
      for x := 0 to cols
        invariant |columns| == x
        invariant forall k :: 0 <= k < x ==> columns[k] == column
      {
        var colors: seq<PixelColor> := [];
        for y := 0 to rows
          invariant colors == gradient[..y]
        {
          assert gradient[..y + 1] == gradient[..y] + [gradient[y]];
          colors := colors + [gradient[y]];
        }
        assert gradient[..rows] == gradient[..];
        columns := columns + [colors];
      }
      assert columns == DefaultColors(start, end, rows, cols);
      pixelColors := columns;
    }

    /** Every pixel of the strip black. */
    method Clear()
      requires Valid()
      modifies frame
      ensures forall y, x :: 0 <= y < rows && 0 <= x < cols ==> frame[y, x] == BlackPixel
    {
      for y := 0 to rows
        invariant forall r, x :: 0 <= r < y && 0 <= x < cols ==> frame[r, x] == BlackPixel
      {
        for x := 0 to cols
          invariant forall r, c :: 0 <= r < rows && 0 <= c < cols && (r < y || (r == y && c < x)) ==> frame[r, c] == BlackPixel
        {
          frame[y, x] := BlackPixel;
        }
      }
    }

    /** The settings as one record. */
    function Current(): Settings
      reads this
    {
      Settings(transitionSpeed, peakWait, peakWaitCountDown, brightness, amplificationFactor,
               showPeaks, showPeaksWhenSilent, peakColor, pixelColors, gradientStartColor, gradientEndColor)
    }

    /** `UpdateConfiguration`: every setting follows `Configured`, and the
        settings stay positive. */
    method UpdateConfiguration(config: Option<DisplayConfiguration>)
      requires Valid()
      modifies this
      ensures Valid()
      ensures Current() == Configured(old(Current()), config)
    {
      var r := Configured(Current(), config);
      Apply(r);
    }

    /** Stores every setting of `r`. */
    method Apply(r: Settings)
      modifies this
      ensures Current() == r
    {
      peakWait, peakWaitCountDown, transitionSpeed, brightness, amplificationFactor :=
        r.peakWait, r.peakWaitCountDown, r.transitionSpeed, r.brightness, r.amplificationFactor;
      showPeaks, showPeaksWhenSilent := r.showPeaks, r.showPeaksWhenSilent;
      peakColor, pixelColors, gradientStartColor, gradientEndColor :=
        r.peakColor, r.pixelColors, r.gradientStartColor, r.gradientEndColor;
    }

    /** The held row at which this frame draws the peak of a column: the record
        after the re-arm of `SetColumnPeaks`, before its fall. */
    function DrawnPeakRow(p: ColPeak, level: real, now: int): int
      reads this
    {
      Rearm(p, Trunc(level), rows, peakWait, now).row
    }

    /** The column's peak record after one frame. */
    function NextPeak(p: ColPeak, level: real, now: int): ColPeak
      reads this
    {
      if showPeaks then Step(p, Trunc(level), rows, peakWait, peakWaitCountDown, now) else p
    }

    /** The colour a frame leaves at row `y` of column `x`, given the column's
        new level and its peak record before the frame. */
    function ShownPixel(y: int, x: int, level: real, p: ColPeak, now: int): PixelColor
      requires Covers(pixelColors, rows, cols) && 0 <= y < rows && 0 <= x < cols
      reads this
    {
      if showPeaks && y == DrawnPeakRow(p, level, now)
      then PeakPixel(y, showPeaksWhenSilent, peakColor, brightness)
      else BarPixel(y, level, pixelColors[x][y], brightness)
    }

    /** With a brightness of at most 100, and the peak colour and the cell's
        palette colour in [0, 255], the colour a frame paints there is in
        [0, 255]: `Color.FromArgb` accepts it. */
    lemma ShownPixelInGamut(y: int, x: int, level: real, p: ColPeak, now: int)
      requires Covers(pixelColors, rows, cols) && 0 <= y < rows && 0 <= x < cols
      requires 0 <= brightness <= 100 && InGamut(peakColor) && InGamut(pixelColors[x][y])
      ensures InGamut(ShownPixel(y, x, level, p, now))
    {
      BrightnessBounds(peakColor, brightness as real);
      BrightnessBounds(pixelColors[x][y], brightness as real);
    }

    /** With a brightness above 100, a lit cell that is not the drawn peak and
        whose palette colour has a full channel is painted outside [0, 255],
        where `Color.FromArgb` throws ArgumentException. */
    lemma OverBrightCellLeavesGamut(y: int, x: int, level: real, p: ColPeak, now: int)
      requires Covers(pixelColors, rows, cols) && 0 <= y < rows && 0 <= x < cols
      requires brightness > 100 && (y as real) < level
      requires !showPeaks || y != DrawnPeakRow(p, level, now)
      requires pixelColors[x][y].r == 255 || pixelColors[x][y].g == 255 || pixelColors[x][y].b == 255
      ensures !InGamut(ShownPixel(y, x, level, p, now))
    {
      BrightnessLeavesGamut(pixelColors[x][y], brightness);
    }

    /** `DisplayAsLevels`: the bands are amplified, normalised and quantised to
        the rows, then shown as one frame. */
    method DisplayAsLevels(bands: seq<BandInfo>, nows: seq<int>)
      requires Valid() && Covers(pixelColors, rows, cols)
      requires |bands| >= cols && |nows| >= cols
      modifies curLevels, colPeaks, frame
      ensures Valid()
      ensures forall x :: 0 <= x < cols ==>
        curLevels[x] == RpiAnalyzer.Smooth(old(curLevels[x]), Levels.DisplayLevels(bands, amplificationFactor, rows)[x].level as real, transitionSpeed)
      ensures forall x :: 0 <= x < cols ==> colPeaks[x] == NextPeak(old(colPeaks[x]), curLevels[x], nows[x])
      ensures forall y, x :: 0 <= y < rows && 0 <= x < cols ==> frame[y, x] == ShownPixel(y, x, curLevels[x], old(colPeaks[x]), nows[x])
    {
      var levels := Levels.DisplayLevels(bands, amplificationFactor, rows);
      DisplayLevels(levels, nows);
    }

    /** One frame: per column, the current level rises to the target at once
        or falls by at most the transition speed but not below the target; the
        rows below the level light up in the column's colours and the rest go
        black; then, when peaks are shown, the peak is re-armed, drawn, and
        advanced. */
    method DisplayLevels(targetLevels: seq<LevelInfo>, nows: seq<int>)
      requires Valid() && Covers(pixelColors, rows, cols)
      requires |targetLevels| >= cols && |nows| >= cols
      modifies curLevels, colPeaks, frame
      ensures Valid()
      ensures forall x :: 0 <= x < cols ==>
        curLevels[x] == RpiAnalyzer.Smooth(old(curLevels[x]), targetLevels[x].level as real, transitionSpeed)
      ensures forall x :: cols <= x < rows ==> curLevels[x] == old(curLevels[x])
      ensures forall x :: 0 <= x < cols ==> colPeaks[x] == NextPeak(old(colPeaks[x]), curLevels[x], nows[x])
      ensures forall y, x :: 0 <= y < rows && 0 <= x < cols ==> frame[y, x] == ShownPixel(y, x, curLevels[x], old(colPeaks[x]), nows[x])
    {
      for x := 0 to cols
        invariant Valid()
        invariant forall c :: 0 <= c < x ==>
          curLevels[c] == RpiAnalyzer.Smooth(old(curLevels[c]), targetLevels[c].level as real, transitionSpeed)
        invariant forall c :: x <= c < rows ==> curLevels[c] == old(curLevels[c])
        invariant forall c :: 0 <= c < x ==> colPeaks[c] == NextPeak(old(colPeaks[c]), curLevels[c], nows[c])
        invariant forall c :: x <= c < cols ==> colPeaks[c] == old(colPeaks[c])
        invariant forall y, c :: 0 <= y < rows && 0 <= c < x ==> frame[y, c] == ShownPixel(y, c, curLevels[c], old(colPeaks[c]), nows[c])
      {
        DisplayColumn(x, targetLevels[x].level, nows[x]);
      }
    }

    /** The body of the column loop of `DisplayLevels` for column `x`. */
    method DisplayColumn(x: int, targetLevel: int, now: int)
      requires Valid() && Covers(pixelColors, rows, cols) && 0 <= x < cols
      modifies curLevels, colPeaks, frame
      ensures Valid()
      ensures curLevels[x] == RpiAnalyzer.Smooth(old(curLevels[x]), targetLevel as real, transitionSpeed)
      ensures forall c :: 0 <= c < rows && c != x ==> curLevels[c] == old(curLevels[c])
      ensures colPeaks[x] == NextPeak(old(colPeaks[x]), curLevels[x], now)
      ensures forall c :: 0 <= c < cols && c != x ==> colPeaks[c] == old(colPeaks[c])
      ensures forall y, c :: 0 <= y < rows && 0 <= c < cols ==>
        frame[y, c] == (if c == x then ShownPixel(y, x, curLevels[x], old(colPeaks[x]), now) else old(frame[y, c]))
    {
      var target := targetLevel as real;
      if target > curLevels[x] {
        curLevels[x] := target;
      } else if target < curLevels[x] {
        curLevels[x] := MaxReal(curLevels[x] - transitionSpeed, target);
      }
      var level := curLevels[x];
      FillColumn(x, level);
      if showPeaks {
        SetColumnPeaks(x, Trunc(level), now);
      }
    }

    /** The row loop of `DisplayLevels` for column `x`: rows below the level
        get the column's colour at the configured brightness, the others go
        black; no other column changes. */
    method FillColumn(x: int, level: real)
      requires Valid() && Covers(pixelColors, rows, cols) && 0 <= x < cols
      modifies frame
      ensures forall r, c :: 0 <= r < rows && 0 <= c < cols ==>
        frame[r, c] == (if c == x then BarPixel(r, level, pixelColors[x][r], brightness) else old(frame[r, c]))
    {
      for y := 0 to rows
        invariant forall r, c :: 0 <= r < rows && 0 <= c < cols ==>
          frame[r, c] == (if c == x && r < y then BarPixel(r, level, pixelColors[x][r], brightness) else old(frame[r, c]))
      {
        if (y as real) < level {
          frame[y, x] := PixelColorWithBrightness(pixelColors[x][y], brightness as real);
        } else {
          frame[y, x] := BlackPixel;
        }
      }
    }

    /** `SetColumnPeaks`: a value above the held row re-arms the peak (clamped
        to the top row, both timestamps now, the full wait); the pixel at the
        held row is set to the peak colour when visible and black otherwise;
        then the peak falls one row if the wait has elapsed and the wait is
        shortened by the countdown, not below it. */
    method SetColumnPeaks(col: int, value: int, now: int)
      requires Valid() && 0 <= col < cols
      modifies colPeaks, frame
      ensures Valid()
      ensures colPeaks[col] == Step(old(colPeaks[col]), value, rows, peakWait, peakWaitCountDown, now)
      ensures forall c :: 0 <= c < cols && c != col ==> colPeaks[c] == old(colPeaks[c])
      ensures var row := Rearm(old(colPeaks[col]), value, rows, peakWait, now).row;
        forall y, x :: 0 <= y < rows && 0 <= x < cols ==>
          frame[y, x] == (if y == row && x == col then PeakPixel(row, showPeaksWhenSilent, peakColor, brightness) else old(frame[y, x]))
    {
      var p := colPeaks[col];
      StepRowInRange(p, value, rows, peakWait, peakWaitCountDown, now);
      var topRowIndex := rows - 1;
      if value > p.row {
        p := p.(row := value);
        if p.row > topRowIndex {
          p := p.(row := topRowIndex);
        }
        p := p.(curMilSecs := now, prevMilSecs := now);
        p := p.(curWait := peakWait);
      }
      assert p == Rearm(old(colPeaks[col]), value, rows, peakWait, now);

      var targetPeakRow := 1;
      if showPeaksWhenSilent {
        targetPeakRow := 0;
      }
      if p.row >= targetPeakRow {
        frame[p.row, col] := PixelColorWithBrightness(peakColor, brightness as real);
      } else {
        frame[p.row, col] := BlackPixel;
      }

      p := p.(curMilSecs := now);
      if p.curMilSecs - p.prevMilSecs >= p.curWait {
        if p.row > 0 {
          p := p.(row := p.row - 1, prevMilSecs := p.curMilSecs);
        }
      }
      p := p.(curWait := p.curWait - peakWaitCountDown);
      if p.curWait < peakWaitCountDown {
        p := p.(curWait := peakWaitCountDown);
      }
      colPeaks[col] := p;
    }
  }

  // ---------------------------------------------------------------------------
  // Properties of a frame

  /** After a frame a column's level is at least its target, at most the
      larger of the target and the previous level, and it fell by at most the
      transition speed; with the previous level and the target on the display
      (0..rows), so is the new level. */
  lemma LevelFollowsTarget(previous: real, target: real, speed: real, rows: int)
    requires speed > 0.0
    ensures target <= RpiAnalyzer.Smooth(previous, target, speed) <= MaxReal(previous, target)
    ensures RpiAnalyzer.Smooth(previous, target, speed) >= previous - speed
    ensures 0.0 <= previous <= rows as real && 0.0 <= target <= rows as real ==>
      0.0 <= RpiAnalyzer.Smooth(previous, target, speed) <= rows as real
  {
    RpiAnalyzer.SmoothBounds(previous, target, speed);
  }

  /** The drawn peak is never below the top row of the bar that the
      truncated level lights fully: every such row keeps its bar colour. */
  lemma PeakNeverHidesTheBar(p: ColPeak, level: real, rows: int, peakWait: int, now: int, y: int)
    requires 0 <= y < MinInt(Trunc(level), rows - 1)
    ensures Rearm(p, Trunc(level), rows, peakWait, now).row > y
    ensures forall color, brightness :: BarPixel(y, level, color, brightness) == PixelColorWithBrightness(color, brightness as real)
  {
  }

  /** How far `k` frames of the transition speed bring a level down. */
  function Drop(speed: real, k: nat): real
    decreases k
  {
    if k == 0 then 0.0 else Drop(speed, k - 1) + speed
  }

  /** The drop after `k` frames is `k` times the speed. */
  lemma {:induction false} DropIsProduct(speed: real, k: nat)
    ensures Drop(speed, k) == k as real * speed
    decreases k
  {
    if k > 0 {
      DropIsProduct(speed, k - 1);
      var n := (k - 1) as real;
      assert n * speed + speed == (n + 1.0) * speed;
    }
  }

  /** With an unchanging target below it, the level falls by exactly the
      transition speed per frame until it reaches the target, and then stays. */
  lemma {:induction false} SettleClosedForm(current: real, target: real, speed: real, k: nat)
    requires speed > 0.0 && target <= current
    ensures Settle(current, target, speed, k) == MaxReal(current - Drop(speed, k), target)
    decreases k
  {
    if k > 0 {
      var next := RpiAnalyzer.Smooth(current, target, speed);
      SettleClosedForm(next, target, speed, k - 1);
      DropNonnegative(speed, k - 1);
      if current - speed >= target {
        assert next == current - speed;
      } else {
        assert next == target;
      }
    }
  }

  lemma {:induction false} DropNonnegative(speed: real, k: nat)
    requires speed > 0.0
    ensures Drop(speed, k) >= 0.0
    decreases k
  {
    if k > 0 {
      DropNonnegative(speed, k - 1);
    }
  }

  /** Enough frames bring the level to the target: after `k` frames with
      `k * speed >= current - target` the bar stands exactly at the target. */
  lemma SettleReachesTarget(current: real, target: real, speed: real, k: nat)
    requires speed > 0.0 && target <= current && k as real * speed >= current - target
    ensures Settle(current, target, speed, k) == target
  {
    SettleClosedForm(current, target, speed, k);
    DropIsProduct(speed, k);
  }

  /** The default palette covers the display, every column runs from the
      start colour at the bottom row to the end colour at the top row, and
      with in-gamut ends every colour is in gamut. */
  lemma DefaultColorsShape(start: PixelColor, end: PixelColor, rows: int, cols: int)
    requires rows >= 2 && cols >= 0
    ensures Covers(DefaultColors(start, end, rows, cols), rows, cols)
    ensures forall x :: 0 <= x < cols ==>
      DefaultColors(start, end, rows, cols)[x][0] == start && DefaultColors(start, end, rows, cols)[x][rows - 1] == end
    ensures InGamut(start) && InGamut(end) ==>
      forall x, y :: 0 <= x < cols && 0 <= y < rows ==> InGamut(DefaultColors(start, end, rows, cols)[x][y])
  {
    GradientEndpoints(start, end, rows);
    if InGamut(start) && InGamut(end) {
      forall x, y | 0 <= x < cols && 0 <= y < rows
        ensures InGamut(DefaultColors(start, end, rows, cols)[x][y])
      {
        GradientInGamut(start, end, y, rows);
      }
    }
  }
}
