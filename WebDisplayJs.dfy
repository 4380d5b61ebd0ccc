/** The renderer running in the browser (RpiSpectrumAnalyzer/wwwroot/WebDisplay.js).
    It draws each frame into a table of cells, one per row and band, with the
    band's label under each column, and keeps one peak record per column.
    Unlike the server side it keeps the current level and the held peak as
    JavaScript numbers, so the peak row can be fractional. The table is
    modelled as the colour string of each cell, `cells[y, x]` for row `y`
    counted from the bottom, and the text of each label; `Date.now()` is one
    reading per column, passed in. */
module WebDisplayJs {
  import opened Prelude
  import opened PeakHold
  import opened Text
  import opened Levels
  import HexColor
  import RpiAnalyzer

  /** The colour of an unlit cell. */
  const BlackPixel: string := "black"

  /** The part of the server configuration the renderer reads. */
  datatype ClientConfig = ClientConfig(
    rows: int, cols: int,
    transitionSpeed: real, peakWait: int, peakWaitCountDown: int,
    showPeaks: bool, showPeaksWhenSilent: bool,
    peakColor: HexColor.Rgb, pixelColors: seq<seq<HexColor.Rgb>>)

  /** A configuration the constructor can read: every colour it converts is
      there and has its channels in [0, 255]. */
  predicate WellFormed(config: ClientConfig)
  {
    config.rows >= 0 && config.cols >= 0
    && HexColor.InRange(config.peakColor)
    && |config.pixelColors| >= config.cols
    && forall x :: 0 <= x < config.cols ==>
         |config.pixelColors[x]| >= config.rows && forall y :: 0 <= y < config.rows ==> HexColor.InRange(config.pixelColors[x][y])
  }

  /** `populatePixelColors`: every cell's colour as a hex string. */
  function HexPalette(config: ClientConfig): (palette: seq<seq<string>>)
    requires WellFormed(config)
    ensures |palette| == config.cols
    ensures forall x :: 0 <= x < config.cols ==> |palette[x]| == config.rows
  {
    seq(config.cols, x requires 0 <= x < config.cols =>
      seq(config.rows, y requires 0 <= y < config.rows => HexColor.RgbToHexString(config.pixelColors[x][y])))
  }

  // ---------------------------------------------------------------------------
  // Labels

  /** The digits after the point of f/1000 for 0 <= f < 1000, without trailing
      zeros, after a point; empty for 0. */
  function FractionText(f: int): string
    requires 0 <= f < 1000
  {
    if f == 0 then ""
    else if f % 100 == 0 then "." + [DigitChar(f / 100)]
    else if f % 10 == 0 then "." + [DigitChar(f / 100), DigitChar(f / 10 % 10)]
    else "." + [DigitChar(f / 100), DigitChar(f / 10 % 10), DigitChar(f % 10)]
  }

  /** The label under a band: `(band / 1000) + 'KHz'` from 1000 Hz up, where
      the division is exact and `toString` writes the shortest decimal, and
      `band + 'Hz'` below. */
  function Label(band: int): string
  {
    if band >= 1000 then NatString(band / 1000) + FractionText(band % 1000) + "KHz"
    else DecimalString(band) + "Hz"
  }

  /** Pads a string of fraction digits to three, which reads it in thousandths. */
  function Pad3(digits: string): (padded: string)
    requires |digits| <= 3
    ensures |padded| == 3 && padded[..|digits|] == digits
    ensures AllDigits(digits) ==> AllDigits(padded)
  {
    digits + seq(3 - |digits|, _ => '0')
  }

  // ---------------------------------------------------------------------------
  // Peaks

  /** A peak record `{row, curWait, curTime, prevTime}`, with the row as a
      JavaScript number. */
  datatype JsPeak = JsPeak(row: real, curWait: int, curTime: int, prevTime: int)

  const InitialPeak: JsPeak := JsPeak(0.0, 0, 0, 0)

  /** The re-arm, on the un-truncated current level. */
  function JsRearm(p: JsPeak, value: real, rows: int, peakWait: int, now: int): JsPeak
  {
    if value > p.row then
      JsPeak(if value > (rows - 1) as real then (rows - 1) as real else value, peakWait, now, now)
    else p
  }

  /** The fall: one row down once the wait has elapsed, if above 0. */
  function JsFall(p: JsPeak, now: int): JsPeak
  {
    var q := p.(curTime := now);
    if q.curTime - q.prevTime >= q.curWait && q.row > 0.0
    then q.(row := q.row - 1.0, prevTime := q.curTime)
    else q
  }

  /** The wait, shortened by the countdown with the countdown as floor. */
  function JsAccelerate(p: JsPeak, countDown: int): JsPeak
  {
    var w := p.curWait - countDown;
    p.(curWait := if w < countDown then countDown else w)
  }

  /** One call of `setPeaks` on the record. */
  function JsStep(p: JsPeak, value: real, rows: int, peakWait: int, countDown: int, now: int): JsPeak
  {
    JsAccelerate(JsFall(JsRearm(p, value, rows, peakWait, now), now), countDown)
  }

  /** Whether the held peak is coloured: strictly above the threshold. */
  predicate JsPeakShown(row: real, showPeaksWhenSilent: bool)
  {
    row > PeakThreshold(showPeaksWhenSilent) as real
  }

  /** The table row the `data-px-y="${row}"` selector finds: a whole number
      inside the table; any other row selects no cell. */
  function PeakCellRow(row: real, rows: int): Option<int>
  {
    if row == row.Floor as real && 0 <= row.Floor < rows then Some(row.Floor) else None
  }

  /** The record as the server-side `ColPeak` it corresponds to. */
  function Lift(p: ColPeak): JsPeak
  {
    JsPeak(p.row as real, p.curWait, p.curMilSecs, p.prevMilSecs)
  }

  class Renderer {
    const rows: int
    const cols: int
    const showPeaksWhenSilent: bool
    const curLevels: array<real>
    const colPeaks: array<JsPeak>
    /** The background colour of each cell, [row from the bottom, band]. */
    const cells: array2<string>
    /** The text of each band's label cell. */
    const labels: array<string>

    var transitionSpeed: real
    var peakWait: int
    var peakWaitCountDown: int
    var showPeaks: bool
    var peakColor: string
    var pixelColors: seq<seq<string>>

    ghost predicate Valid()
      reads this
    {
      0 <= rows && 0 <= cols
      && curLevels.Length == cols && colPeaks.Length == cols
      && cells.Length0 == rows && cells.Length1 == cols && labels.Length == cols
      && |pixelColors| == cols && (forall x :: 0 <= x < cols ==> |pixelColors[x]| == rows)
    }

    /** `constructor`: the settings and colours from the configuration, one
        current level 0 and one zero peak record per column, and a table of
        unlit cells whose labels are the column numbers. */
    constructor(config: ClientConfig)
      requires WellFormed(config)
      ensures Valid()
      ensures rows == config.rows && cols == config.cols && showPeaksWhenSilent == config.showPeaksWhenSilent
      ensures transitionSpeed == config.transitionSpeed && peakWait == config.peakWait
      ensures peakWaitCountDown == config.peakWaitCountDown && showPeaks == config.showPeaks
      ensures peakColor == HexColor.RgbToHexString(config.peakColor)
      ensures pixelColors == HexPalette(config)
      ensures forall x :: 0 <= x < cols ==> curLevels[x] == 0.0 && colPeaks[x] == InitialPeak && labels[x] == NatString(x)
      ensures forall y, x :: 0 <= y < rows && 0 <= x < cols ==> cells[y, x] == HexColor.RgbToHexString(HexColor.Rgb(5, 5, 5))
    {
      rows := config.rows;
      cols := config.cols;
      showPeaksWhenSilent := config.showPeaksWhenSilent;
      peakColor := HexColor.RgbToHexString(config.peakColor);
      transitionSpeed := config.transitionSpeed;
      peakWait := config.peakWait;
      peakWaitCountDown := config.peakWaitCountDown;
      showPeaks := config.showPeaks;
      pixelColors := HexPalette(config);
      curLevels := new real[config.cols](_ => 0.0);
      colPeaks := new JsPeak[config.cols](_ => InitialPeak);
      cells := new string[config.rows, config.cols]((_, _) => HexColor.RgbToHexString(HexColor.Rgb(5, 5, 5)));
      labels := new string[config.cols](x requires 0 <= x => NatString(x));
    }

    /** `clear`: every cell of the matrix black. The selector also matches the
        band-label cells and blackens their background; labels are modelled
        as text only, so that effect is outside the model. */
    method Clear()
      requires Valid()
      modifies cells
      ensures forall y, x :: 0 <= y < rows && 0 <= x < cols ==> cells[y, x] == BlackPixel
    {
      for y := 0 to rows
        invariant forall r, x :: 0 <= r < y && 0 <= x < cols ==> cells[r, x] == BlackPixel
      {
        for x := 0 to cols
          invariant forall r, c :: 0 <= r < rows && 0 <= c < cols && (r < y || (r == y && c < x)) ==> cells[r, c] == BlackPixel
        {
          cells[y, x] := BlackPixel;
        }
      }
    }

    /** The colour a frame leaves in row `y` of band `x`: the colour that
        `setPeaks` paints if its row selects this cell, otherwise the column's
        colour below the level and black above it. */
    function Cell(y: int, x: int, level: real, p: JsPeak, now: int): string
      requires Valid() && 0 <= y < rows && 0 <= x < cols
      reads this
    {
      var peakRow := JsRearm(p, level, rows, peakWait, now).row;
      if showPeaks && PeakCellRow(peakRow, rows) == Some(y) then
        (if JsPeakShown(peakRow, showPeaksWhenSilent) then peakColor else BlackPixel)
      else BarCell(y, x, level)
    }

    /** A cell of the bar alone: the column's colour for the row below the
        level, black above. */
    function BarCell(y: int, x: int, level: real): string
      requires Valid() && 0 <= y < rows && 0 <= x < cols
      reads this
    {
      if (y as real) < level then pixelColors[x][y] else BlackPixel
    }

    /** `displayLevels`: for every configured column, the current level rises
        to the target at once or falls by at most the transition speed but not
        below the target; the column's cells are drawn, its label written, and
        with peaks on `setPeaks` runs once with the new current level. */
    method DisplayLevels(targetLevels: seq<LevelInfo>, nows: seq<int>)
      requires Valid() && |targetLevels| >= cols && |nows| >= cols
      modifies curLevels, colPeaks, cells, labels
      ensures forall x :: 0 <= x < cols ==>
        curLevels[x] == RpiAnalyzer.Smooth(old(curLevels[x]), targetLevels[x].level as real, transitionSpeed)
      ensures forall x :: 0 <= x < cols ==>
        colPeaks[x] == (if showPeaks then JsStep(old(colPeaks[x]), curLevels[x], rows, peakWait, peakWaitCountDown, nows[x]) else old(colPeaks[x]))
      ensures forall y, x :: 0 <= y < rows && 0 <= x < cols ==> cells[y, x] == Cell(y, x, curLevels[x], old(colPeaks[x]), nows[x])
      ensures forall x :: 0 <= x < cols ==> labels[x] == Label(targetLevels[x].band)
    {
      for x := 0 to cols
        invariant forall c :: 0 <= c < x ==>
          curLevels[c] == RpiAnalyzer.Smooth(old(curLevels[c]), targetLevels[c].level as real, transitionSpeed)
        invariant forall c :: 0 <= c < x ==>
          colPeaks[c] == (if showPeaks then JsStep(old(colPeaks[c]), curLevels[c], rows, peakWait, peakWaitCountDown, nows[c]) else old(colPeaks[c]))
        invariant forall y, c :: 0 <= y < rows && 0 <= c < x ==> cells[y, c] == Cell(y, c, curLevels[c], old(colPeaks[c]), nows[c])
        invariant forall c :: 0 <= c < x ==> labels[c] == Label(targetLevels[c].band)
        invariant forall c :: x <= c < cols ==> curLevels[c] == old(curLevels[c]) && colPeaks[c] == old(colPeaks[c])
      {
        DisplayColumn(x, targetLevels[x], nows[x]);
      }
    }

    /** The body of the column loop of `displayLevels` for band `x`. */
    method DisplayColumn(x: int, target: LevelInfo, now: int)
      requires Valid() && 0 <= x < cols
      modifies curLevels, colPeaks, cells, labels
      ensures curLevels[x] == RpiAnalyzer.Smooth(old(curLevels[x]), target.level as real, transitionSpeed)
      ensures colPeaks[x] == (if showPeaks then JsStep(old(colPeaks[x]), curLevels[x], rows, peakWait, peakWaitCountDown, now) else old(colPeaks[x]))
      ensures labels[x] == Label(target.band)
      ensures forall c :: 0 <= c < cols && c != x ==>
        curLevels[c] == old(curLevels[c]) && colPeaks[c] == old(colPeaks[c]) && labels[c] == old(labels[c])
      ensures forall y, c :: 0 <= y < rows && 0 <= c < cols ==>
        cells[y, c] == (if c == x then Cell(y, x, curLevels[x], old(colPeaks[x]), now) else old(cells[y, c]))
    {
      var targetLevel := target.level as real;
      if targetLevel > curLevels[x] {
        curLevels[x] := targetLevel;
      } else if targetLevel < curLevels[x] {
        curLevels[x] := MaxReal(curLevels[x] - transitionSpeed, targetLevel);
      }
      var level := curLevels[x];
      DrawBar(x, level);
      labels[x] := Label(target.band);
      if showPeaks {
        SetPeaks(x, level, now);
      }
    }

    /** The row loop of `displayLevels`: column x of the table drawn as a bar
        up to the level. */
    method DrawBar(x: int, level: real)
      requires Valid() && 0 <= x < cols
      modifies cells
      ensures forall y, c :: 0 <= y < rows && 0 <= c < cols ==>
        cells[y, c] == (if c == x then BarCell(y, x, level) else old(cells[y, c]))
    {
      for y := 0 to rows
        invariant forall r, c :: 0 <= r < rows && 0 <= c < cols ==>
          cells[r, c] == (if c == x && r < y then BarCell(r, x, level) else old(cells[r, c]))
      {
        var color := "";
        if (y as real) < level {
          color := pixelColors[x][y];
        } else {
          color := BlackPixel;
        }
        cells[y, x] := color;
      }
    }

    /** `setPeaks`: one step of the column's peak record; the cell at the
        re-armed row, if the row selects one, is painted in the peak colour
        when the row is strictly above the threshold and black otherwise. */
    method SetPeaks(col: int, value: real, now: int)
      requires Valid() && 0 <= col < cols
      modifies colPeaks, cells
      ensures colPeaks[col] == JsStep(old(colPeaks[col]), value, rows, peakWait, peakWaitCountDown, now)
      ensures forall c :: 0 <= c < cols && c != col ==> colPeaks[c] == old(colPeaks[c])
      ensures var row := JsRearm(old(colPeaks[col]), value, rows, peakWait, now).row;
        forall y, c :: 0 <= y < rows && 0 <= c < cols ==>
          cells[y, c] == (if c == col && PeakCellRow(row, rows) == Some(y)
                          then (if JsPeakShown(row, showPeaksWhenSilent) then peakColor else BlackPixel)
                          else old(cells[y, c]))
    {
      var p := colPeaks[col];
      var topRowIndex := rows - 1;
      if value > p.row {
        p := p.(row := value);
        if p.row > topRowIndex as real {
          p := p.(row := topRowIndex as real);
        }
        p := p.(curTime := now, prevTime := now);
        p := p.(curWait := peakWait);
      }
      PaintPeak(col, p.row);
      p := p.(curTime := now);
      if p.curTime - p.prevTime >= p.curWait {
        if p.row > 0.0 {
          p := p.(row := p.row - 1.0, prevTime := p.curTime);
        }
      }
      p := p.(curWait := p.curWait - peakWaitCountDown);
      if p.curWait < peakWaitCountDown {
        p := p.(curWait := peakWaitCountDown);
      }
      colPeaks[col] := p;
    }

    /** The painting half of `setPeaks` for the re-armed row `row`. */
    method PaintPeak(col: int, row: real)
      requires Valid() && 0 <= col < cols
      modifies cells
      ensures forall y, c :: 0 <= y < rows && 0 <= c < cols ==>
        cells[y, c] == (if c == col && PeakCellRow(row, rows) == Some(y)
                        then (if JsPeakShown(row, showPeaksWhenSilent) then peakColor else BlackPixel)
                        else old(cells[y, c]))
    {
      var targetPeakRow := 1;
      if showPeaksWhenSilent {
        targetPeakRow := 0;
      }
      var color := "";
      if row > targetPeakRow as real {
        color := peakColor;
      } else {
        color := BlackPixel;
      }
      var cell := PeakCellRow(row, rows);
      if cell.Some? {
        cells[cell.value, col] := color;
      }
    }
  }

  // ---------------------------------------------------------------------------
  // Properties

  /** On whole rows and whole levels the browser's peak step is the server's. */
  lemma JsStepAgreesWithStep(p: ColPeak, value: int, rows: int, peakWait: int, countDown: int, now: int)
    ensures JsStep(Lift(p), value as real, rows, peakWait, countDown, now) == Lift(Step(p, value, rows, peakWait, countDown, now))
  {
  }

  /** A fractional current level (from a fractional transition speed) re-arms
      the peak at a fractional row, and the fall can then take the row below 0:
      level 0.5 with an elapsed wait leaves the row at -0.5. */
  lemma FractionalRowGoesBelowZero()
    ensures JsStep(InitialPeak, 0.5, 10, 0, 20, 0).row == -0.5
    ensures PeakCellRow(-0.5, 10).None?
  {
  }

  /** The row stays above -1 and at or below the top row: a row once in
      (-1, rows - 1] never leaves it. */
  lemma JsStepRowBounds(p: JsPeak, value: real, rows: int, peakWait: int, countDown: int, now: int)
    requires rows >= 1 && -1.0 < p.row <= (rows - 1) as real
    ensures var q := JsStep(p, value, rows, peakWait, countDown, now);
      -1.0 < q.row <= (rows - 1) as real
  {
  }

  /** After a step the wait is at least the countdown, as on the server. */
  lemma JsStepWaitFloor(p: JsPeak, value: real, rows: int, peakWait: int, countDown: int, now: int)
    ensures JsStep(p, value, rows, peakWait, countDown, now).curWait >= countDown
  {
  }

  /** The browser's test is strict: a peak exactly at the threshold, which the
      server displays draw, is painted black here. */
  lemma JsHidesPeakAtThreshold(showPeaksWhenSilent: bool)
    ensures PeakVisible(PeakThreshold(showPeaksWhenSilent), showPeaksWhenSilent)
    ensures !JsPeakShown(PeakThreshold(showPeaksWhenSilent) as real, showPeaksWhenSilent)
  {
  }

  /** On whole rows the browser draws the peak one row later than the server
      displays: exactly where they would draw the row below. */
  lemma JsThresholdIsOneHigher(row: int, showPeaksWhenSilent: bool)
    ensures JsPeakShown(row as real, showPeaksWhenSilent) <==> PeakVisible(row - 1, showPeaksWhenSilent)
  {
  }

  /** A kilohertz label is the exact quotient band / 1000 in shortest decimal
      form: the whole kilohertz, then, unless the band is a whole number of
      kilohertz, a point and one to three digits, the last not 0, that read in
      thousandths as the remainder. */
  lemma KiloLabelExact(band: int)
    requires band >= 1000
    ensures var whole := NatString(band / 1000); var frac := FractionText(band % 1000);
      Label(band) == whole + frac + "KHz"
      && DigitsValue(whole) == band / 1000
      && (frac == "" <==> band % 1000 == 0)
      && (frac != "" ==>
            2 <= |frac| <= 4 && frac[0] == '.' && AllDigits(frac[1..])
            && frac[|frac| - 1] != '0' && DigitsValue(Pad3(frac[1..])) == band % 1000)
  {
    NatStringValue(band / 1000);
    var f := band % 1000;
    if f != 0 {
      FractionValue(f);
    }
  }

  lemma FractionValue(f: int)
    requires 0 < f < 1000
    ensures var frac := FractionText(f);
      2 <= |frac| <= 4 && frac[0] == '.' && AllDigits(frac[1..])
      && frac[|frac| - 1] != '0' && DigitsValue(Pad3(frac[1..])) == f
  {
    if f % 100 == 0 {
      FractionHundreds(f);
    } else if f % 10 == 0 {
      FractionTens(f);
    } else {
      FractionUnits(f);
    }
  }

  /** A whole number of tenths: one digit. */
  lemma FractionHundreds(f: int)
    requires 0 < f < 1000 && f % 100 == 0
    ensures FractionText(f) == ['.', DigitChar(f / 100)]
    ensures DigitChar(f / 100) != '0' && DigitsValue(Pad3([DigitChar(f / 100)])) == f
  {
    var c1 := DigitChar(f / 100);
    DigitCharValue(f / 100);
    DigitCharValue(0);
    assert Pad3([c1]) == [c1, '0', '0'];
    DigitsValueSteps(c1, '0', '0');
  }

  /** A whole number of hundredths but not of tenths: two digits. */
  lemma FractionTens(f: int)
    requires 0 < f < 1000 && f % 100 != 0 && f % 10 == 0
    ensures FractionText(f) == ['.', DigitChar(f / 100), DigitChar(f / 10 % 10)]
    ensures DigitChar(f / 10 % 10) != '0'
    ensures DigitsValue(Pad3([DigitChar(f / 100), DigitChar(f / 10 % 10)])) == f
  {
    var c1, c2 := DigitChar(f / 100), DigitChar(f / 10 % 10);
    DigitCharValue(f / 100);
    DigitCharValue(f / 10 % 10);
    DigitCharValue(0);
    assert Pad3([c1, c2]) == [c1, c2, '0'];
    DigitsValueSteps(c1, c2, '0');
    ThreeDigits(f);
  }

  /** Anything else: three digits. */
  lemma FractionUnits(f: int)
    requires 0 < f < 1000 && f % 10 != 0
    ensures FractionText(f) == ['.', DigitChar(f / 100), DigitChar(f / 10 % 10), DigitChar(f % 10)]
    ensures DigitChar(f % 10) != '0'
    ensures DigitsValue(Pad3([DigitChar(f / 100), DigitChar(f / 10 % 10), DigitChar(f % 10)])) == f
  {
    var c1, c2, c3 := DigitChar(f / 100), DigitChar(f / 10 % 10), DigitChar(f % 10);
    DigitCharValue(f / 100);
    DigitCharValue(f / 10 % 10);
    DigitCharValue(f % 10);
    assert Pad3([c1, c2, c3]) == [c1, c2, c3];
    DigitsValueSteps(c1, c2, c3);
    ThreeDigits(f);
  }

  /** A number below 1000 is its hundreds, tens and units. */
  lemma ThreeDigits(f: int)
    requires 0 <= f < 1000
    ensures 0 <= f / 100 < 10 && 0 <= f / 10 % 10 < 10 && 0 <= f % 10 < 10
    ensures f / 100 * 100 + f / 10 % 10 * 10 + f % 10 == f
  {
    var q := f / 10;
    assert f == q * 10 + f % 10;
    assert q == q / 10 * 10 + q % 10;
    assert q / 10 == f / 100;
  }

  /** Three digits read as hundreds, tens and units. */
  lemma DigitsValueSteps(a: char, b: char, c: char)
    requires IsDigit(a) && IsDigit(b) && IsDigit(c)
    ensures DigitsValue([a, b, c]) == DigitValue(a) * 100 + DigitValue(b) * 10 + DigitValue(c)
  {
    assert [a, b, c][..2] == [a, b];
    assert [a, b][..1] == [a];
    assert [a][..0] == [];
    assert DigitsValue([a]) == DigitValue(a);
    assert DigitsValue([a, b]) == DigitValue(a) * 10 + DigitValue(b);
  }

  /** A label below 1000 Hz is the decimal band followed by "Hz", and the
      number reads back as the band. */
  lemma HertzLabelReadsBack(band: int)
    requires Int32Min <= band < 1000
    ensures Label(band) == DecimalString(band) + "Hz"
    ensures ParseInt32(Label(band)[..|Label(band)| - 2]) == Some(band)
  {
    DecimalRoundTrip(band);
    assert Label(band)[..|Label(band)| - 2] == DecimalString(band);
  }
}
