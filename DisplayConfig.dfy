/** The configuration record every Raspberry Pi display exchanges with the web
    API (`DisplayConfiguration` and `DisplayType` in RpiSpectrumAnalyzer/Models.cs). */
module DisplayConfig {
  import opened Prelude
  import opened Colors

  datatype DisplayType = LED | CONSOLE | WEB

  /** A nullable `PixelColor`/`PixelColor[][]` is an Option. */
  datatype DisplayConfiguration = DisplayConfiguration(
    displayType: DisplayType,
    rows: int, cols: int,
    brightnessMin: int, brightness: int, brightnessMax: int,
    transitionSpeedMin: real, transitionSpeed: real, transitionSpeedMax: real,
    peakWaitMin: int, peakWait: int, peakWaitMax: int,
    peakWaitCountDownMin: int, peakWaitCountDown: int, peakWaitCountDownMax: int,
    amplificationFactorMin: int, amplificationFactor: int, amplificationFactorMax: int,
    showPeaks: bool, showPeaksWhenSilent: bool, isBrightnessSupported: bool,
    peakColor: Option<PixelColor>,
    pixelColors: Option<seq<seq<PixelColor>>>,
    gradientStartColor: Option<PixelColor>,
    gradientEndColor: Option<PixelColor>)

  /** `x > 0 ? x : current` for a numeric setting. */
  function PositiveOr(incoming: int, current: int): (r: int)
    ensures incoming > 0 ==> r == incoming
    ensures incoming <= 0 ==> r == current
  {
    if incoming > 0 then incoming else current
  }

  function PositiveOrReal(incoming: real, current: real): (r: real)
    ensures incoming > 0.0 ==> r == incoming
    ensures incoming <= 0.0 ==> r == current
  {
    if incoming > 0.0 then incoming else current
  }

  /** `x != null ? x : current` for a colour or palette. */
  function PresentOr<T>(incoming: Option<T>, current: T): (r: T)
    ensures incoming.Some? ==> r == incoming.value
    ensures incoming.None? ==> r == current
  {
    if incoming.Some? then incoming.value else current
  }
}
