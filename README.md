# Spectrum analyzer core, modelled in Dafny

The spectrum analyzer turns audio into a bar display. Each frame of FFT magnitudes is summed into frequency bands. The bands are smoothed over time (instant attack, a bounded release) and mapped to integer levels, one per column. Every display lights the rows of a column below its level and draws a "peak" pixel above the bar. The peak holds for a while, then falls one row at a time, faster and faster.

The repository carries the same pipeline in several snapshots, and each is modelled in its own module:

- **Raspberry Pi port (C#).**
  - `RpiAnalyzer`: PCM decoding, band bucketing and smoothing.
  - `Levels`: `Amplify`, `Normalize`, `ToLevels` and the integer `Map`.
  - `Colors`: the console colour table, HSL, brightness and gradients.
  - `ConsoleDisplay`, `LedDisplay` and `WebDisplay`: the three displays, as classes whose methods update their fields and buffers.
  - `DisplayConfig`: the configuration record the displays exchange.
  - `ProgramArgs` and `Text`: the command line and the decimal text it parses.
- **Browser (JavaScript).**
  - `HexColor`: the colour helpers.
  - `WebDisplayJs`: the renderer that draws the web display.
- **Current ESP32 build (C++).**
  - `LedMatrix`: the LED matrix with its pixel buffers and peak records.
  - `LedServer`: the server that attenuates, smooths and sends bands to the matrix.
- **Older ESP32 builds.**
  - `EspAnalyzer`: Esp32SpectrumAnalyzer's analyzer.
  - `LegacyAnalyzer` and `LegacyLedMatrix`: the analyzer and the LED matrix of the oldest build.

The peak-hold state machine is implemented five times with small differences. `PeakHold` (file PeakTracker.dfy) states the reference step with the clock as a parameter. Each display's variant is proved equal to it where they agree, and the places where they differ are shown on concrete inputs. `Prelude` writes out each language's rounding and wrap-around rules:

- C# `(int)` and `Convert.ToInt32`;
- truncating integer division;
- JavaScript `Math.round`;
- 8-, 16-, 32- and 64-bit unsigned arithmetic.

Magnitudes, colours in HSL and JavaScript numbers are modelled as `real`.

## Model

| member | source | states |
|---|---|---|
| Levels.Amplify | RpiSpectrumAnalyzer/Extensions.cs:6-9 | one band per input band, in order, each keeping its frequency |
| Levels.AmplifyScales | RpiSpectrumAnalyzer/Extensions.cs:6-9 | each magnitude is multiplied by the amplification factor |
| Levels.AmplifyByZero | RpiSpectrumAnalyzer/Extensions.cs:6-9 | factor 0 silences every band and keeps its frequency |
| Levels.Clamp01 | RpiSpectrumAnalyzer/Extensions.cs:13 | `Math.Clamp(m, 0, 1)`: in [0, 1], the identity inside, 0 below and 1 above |
| Levels.Normalize | RpiSpectrumAnalyzer/Extensions.cs:11-14 | one band per input band, same frequencies, every magnitude in [0, 1] |
| Levels.NormalizeIdempotent | RpiSpectrumAnalyzer/Extensions.cs:11-14 | normalizing twice is normalizing once |
| Levels.NormalizeFixesNormalized | RpiSpectrumAnalyzer/Extensions.cs:11-14 | bands already in [0, 1] are left unchanged |
| Levels.ToLevels | RpiSpectrumAnalyzer/Extensions.cs:16-19 | one level per band, in order, each keeping its frequency |
| Levels.QuantizeBounds | RpiSpectrumAnalyzer/Extensions.cs:18 | a magnitude in [0, 1] rounds to a level in [0, maxLevel] |
| Levels.ToLevelsBounded | RpiSpectrumAnalyzer/Extensions.cs:16-19 | after `Normalize` every level lies in [0, maxLevel] |
| Levels.QuantizeEndpoints | RpiSpectrumAnalyzer/Extensions.cs:18 | magnitude 0 gives level 0 and magnitude 1 gives maxLevel |
| Levels.ToLevelsRanged | RpiSpectrumAnalyzer/Common.cs:141-144 | one level per band, in order, each keeping its frequency |
| Levels.QuantizeRangedEndpoints | RpiSpectrumAnalyzer/Common.cs:141-144 | the ranged overload maps fromMin to toMin and fromMax to toMax |
| Levels.ToLevelsIsRanged | RpiSpectrumAnalyzer/Common.cs:141-150 | the one-argument `ToLevels` is the ranged one from [0, 1] to [0, maxLevel] |
| Levels.MapEndpoints | RpiSpectrumAnalyzer/Extensions.cs:21-24 | `Map` sends fromMin to toMin and fromMax to toMax |
| Levels.MapNonnegative | RpiSpectrumAnalyzer/Extensions.cs:21-24 | on a nonnegative numerator and increasing ranges the truncating division is floor division |
| Levels.DisplayLevelsBounded | RpiSpectrumAnalyzer/ConsoleDisplay.cs:119-121 | amplify, normalize, quantize keeps one level per band, in order, each in [0, rows] |
| Levels.DisplayLevelsSilent | RpiSpectrumAnalyzer/ConsoleDisplay.cs:119-121 | amplification 0 gives level 0 everywhere |
| Levels.DisplayLevelsSaturate | RpiSpectrumAnalyzer/ConsoleDisplay.cs:119-121 | once the amplified magnitude reaches 1 the level is exactly rows |
| Colors.FirstEntry | RpiSpectrumAnalyzer/ColorConversion.cs:24 | `First` finds nothing exactly when no later entry has the colour, and otherwise an entry that has it |
| Colors.ConsoleColorToPixelColor | RpiSpectrumAnalyzer/ColorConversion.cs:22-25 | a found RGB value is tabled against the console colour |
| Colors.UntabledColors | RpiSpectrumAnalyzer/ColorConversion.cs:5-25 | the lookup throws exactly for Black, Gray, DarkGray and White |
| Colors.TableIndex | RpiSpectrumAnalyzer/ColorConversion.cs:5-20 | every other colour has a position in the table |
| Colors.TableInGamut | RpiSpectrumAnalyzer/ColorConversion.cs:5-20 | every tabled RGB channel is in [0, 255] |
| Colors.TableColorsDistinct | RpiSpectrumAnalyzer/ColorConversion.cs:5-20 | no console colour appears twice in the table |
| Colors.ConsoleTableLookup | RpiSpectrumAnalyzer/ColorConversion.cs:22-25 | the lookup of every tabled console colour gives its tabled RGB value |
| Colors.HueSixths | RpiSpectrumAnalyzer/ColorConversion.cs:81-86 | the hue of a non-gray colour, in sixths of a turn, lies in [0, 6) |
| Colors.PixelColorToHsl | RpiSpectrumAnalyzer/ColorConversion.cs:63-92 | hue in [0, 360), saturation and lightness in [0, 1]; a gray has hue 0, saturation 0 and lightness its channel over 255 |
| Colors.SaturationInUnit | RpiSpectrumAnalyzer/ColorConversion.cs:79 | both saturation formulas divide by a positive number and give a value in [0, 1] |
| Colors.HueDegrees | RpiSpectrumAnalyzer/ColorConversion.cs:91 | a hue fraction in [0, 1) truncates to whole degrees in [0, 360) |
| Colors.PixelColorToConsoleColor | RpiSpectrumAnalyzer/ColorConversion.cs:27-38 | the result is White or a colour of the table |
| Colors.ConsoleColorRoundTrip | RpiSpectrumAnalyzer/ColorConversion.cs:22-38 | mapping to a console colour and back throws exactly when the lightness is above 0.75 |
| Colors.GrayConsoleColors | RpiSpectrumAnalyzer/ColorConversion.cs:27-38 | pure white maps to White and black to DarkRed |
| Colors.ScaleChannel | RpiSpectrumAnalyzer/ColorConversion.cs:42-44 | a channel times a brightness in [0, 100] over 100, truncated, lies between 0 and the channel and below the exact product |
| Colors.ScaleChannelEnds | RpiSpectrumAnalyzer/ColorConversion.cs:42-44 | brightness 100 keeps a channel and 0 clears it |
| Colors.BrightnessBounds | RpiSpectrumAnalyzer/ColorConversion.cs:40-46 | a brightness in [0, 100] dims each channel into [0, channel]; 100 is the identity and 0 gives black |
| Colors.ChannelWithBrightnessInt | RpiSpectrumAnalyzer/ColorConversion.cs:40-46 | on whole nonnegative channels and brightnesses the dimmed channel is `x * brightness / 100` in integer division |
| Colors.BrightnessLeavesGamut | RpiSpectrumAnalyzer/ColorConversion.cs:40-46 | a brightness above 100 lifts a full channel past 255, so the colour is out of gamut; brightness 200 turns 255 into 510 |
| Colors.WithoutUndoesWith | RpiSpectrumAnalyzer/Common.cs:239-253 | removing a brightness after applying it never brightens past the original, and at 100 restores it exactly |
| Colors.UndoChannel | RpiSpectrumAnalyzer/Common.cs:239-253 | per channel, removing the brightness after applying it gives at most the original |
| Colors.UndoChannelAt100 | RpiSpectrumAnalyzer/Common.cs:239-253 | per channel, at brightness 100 the round trip is exact |
| Colors.GenerateGradient | RpiSpectrumAnalyzer/ColorConversion.cs:48-61 | `gradientCount` colours, entry i being i/(count-1) of the way from start to end, channel by channel, truncated |
| Colors.GradientEndpoints | RpiSpectrumAnalyzer/ColorConversion.cs:53-57 | the first entry is the start colour and the last the end colour |
| Colors.GradientChannelMonotone | RpiSpectrumAnalyzer/ColorConversion.cs:53-56 | along the gradient every channel moves monotonically from its start value to its end value |
| Colors.GradientInGamut | RpiSpectrumAnalyzer/ColorConversion.cs:48-61 | between in-gamut endpoints every entry is in gamut |
| RpiAnalyzer.Int16LE | RpiSpectrumAnalyzer/Analyzer.cs:63 | `BitConverter.ToInt16` gives a 16-bit signed value congruent to the little-endian unsigned pair |
| RpiAnalyzer.Int16RoundTrip | RpiSpectrumAnalyzer/Analyzer.cs:63 | decoding the two bytes of a 16-bit value gives the value back |
| RpiAnalyzer.Int16BytesRoundTrip | RpiSpectrumAnalyzer/Analyzer.cs:63 | every byte pair is the encoding of the value it decodes to |
| RpiAnalyzer.SampleAt | RpiSpectrumAnalyzer/Analyzer.cs:63-64 | a sample divided by 32768 lies in [-1, 1) |
| RpiAnalyzer.DecodeSamples | RpiSpectrumAnalyzer/Analyzer.cs:56-66 | one sample per byte pair, sample i decoded from bytes 2i and 2i+1 and normalized into [-1, 1) |
| RpiAnalyzer.Bucketed | RpiSpectrumAnalyzer/Analyzer.cs:76-95 | one reported band per table entry |
| RpiAnalyzer.BandSumNonnegative | RpiSpectrumAnalyzer/Analyzer.cs:88-91 | with nonnegative bin magnitudes every band sum is nonnegative |
| RpiAnalyzer.BandSumWithoutHit | RpiSpectrumAnalyzer/Analyzer.cs:88-91 | a band no bin falls into keeps magnitude 0 |
| RpiAnalyzer.InvertedBandStaysZero | RpiSpectrumAnalyzer/Analyzer.cs:85-91 | a table entry not above its predecessor is an empty range and reports band 0, magnitude 0 |
| RpiAnalyzer.UniqueBand | RpiSpectrumAnalyzer/Analyzer.cs:83-92 | with a strictly increasing table a frequency falls in at most one band, and in one when it lies in (0, last entry] |
| RpiAnalyzer.SmoothBounds | RpiSpectrumAnalyzer/Analyzer.cs:34-41 | the smoothed value lies between the raw value and the larger of raw and previous, falls by at most the speed, and follows a rise at once |
| RpiAnalyzer.SmoothFixedPoint | RpiSpectrumAnalyzer/Analyzer.cs:34-41 | a constant signal is left as it is |
| RpiAnalyzer.SmoothUnitInterval | RpiSpectrumAnalyzer/Analyzer.cs:34-41 | values in [0, 1] stay in [0, 1] |
| RpiAnalyzer.Smoothed | RpiSpectrumAnalyzer/Analyzer.cs:29-44 | one smoothed band per raw band, each keeping its frequency |
| RpiAnalyzer.Magnitudes | RpiSpectrumAnalyzer/Analyzer.cs:43 | the magnitudes of the bands, in order |
| RpiAnalyzer.Analyzer.constructor | RpiSpectrumAnalyzer/Analyzer.cs:12-16 | the band table is kept and the smoothing memory is one zero per band |
| RpiAnalyzer.Analyzer.ConvertToFrequencyBands | RpiSpectrumAnalyzer/Analyzer.cs:76-95 | the double loop adds every bin to each band whose range contains its frequency, giving `Bucketed` |
| RpiAnalyzer.Analyzer.ConvertToFrequencyBandsSmoothed | RpiSpectrumAnalyzer/Analyzer.cs:24-47 | the bucketed bands smoothed against the previous frame, and the memory now holds the reported magnitudes |
| RpiAnalyzer.HitStep | RpiSpectrumAnalyzer/Analyzer.cs:88 | one more bin hits a band exactly when it or an earlier bin lies in its range |
| RpiAnalyzer.BucketedNonnegative | RpiSpectrumAnalyzer/Analyzer.cs:76-95 | with nonnegative bins every reported magnitude is nonnegative |
| RpiAnalyzer.BucketedBandField | RpiSpectrumAnalyzer/Analyzer.cs:89 | a band's `Band` field is its table entry if some bin matched it and 0 otherwise |
| EspAnalyzer.BinFrequency | Esp32SpectrumAnalyzer/src/Analyzer.cpp:128 | the bin width is the integer quotient 44100 / 1024 = 43, so bin i is at 43 i Hz |
| EspAnalyzer.BinScale | Esp32SpectrumAnalyzer/src/Analyzer.cpp:126-128 | one frequency, 43 i Hz, for each of the first 512 bins |
| EspAnalyzer.Contributions | Esp32SpectrumAnalyzer/src/Analyzer.cpp:126-127 | a bin contributes its magnitude when it is bin 2 or later and above the noise threshold 1000, else nothing |
| EspAnalyzer.EspBands | Esp32SpectrumAnalyzer/src/Analyzer.cpp:118-143 | one band value per table entry |
| EspAnalyzer.OnlyLoudBinsMatter | Esp32SpectrumAnalyzer/src/Analyzer.cpp:126-127 | two spectra that agree on their loud bins 2 .. 511 give the same bands |
| EspAnalyzer.EspBandsNonnegative | Esp32SpectrumAnalyzer/src/Analyzer.cpp:118-143 | every band is nonnegative, and a spectrum without a loud bin gives all zeros |
| EspAnalyzer.Analyzer.constructor | Esp32SpectrumAnalyzer/src/Analyzer.cpp:4-23 | the analyzer copies the first `numberOfBands` table entries, starts with zeroed buffers and no band array |
| EspAnalyzer.Analyzer.ReadAudioSamples | Esp32SpectrumAnalyzer/src/Analyzer.cpp:79-100 | each real part is the offset 0xFFF minus the sample, each imaginary part 0 |
| EspAnalyzer.Analyzer.ConvertToBands | Esp32SpectrumAnalyzer/src/Analyzer.cpp:103-114 | the first band array passed in is kept for good and receives `EspBands`, the rest of it untouched |
| EspAnalyzer.Analyzer.PutIntoFrequencyBands | Esp32SpectrumAnalyzer/src/Analyzer.cpp:118-143 | the bands are zeroed and then hold `EspBands` of the current spectrum |
| EspAnalyzer.Analyzer.AddBin | Esp32SpectrumAnalyzer/src/Analyzer.cpp:131-140 | a loud bin is added to every band whose range contains its frequency |
| LegacyAnalyzer.BucketFrequency | SpectrumAnalyzer/Analyzer.h:29-35 | bins 0 and 1 report 0 Hz |
| LegacyAnalyzer.BucketFrequencyRange | SpectrumAnalyzer/Analyzer.h:29-35 | over the examined bins 2 .. 511 the frequency rises monotonically from 0 to 21920 Hz |
| LegacyAnalyzer.FirstGreater | SpectrumAnalyzer/Analyzer.h:127-133 | the search stops at the first entry above the frequency, or at the table length when there is none |
| LegacyAnalyzer.AsWrittenIndexOutOfRange | SpectrumAnalyzer/Analyzer.h:127-135 | the guard `iBand > G_NUM_BANDS` never fires, and the index is the table length, one past the last band, exactly when no entry is above the frequency |
| LegacyAnalyzer.ShippedTableWritesPastEnd | SpectrumAnalyzer/Analyzer.h:124-135 | with the shipped table the top examined bin (21920 Hz) gets index 10, past the ten bands |
| LegacyAnalyzer.BandIndex | SpectrumAnalyzer/Analyzer.h:127-135 | the corrected index is always a band: the searched one, or the last band for a frequency above every entry |
| LegacyAnalyzer.BinsAfter | SpectrumAnalyzer/Analyzer.h:124-137 | one value per band |
| LegacyAnalyzer.Filled | SpectrumAnalyzer/Analyzer.h:119-137 | one value per band after the fill step |
| LegacyAnalyzer.FillConservesMagnitude | SpectrumAnalyzer/Analyzer.h:124-137 | every loud bin lands in exactly one band: the bands together hold the total magnitude of the loud bins |
| LegacyAnalyzer.LegacySumNonnegative | SpectrumAnalyzer/Analyzer.h:125 | only bins above the threshold are added, so every band is nonnegative |
| LegacyAnalyzer.PeakOf | SpectrumAnalyzer/Analyzer.h:142-148 | the peak is nonnegative, at least every band, and is 0 or one of the bands |
| LegacyAnalyzer.Scaled | SpectrumAnalyzer/Analyzer.h:161-163 | every band divided by the divisor |
| LegacyAnalyzer.DampedPeakBounds | SpectrumAnalyzer/Analyzer.h:150-155 | the stored peak is at least 1 and the peak, follows a rising peak at once and falls at most halfway per frame |
| LegacyAnalyzer.DivisorNormalizes | SpectrumAnalyzer/Analyzer.h:150-163 | the divisor is at least 80000 and at least the peak, so nonnegative bands end in [0, 1] |
| LegacyAnalyzer.Analyzer.constructor | SpectrumAnalyzer/Analyzer.h:141 | the bands start at 0 and the stored peak at 0 |
| LegacyAnalyzer.Analyzer.ComputeFFT | SpectrumAnalyzer/Analyzer.h:113-165 | the bands are the filled bands divided by the divisor, and the stored peak is the damped peak |
| LegacyAnalyzer.Analyzer.FillBands | SpectrumAnalyzer/Analyzer.h:119-137 | the bands are zeroed and every loud bin is added to its (corrected) band |
| LegacyAnalyzer.Analyzer.ClearBands | SpectrumAnalyzer/Analyzer.h:119-121 | every band is 0 |
| LegacyAnalyzer.Analyzer.FindBand | SpectrumAnalyzer/Analyzer.h:127-134 | the loop finds `BandIndex` |
| LegacyAnalyzer.Analyzer.ScaleByPeak | SpectrumAnalyzer/Analyzer.h:141-163 | the stored peak becomes the damped peak and every band is divided by the floored divisor |
| LegacyAnalyzer.Analyzer.FindPeak | SpectrumAnalyzer/Analyzer.h:142-148 | the loop finds `PeakOf` the bands |
| LegacyAnalyzer.Analyzer.DivideBins | SpectrumAnalyzer/Analyzer.h:161-163 | every band divided by the divisor |
| PeakHold.StepRowInRange | RpiSpectrumAnalyzer/LedDisplay.cs:173-228 | a held row on the display stays on the display, in [0, rows - 1], after a step |
| PeakHold.StepWait | RpiSpectrumAnalyzer/LedDisplay.cs:186-226 | the new wait is the previous (or re-armed) wait less the countdown, floored at the countdown |
| PeakHold.StepFallsAtMostOne | RpiSpectrumAnalyzer/LedDisplay.cs:207-218 | the peak falls by one row exactly when the wait has elapsed since the last fall and it is above the bottom, and otherwise stays; the clock reading is recorded |
| PeakHold.StepRearms | RpiSpectrumAnalyzer/LedDisplay.cs:177-188 | a level above the held peak moves it to the level clamped to the top row, restarts the wait and does not fall in the same step |
| PeakHold.StepTracksLevel | RpiSpectrumAnalyzer/LedDisplay.cs:177-218 | the held peak is never more than one row below the level it was fed (clamped to the top) |
| PeakHold.SilenceIsStable | RpiSpectrumAnalyzer/LedDisplay.cs:177-218 | silence keeps a peak resting at the bottom there |
| PeakHold.WaitAfterNext | RpiSpectrumAnalyzer/LedDisplay.cs:220-226 | one more countdown on the floored wait is the wait after one more step |
| PeakHold.StepsAtOneInstant | RpiSpectrumAnalyzer/LedDisplay.cs:207-226 | repeated steps at one clock reading lower the peak at most once, and shrink the wait by one countdown per step down to the floor |
| PeakHold.QuietStepsDecay | RpiSpectrumAnalyzer/LedDisplay.cs:177-226 | under silence the peak never rises and the wait shrinks by one countdown per step down to the floor |
| PeakHold.StepsRowInRange | RpiSpectrumAnalyzer/LedDisplay.cs:173-228 | any number of steps keeps the held row on the display |
| ConsoleDisplay.ToPixelColors | RpiSpectrumAnalyzer/ConsoleDisplay.cs:84 | the palette translated cell by cell through the hue table, same shape |
| ConsoleDisplay.Display.constructor | RpiSpectrumAnalyzer/ConsoleDisplay.cs:29-54 | the default waits, countdown, speed and bounds (with those of the base class), DarkRed peaks, the default palette, zeroed levels and peaks, and a cleared screen |
| ConsoleDisplay.Display.Clear | RpiSpectrumAnalyzer/ConsoleDisplay.cs:108-114 | every cell black and no labels |
| ConsoleDisplay.Display.SetupDefaultColors | RpiSpectrumAnalyzer/ConsoleDisplay.cs:188-199 | every band gets the same column of hue-table colours, row y at `Map(y, 0, rows-1, 5, 0)` |
| ConsoleDisplay.Display.GetConfiguration | RpiSpectrumAnalyzer/ConsoleDisplay.cs:59-87 | the display's settings, tagged LED (so the console display refuses it), with the peak colour and palette translated to RGB |
| ConsoleDisplay.Display.UpdateConfiguration | RpiSpectrumAnalyzer/ConsoleDisplay.cs:89-105 | no setting changes, whatever the configuration |
| ConsoleDisplay.Display.DisplayAsLevels | RpiSpectrumAnalyzer/ConsoleDisplay.cs:117-124 | the levels of amplify, normalize and quantize to `rows` are drawn band by band |
| ConsoleDisplay.Display.DisplayLevels | RpiSpectrumAnalyzer/ConsoleDisplay.cs:126-172 | each band's label is written, its level smoothed, its peak stepped once per row and its cells coloured; other bands are untouched |
| ConsoleDisplay.Display.DisplayColumn | RpiSpectrumAnalyzer/ConsoleDisplay.cs:132-169 | one band: label, smoothed level, peak after the frame, and the column's cells |
| ConsoleDisplay.Display.DrawCell | RpiSpectrumAnalyzer/ConsoleDisplay.cs:145-168 | one cell: the palette colour below the level, black above, the peak colour on a visible peak row; one peak step when peaks are shown |
| ConsoleDisplay.Display.DisplayLabels | RpiSpectrumAnalyzer/ConsoleDisplay.cs:175-185 | only the band's label changes, to the frequency or whole kHz with a K |
| ConsoleDisplay.Display.GetPeakRow | RpiSpectrumAnalyzer/ConsoleDisplay.cs:201-249 | one step of the shared peak logic for that column only, answering the held row after the re-arm |
| ConsoleDisplay.DefaultHueIndexRange | RpiSpectrumAnalyzer/ConsoleDisplay.cs:195 | the row mapping stays in hue indices 0 .. 5, from 5 at the bottom to 0 at the top, never rising |
| ConsoleDisplay.LabelReadsBack | RpiSpectrumAnalyzer/ConsoleDisplay.cs:175-185 | a label below 1000 Hz converts back to the frequency; from 1000 Hz up it is the whole kHz followed by K |
| ConsoleDisplay.ShownPeakRowIsRearmed | RpiSpectrumAnalyzer/ConsoleDisplay.cs:206-223 | the reported row is the re-armed held row, on the display |
| ConsoleDisplay.OwnConfigurationIsRefused | RpiSpectrumAnalyzer/ConsoleDisplay.cs:63-92 | `UpdateConfiguration` refuses what `GetConfiguration` returns, since it is tagged LED |
| ConsoleDisplay.DefaultColorsInHueTable | RpiSpectrumAnalyzer/ConsoleDisplay.cs:188-199 | the default palette covers the display and holds only hue-table colours, so `GetConfiguration` can translate it |
| Text.NatStringValue | RpiSpectrumAnalyzer/Program.cs:119 | the decimal digits of a natural number read back as that number |
| Text.TrimStart | RpiSpectrumAnalyzer/Program.cs:118 | the result is a suffix of the text and does not start with a blank |
| Text.TrimEnd | RpiSpectrumAnalyzer/Program.cs:118 | the result is a prefix of the text and does not end with a blank |
| Text.LeadingBlanks | RpiSpectrumAnalyzer/Program.cs:118 | everything `TrimStart` drops is blank |
| Text.TrailingBlanks | RpiSpectrumAnalyzer/Program.cs:118 | everything `TrimEnd` drops is blank |
| Text.Trim | RpiSpectrumAnalyzer/Program.cs:118 | the trimmed text neither starts nor ends with white space |
| Text.ParseInt32 | RpiSpectrumAnalyzer/Program.cs:119 | `Convert.ToInt32` succeeds only with a value in the 32-bit range |
| Text.ParseInt32NeedsDigits | RpiSpectrumAnalyzer/Program.cs:119 | text without a digit does not convert (the conversion throws) |
| Text.TrimNumberBlanksNoop | RpiSpectrumAnalyzer/Program.cs:119 | text with no blank at either end is left as it is |
| Text.ParseSignedDigits | RpiSpectrumAnalyzer/Program.cs:119 | a digit string with an optional minus converts to its signed value |
| Text.DecimalRoundTrip | RpiSpectrumAnalyzer/Program.cs:119 | every 32-bit integer written with `ToString` converts back to itself |
| ProgramArgs.ValueKeyKinds | RpiSpectrumAnalyzer/Program.cs:96-99 | `--port`, `--bands` and the three level options start with `--` but not with `--disable-`, so they take the next token |
| ProgramArgs.FlagKeyKinds | RpiSpectrumAnalyzer/Program.cs:96-102 | the three `--disable-...` options are stored with an empty value |
| ProgramArgs.CollectOptions | RpiSpectrumAnalyzer/Program.cs:92-106 | the loop builds the same dictionary as `Options`, or throws exactly when `Options` fails |
| ProgramArgs.OptionsKeys | RpiSpectrumAnalyzer/Program.cs:94-106 | every option token is a key of the dictionary and every new key is an option token of the command line |
| ProgramArgs.OptionValue | RpiSpectrumAnalyzer/Program.cs:97-98 | an option that is not a flag has the next token as its value |
| ProgramArgs.RepeatedOptionFails | RpiSpectrumAnalyzer/Program.cs:98-102 | an option given twice makes `Dictionary.Add` throw |
| ProgramArgs.PresentOptionFails | RpiSpectrumAnalyzer/Program.cs:98-102 | an option already in the dictionary makes `Add` throw |
| ProgramArgs.DanglingOptionFails | RpiSpectrumAnalyzer/Program.cs:98 | a value option as the last token reads `args[i+1]` past the end and throws |
| ProgramArgs.Split | RpiSpectrumAnalyzer/Program.cs:140 | `Split(',')` gives at least one piece and no piece holds a comma |
| ProgramArgs.SplitJoin | RpiSpectrumAnalyzer/Program.cs:140 | the pieces joined with the separator give back the text |
| ProgramArgs.SplitPrefix | RpiSpectrumAnalyzer/Program.cs:140 | text without a separator in front of more text extends the first piece |
| ProgramArgs.JoinSplit | RpiSpectrumAnalyzer/Program.cs:140 | pieces without the separator split back out of their join |
| ProgramArgs.AllSome | RpiSpectrumAnalyzer/Program.cs:140 | one value per conversion when all of them succeed |
| ProgramArgs.AllSomeValues | RpiSpectrumAnalyzer/Program.cs:140 | the band list converts if and only if every piece converts, and then holds each piece's value in order |
| ProgramArgs.ParsePieces | RpiSpectrumAnalyzer/Program.cs:140 | one band per piece when every piece converts |
| ProgramArgs.PieceValues | RpiSpectrumAnalyzer/Program.cs:140 | each piece is trimmed and converted with `Convert.ToInt32` |
| ProgramArgs.ParseBands | RpiSpectrumAnalyzer/Program.cs:139-141 | a converted band list is never empty |
| ProgramArgs.LevelValue | RpiSpectrumAnalyzer/Program.cs:115-134 | an absent or blank level keeps the current one, otherwise the trimmed value is converted |
| ProgramArgs.WithPort | RpiSpectrumAnalyzer/Program.cs:108-113 | the URL is kept, or replaced by `http://0.0.0.0:` and the trimmed `--port` value |
| ProgramArgs.ReadOptions | RpiSpectrumAnalyzer/Program.cs:115-142 | an absent level or band option reads as the current setting |
| ProgramArgs.ApplyReadsSets | RpiSpectrumAnalyzer/Program.cs:108-159 | a run that returns true got through every conversion and sets the URL, the three levels, the bands (when non-empty) and the enabled flags from them |
| ProgramArgs.ConfiguredKeepsUnnamed | RpiSpectrumAnalyzer/Program.cs:86-159 | a successful run keeps every setting whose option is absent and turns a display off exactly when its flag is given or it was already off |
| ProgramArgs.DisableFlagTurnsOff | RpiSpectrumAnalyzer/Program.cs:144-157 | a `--disable-...` flag on the command line turns that display off |
| ProgramArgs.TrimNoop | RpiSpectrumAnalyzer/Program.cs:118 | text with no white space at either end is its own `Trim()` |
| ProgramArgs.DecimalShape | RpiSpectrumAnalyzer/Program.cs:140 | a number's decimal text is non-empty, has no white space at its ends, no comma, and does not start with `--` |
| ProgramArgs.PieceRoundTrip | RpiSpectrumAnalyzer/Program.cs:140 | a number's decimal text, trimmed and converted, is the number |
| ProgramArgs.KeysDistinct | RpiSpectrumAnalyzer/Program.cs:108-154 | the eight option names, listed in `Keys`, are pairwise different, with the lengths that separate them |
| ProgramArgs.OptionPair | RpiSpectrumAnalyzer/Program.cs:94-106 | a value option followed by a plain token gives a one-entry dictionary |
| ProgramArgs.ConsoleLevelReads | RpiSpectrumAnalyzer/Program.cs:115-142 | with only `--console-display-levels`, that level reads as its conversion and the others as the current settings |
| ProgramArgs.ConsoleLevelApplies | RpiSpectrumAnalyzer/Program.cs:108-159 | with only `--console-display-levels`, only the console level changes |
| ProgramArgs.LevelRoundTrip | RpiSpectrumAnalyzer/Program.cs:86-159 | `--console-display-levels` followed by a number's decimal text sets exactly that level and succeeds |
| ProgramArgs.BandsRoundTrip | RpiSpectrumAnalyzer/Program.cs:136-142 | a band table written as comma-separated decimals reads back as the table |
| ProgramArgs.DecimalsHaveNoCommas | RpiSpectrumAnalyzer/Program.cs:140 | no decimal text holds a comma |
| ProgramArgs.DecimalsParse | RpiSpectrumAnalyzer/Program.cs:140 | decimal texts trimmed and converted give back their numbers |
| ProgramArgs.ApplySettings | RpiSpectrumAnalyzer/Program.cs:108-167 | the statements after the dictionary compute the outcome `ApplyOptions` specifies, returning false at the first failed conversion |
| ProgramArgs.DisableDisplays | RpiSpectrumAnalyzer/Program.cs:144-157 | each `--disable-...` key present turns its display off |
| ProgramArgs.Program.constructor | RpiSpectrumAnalyzer/Program.cs:25-32 | the static fields start at their initialisers |
| ProgramArgs.Program.SetConfigFromArgs | RpiSpectrumAnalyzer/Program.cs:86-169 | no arguments succeed and change nothing; otherwise the result and the new fields are those of `Configured` |
| ProgramArgs.Program.Store | RpiSpectrumAnalyzer/Program.cs:112-156 | the fields hold the settings written back |
| LedDisplay.Configured | RpiSpectrumAnalyzer/LedDisplay.cs:95-109 | a missing configuration turns both peak switches off and keeps the rest; a present one sets both switches from it; positive settings stay positive |
| LedDisplay.ConfiguredNumeric | RpiSpectrumAnalyzer/LedDisplay.cs:97-101 | each of the five numeric settings takes a positive incoming value and ignores any other |
| LedDisplay.ConfiguredColors | RpiSpectrumAnalyzer/LedDisplay.cs:104-107 | a present colour or palette replaces the current one and a missing one leaves it |
| LedDisplay.ConfiguredIdempotent | RpiSpectrumAnalyzer/LedDisplay.cs:95-109 | applying the same configuration twice is applying it once |
| LedDisplay.Display.constructor | RpiSpectrumAnalyzer/LedDisplay.cs:16-58 | the default speed 1.5, wait 500, countdown 100, brightness 2, red peaks, the green-to-orange gradient palette, zeroed levels and peaks, and a black strip |
| LedDisplay.Display.SetupDefaultColors | RpiSpectrumAnalyzer/LedDisplay.cs:159-171 | every column holds the same `rows`-colour gradient from the start to the end colour |
| LedDisplay.Display.Clear | RpiSpectrumAnalyzer/LedDisplay.cs:111-115 | every pixel of the strip black |
| LedDisplay.Display.UpdateConfiguration | RpiSpectrumAnalyzer/LedDisplay.cs:95-109 | every setting follows `Configured` |
| LedDisplay.Display.Apply | RpiSpectrumAnalyzer/LedDisplay.cs:97-107 | the fields hold the given settings |
| LedDisplay.Display.DisplayAsLevels | RpiSpectrumAnalyzer/LedDisplay.cs:117-124 | the levels of amplify, normalize and quantize to `rows` are drawn column by column |
| LedDisplay.Display.DisplayLevels | RpiSpectrumAnalyzer/LedDisplay.cs:126-157 | per column the level is smoothed, the rows below it take the dimmed palette colour and the rest go black, and the peak is stepped and drawn when shown; levels past `cols` are untouched |
| LedDisplay.Display.DisplayColumn | RpiSpectrumAnalyzer/LedDisplay.cs:130-152 | one column: smoothed level, its pixels and its peak, nothing else |
| LedDisplay.Display.FillColumn | RpiSpectrumAnalyzer/LedDisplay.cs:139-147 | the column's rows below the level take the dimmed palette colour, the rest black, other columns untouched |
| LedDisplay.Display.SetColumnPeaks | RpiSpectrumAnalyzer/LedDisplay.cs:173-228 | one step of the shared peak logic for that column; only the pixel at the re-armed row changes, to the dimmed peak colour when visible and black otherwise |
| LedDisplay.Display.ShownPixelInGamut | RpiSpectrumAnalyzer/LedDisplay.cs:139-147 | with brightness at most 100 and in-gamut peak and palette colours, every painted colour is in [0, 255], so `Color.FromArgb` accepts it |
| LedDisplay.Display.OverBrightCellLeavesGamut | RpiSpectrumAnalyzer/LedDisplay.cs:139-147 | with a brightness above 100 taken from a configuration, a lit non-peak cell with a full channel is painted outside [0, 255], where `Color.FromArgb` throws |
| LedDisplay.LevelFollowsTarget | RpiSpectrumAnalyzer/LedDisplay.cs:130-137 | the new level is at least the target, at most the larger of old level and target, falls by at most the speed, and stays in [0, rows] |
| LedDisplay.PeakNeverHidesTheBar | RpiSpectrumAnalyzer/LedDisplay.cs:141-151 | the re-armed peak sits above every lit row below the top, and a lit row is its palette colour dimmed by the brightness |
| LedDisplay.DropIsProduct | RpiSpectrumAnalyzer/LedDisplay.cs:136 | k frames of the transition speed drop the level by k times the speed |
| LedDisplay.SettleClosedForm | RpiSpectrumAnalyzer/LedDisplay.cs:130-137 | with an unchanging lower target, the level after k frames is the start less k speeds, not below the target |
| LedDisplay.SettleReachesTarget | RpiSpectrumAnalyzer/LedDisplay.cs:130-137 | enough frames bring the level exactly to the target |
| LedDisplay.DefaultColorsShape | RpiSpectrumAnalyzer/LedDisplay.cs:159-171 | the default palette covers the display, each column runs from the start colour to the end colour, and in-gamut ends give in-gamut colours |
| WebDisplay.Configured | RpiSpectrumAnalyzer/WebDisplay.cs:52-67 | a refused object changes nothing; an accepted one sets both peak switches from it; positive settings stay positive |
| WebDisplay.Reported | RpiSpectrumAnalyzer/WebDisplay.cs:33-50 | the reported record is one the display accepts |
| WebDisplay.Display.constructor | RpiSpectrumAnalyzer/WebDisplay.cs:13-26 | speed 2, wait 500, countdown 20 and the base-class amplification and peak switches, with an empty client list |
| WebDisplay.Display.GetConfiguration | RpiSpectrumAnalyzer/WebDisplay.cs:33-50 | a record tagged WEB of the run-time class the display accepts; fed back, it changes nothing |
| WebDisplay.Display.UpdateConfiguration | RpiSpectrumAnalyzer/WebDisplay.cs:52-67 | the settings follow `Configured` and the client list is untouched |
| WebDisplay.Display.Clear | RpiSpectrumAnalyzer/WebDisplay.cs:70-74 | the `clear` command goes to every reachable client |
| WebDisplay.Display.DisplayAsLevels | RpiSpectrumAnalyzer/WebDisplay.cs:76-83 | a DISPLAY event with one level in [0, rows] per band, in order, to every reachable client |
| WebDisplay.Display.DisplayLevels | RpiSpectrumAnalyzer/WebDisplay.cs:86-91 | the levels as a DISPLAY event to every reachable client |
| WebDisplay.Display.SendToClients | RpiSpectrumAnalyzer/WebDisplay.cs:94-109 | nothing is sent without a client list; otherwise one send per present client with an open socket, in list order |
| WebDisplay.OpenPositionsExactly | RpiSpectrumAnalyzer/WebDisplay.cs:101-107 | a broadcast reaches exactly the present clients with an open socket, each once, in list order |
| WebDisplay.NoOpenSocketNoSend | RpiSpectrumAnalyzer/WebDisplay.cs:101-107 | without a reachable client nothing is sent |
| WebDisplay.ConfiguredNumeric | RpiSpectrumAnalyzer/WebDisplay.cs:61-64 | each of the four numeric settings takes a positive incoming value and ignores any other |
| WebDisplay.BaseClassRefused | RpiSpectrumAnalyzer/WebDisplay.cs:57-59 | a record of the base class, even tagged WEB, changes nothing |
| WebDisplay.ConfiguredIdempotent | RpiSpectrumAnalyzer/WebDisplay.cs:52-67 | applying the same configuration twice is applying it once |
| WebDisplay.ReportedRoundTrip | RpiSpectrumAnalyzer/WebDisplay.cs:33-67 | with positive settings, feeding the display its own configuration back changes nothing |
| HexColor.MapRealEndpoints | RpiSpectrumAnalyzer/wwwroot/Helpers.js:2-4 | `map` sends the ends of the source range to the ends of the target range and keeps order when both run upward |
| HexColor.LowerDigit | RpiSpectrumAnalyzer/wwwroot/Helpers.js:19 | `toString(16)` writes each digit as a lower-case hex digit of that value |
| HexColor.Upper | RpiSpectrumAnalyzer/wwwroot/Helpers.js:19 | `toUpperCase` maps the text character by character |
| HexColor.UpperDigit | RpiSpectrumAnalyzer/wwwroot/Helpers.js:19 | raising a hex digit keeps it a hex digit of the same value |
| HexColor.ToBase16 | RpiSpectrumAnalyzer/wwwroot/Helpers.js:19 | `toString(16)` of a natural number is a non-empty string of hex digits |
| HexColor.ToBase16Split | RpiSpectrumAnalyzer/wwwroot/Helpers.js:19 | after a leading part of at least 1, a block of w digits is written as exactly w digits, leading zeros kept |
| HexColor.HexValueOfDigits | RpiSpectrumAnalyzer/wwwroot/Helpers.js:9-19 | w upper-case digits written from a value read back as the value |
| HexColor.DigitsOfHexValue | RpiSpectrumAnalyzer/wwwroot/Helpers.js:9-19 | the value of a digit string, written back with as many digits, is the string raised to upper case |
| HexColor.TrimStart | RpiSpectrumAnalyzer/wwwroot/Helpers.js:9 | `parseInt` skips a suffix-preserving run of leading white space |
| HexColor.TakeHexDigits | RpiSpectrumAnalyzer/wwwroot/Helpers.js:9 | `parseInt` reads the longest prefix of hex digits |
| HexColor.ParseIntHexOfDigits | RpiSpectrumAnalyzer/wwwroot/Helpers.js:9 | a non-empty digit string without a `0x` prefix parses to its value |
| HexColor.TakeAllHexDigits | RpiSpectrumAnalyzer/wwwroot/Helpers.js:9 | a string of hex digits is read whole |
| HexColor.ParseIntHexWithoutDigits | RpiSpectrumAnalyzer/wwwroot/Helpers.js:9 | a string with no hex digit parses to NaN |
| HexColor.HexStringToRgb | RpiSpectrumAnalyzer/wwwroot/Helpers.js:7-15 | whatever the text, the three channels are masked into [0, 255] |
| HexColor.RgbToHexForm | RpiSpectrumAnalyzer/wwwroot/Helpers.js:17-20 | `rgbToHexString` gives `#` and six upper-case digits of the packed colour |
| HexColor.SplitOfPacked | RpiSpectrumAnalyzer/wwwroot/Helpers.js:11-13 | shifting and masking the packed value of a colour gives the colour back |
| HexColor.PackedOfSplit | RpiSpectrumAnalyzer/wwwroot/Helpers.js:11-19 | packing the three bytes of a 24-bit value gives the value back |
| HexColor.ParseWrittenDigits | RpiSpectrumAnalyzer/wwwroot/Helpers.js:7-15 | `#` and digits written from a 24-bit value parse to that value's three bytes |
| HexColor.HexStringToRgbOf | RpiSpectrumAnalyzer/wwwroot/Helpers.js:7-15 | text after `#` that parses to a 24-bit value gives that value's three bytes |
| HexColor.HexStringToRgbBits | RpiSpectrumAnalyzer/wwwroot/Helpers.js:7-15 | the channels are the bytes of the 32-bit pattern the bit operators see |
| HexColor.ParseDigitsOf | RpiSpectrumAnalyzer/wwwroot/Helpers.js:9 | digits written from a value parse back to it |
| HexColor.RgbHexRoundTrip | RpiSpectrumAnalyzer/wwwroot/Helpers.js:7-20 | formatting a colour and parsing the text gives the colour back |
| HexColor.HexRgbRoundTrip | RpiSpectrumAnalyzer/wwwroot/Helpers.js:7-20 | parsing six hex digits after any first character and formatting the colour gives `#` and the digits in upper case |
| HexColor.GradientRgbAt | RpiSpectrumAnalyzer/wwwroot/Helpers.js:29-32 | each interpolated channel, rounded with `Math.round`, is in [0, 255] |
| HexColor.RoundedLerpInRange | RpiSpectrumAnalyzer/wwwroot/Helpers.js:30-32 | a rounded point between two channel values lies between them |
| HexColor.GradientHex | RpiSpectrumAnalyzer/wwwroot/Helpers.js:28-34 | one hex string per step |
| HexColor.GeneratedGradient | RpiSpectrumAnalyzer/wwwroot/Helpers.js:22-37 | as many strings as the count (none for a negative count) |
| HexColor.GenerateGradient | RpiSpectrumAnalyzer/wwwroot/Helpers.js:22-37 | both colours are parsed and the result is `GeneratedGradient` of them: nothing below 1, the NaN string `#AN` for 1, the gradient otherwise |
| HexColor.GradientSteps | RpiSpectrumAnalyzer/wwwroot/Helpers.js:26-36 | the loop pushes exactly `GeneratedGradient` |
| HexColor.GradientStep | RpiSpectrumAnalyzer/wwwroot/Helpers.js:29-33 | one loop body gives step i of the gradient |
| HexColor.GradientHexEndpoints | RpiSpectrumAnalyzer/wwwroot/Helpers.js:28-34 | the first entry is the start colour's text and the last the end colour's |
| HexColor.GradientHexBetween | RpiSpectrumAnalyzer/wwwroot/Helpers.js:28-34 | every entry parses to a colour whose channels lie between those of the two ends |
| WebDisplayJs.HexPalette | RpiSpectrumAnalyzer/wwwroot/WebDisplay.js:193-206 | one hex colour per cell, `cols` columns of `rows` each |
| WebDisplayJs.Pad3 | RpiSpectrumAnalyzer/wwwroot/WebDisplay.js:84 | fraction digits padded to three keep their prefix and stay digits |
| WebDisplayJs.Renderer.constructor | RpiSpectrumAnalyzer/wwwroot/WebDisplay.js:2-32 | the settings and peak colour from the configuration, the hex palette, one zero level and one zero peak record per column, the column numbers as labels, and the table in its dark starting colour |
| WebDisplayJs.Renderer.Clear | RpiSpectrumAnalyzer/wwwroot/WebDisplay.js:55-59 | every cell black |
| WebDisplayJs.Renderer.DisplayLevels | RpiSpectrumAnalyzer/wwwroot/WebDisplay.js:61-92 | per configured column the level is smoothed, the cells drawn, the label written and, with peaks on, the peak stepped once on the un-truncated level |
| WebDisplayJs.Renderer.DisplayColumn | RpiSpectrumAnalyzer/wwwroot/WebDisplay.js:63-89 | one column: smoothed level, its cells, label and peak, nothing else |
| WebDisplayJs.Renderer.DrawBar | RpiSpectrumAnalyzer/wwwroot/WebDisplay.js:70-81 | the column's rows below the level take the palette colour and the rest black; other columns untouched |
| WebDisplayJs.Renderer.SetPeaks | RpiSpectrumAnalyzer/wwwroot/WebDisplay.js:94-154 | one step of the browser's peak record; only the cell the re-armed row selects changes, to the peak colour when strictly above the threshold and black otherwise |
| WebDisplayJs.Renderer.PaintPeak | RpiSpectrumAnalyzer/wwwroot/WebDisplay.js:111-128 | only the selected cell of the column changes, peak colour or black |
| WebDisplayJs.JsStepAgreesWithStep | RpiSpectrumAnalyzer/wwwroot/WebDisplay.js:94-154 | on whole rows and levels the browser's peak step is the server's |
| WebDisplayJs.FractionalRowGoesBelowZero | RpiSpectrumAnalyzer/wwwroot/WebDisplay.js:97-143 | a fractional level re-arms at a fractional row and the fall can take it to -0.5, which selects no cell |
| WebDisplayJs.JsStepRowBounds | RpiSpectrumAnalyzer/wwwroot/WebDisplay.js:94-154 | a row in (-1, rows - 1] stays there |
| WebDisplayJs.JsStepWaitFloor | RpiSpectrumAnalyzer/wwwroot/WebDisplay.js:145-152 | after a step the wait is at least the countdown |
| WebDisplayJs.JsHidesPeakAtThreshold | RpiSpectrumAnalyzer/wwwroot/WebDisplay.js:112-125 | a peak exactly at the threshold, which the server displays draw, is painted black in the browser |
| WebDisplayJs.JsThresholdIsOneHigher | RpiSpectrumAnalyzer/wwwroot/WebDisplay.js:118 | on whole rows the browser shows a peak exactly where the server displays would show the row below |
| WebDisplayJs.KiloLabelExact | RpiSpectrumAnalyzer/wwwroot/WebDisplay.js:84 | a kilohertz label is the whole kilohertz, then (unless exact) a point and one to three digits ending in non-zero that read as the remainder in thousandths, then `KHz` |
| WebDisplayJs.FractionValue | RpiSpectrumAnalyzer/wwwroot/WebDisplay.js:84 | the fraction text of a remainder is a point and one to three digits ending in non-zero that read back as the remainder |
| WebDisplayJs.HertzLabelReadsBack | RpiSpectrumAnalyzer/wwwroot/WebDisplay.js:84 | a label below 1000 Hz is the decimal band and `Hz`, and the number reads back as the band |
| LedMatrix.IndexInRange | new_version/src/LedMatrix.cpp:190-192 | every position of the matrix has an index below rows * cols |
| LedMatrix.IndexInjective | new_version/src/LedMatrix.cpp:190-192 | two positions share an index only when they are the same position |
| LedMatrix.IndexOnto | new_version/src/LedMatrix.cpp:190-192 | every index below rows * cols is the index of the position (i / rows, i % rows) |
| LedMatrix.IndexParts | new_version/src/LedMatrix.cpp:190-192 | the column and the row are read back from an index by division and remainder |
| LedMatrix.DefaultHueRange | new_version/src/LedMatrix.cpp:182 | the default hues lie in [1, 100] and never rise from one row to the next |
| LedMatrix.DefaultHueFormula | new_version/src/LedMatrix.cpp:182 | the hue of row y is 100 - 99 * y / rows |
| LedMatrix.NextWait | new_version/src/LedMatrix.cpp:152-156 | the wait falls by the increment, but never below it |
| LedMatrix.WaitsAgreeWithoutWrap | new_version/src/LedMatrix.cpp:152-156 | the wait update as written agrees with the floored one whenever the wait is at least the increment |
| LedMatrix.WrappedWaitEscapesFloor | new_version/src/LedMatrix.cpp:152-156 | a wait of 10 or 0 with the default increment 25 wraps to 65521 or 65511 instead of settling at 25 |
| LedMatrix.WrappedWaitAboveFloor | new_version/src/LedMatrix.cpp:152-156 | any wait below the increment wraps to the difference plus 65536, above the floor |
| LedMatrix.NextWaitIsAccelerate | new_version/src/LedMatrix.cpp:152-156 | the floored wait is the reference peak step's countdown |
| LedMatrix.Rearmed | new_version/src/LedMatrix.cpp:119-131 | the re-arm keeps a row that was on the matrix on it |
| LedMatrix.PeakStepIsStep | new_version/src/LedMatrix.cpp:119-157 | while the clock has not wrapped since the last fall, a peak call is the reference peak step |
| LedMatrix.PeakStepInRange | new_version/src/LedMatrix.cpp:119-157 | the held row stays on the matrix and the wait never drops below the increment |
| LedMatrix.ColumnBar | new_version/src/LedMatrix.cpp:161-174 | the strip keeps its length |
| LedMatrix.ColumnBarShows | new_version/src/LedMatrix.cpp:161-174 | row y of the drawn column shows its stored colour exactly when y < value and is black otherwise; LEDs of other columns keep their colour |
| LedMatrix.Matrix.constructor | new_version/src/LedMatrix.cpp:7-32 | brightness 20, white peaks, a wait of 1500 falling by 25, zeroed peak records, a dark strip and the default hue gradient in every column |
| LedMatrix.Matrix.SetupLedDefaultColors | new_version/src/LedMatrix.cpp:179-187 | every LED's colour is the hue of its row |
| LedMatrix.Matrix.ClearMatrix | new_version/src/LedMatrix.cpp:34-37 | every LED dark |
| LedMatrix.Matrix.SetLEDColumn | new_version/src/LedMatrix.cpp:161-174 | the strip becomes the column's bar |
| LedMatrix.Matrix.SetLEDColPeak | new_version/src/LedMatrix.cpp:119-157 | the column's record takes one peak step (with the floored wait), the other records are untouched, and only the re-armed row's LED changes, to the peak colour above the bottom and black at it |
| LedMatrix.Matrix.SetPixelColor | new_version/src/LedMatrix.cpp:96-100 | only the colour at the index changes |
| LedMatrix.Matrix.SetBrightness | new_version/src/LedMatrix.cpp:103-105 | the brightness becomes the value; the other settings are unchanged |
| LedMatrix.Matrix.SetPeakColor | new_version/src/LedMatrix.cpp:107-109 | the peak colour becomes the value; the other settings are unchanged |
| LedMatrix.Matrix.SetMaxPeakFallingWait | new_version/src/LedMatrix.cpp:111-113 | any wait is stored, including one below the increment; the other settings are unchanged |
| LedMatrix.Matrix.SetPeakFallingIntervalIncrement | new_version/src/LedMatrix.cpp:115-117 | the increment becomes the value; the other settings are unchanged |
| LedMatrix.Matrix.SetLEDColors | new_version/src/LedMatrix.cpp:84-94 | the colours become the first rows * cols given |
| LegacyLedMatrix.XyToIndex | SpectrumAnalyzer/LedMatrix.h:49-53 | a position of the 10 x 10 matrix has an index below the LED count |
| LegacyLedMatrix.IndexBijection | SpectrumAnalyzer/LedMatrix.h:49-53 | a position has index i exactly when it is (i / 10, i % 10) |
| LegacyLedMatrix.PeaksAfter | SpectrumAnalyzer/LedMatrix.h:102-142 | one peak record per band after a call |
| LegacyLedMatrix.AdvancedWaitInRange | SpectrumAnalyzer/LedMatrix.h:136-140 | whatever the wait was, after a call it lies between the increment and the maximum wait |
| LegacyLedMatrix.AdvancedRow | SpectrumAnalyzer/LedMatrix.h:105-131 | the fall keeps the row or lowers it by one, and a re-arm clamps the row to the top row |
| LegacyLedMatrix.AdvancedIsStep | SpectrumAnalyzer/LedMatrix.h:126-141 | for a column above the bottom whose wait stays in range, the fall loop agrees with the reference peak step |
| LegacyLedMatrix.RearmKeepsOldTimer | SpectrumAnalyzer/LedMatrix.h:105-134 | a peak re-armed to row 5 at 2000 ms after resting since 0 falls to row 4 in the same call, where the reference step keeps it at 5 |
| LegacyLedMatrix.BottomRestartsTimer | SpectrumAnalyzer/LedMatrix.h:128-134 | at the bottom an elapsed wait still restarts the fall timer |
| LegacyLedMatrix.OtherColumnsFall | SpectrumAnalyzer/LedMatrix.h:126-141 | a call for one column lowers any other column above the bottom whose wait has elapsed |
| LegacyLedMatrix.Matrix.constructor | SpectrumAnalyzer/LedMatrix.h:33-64 | zeroed peak records, a dark strip, the default hue of its row for every LED, white peaks, a wait of 1500 falling by 25 |
| LegacyLedMatrix.Matrix.SetLEDColumn | SpectrumAnalyzer/LedMatrix.h:145-159 | row y of the column shows its stored colour exactly when y < value and black otherwise; other columns keep theirs |
| LegacyLedMatrix.Matrix.SetLEDColPeak | SpectrumAnalyzer/LedMatrix.h:102-142 | the records become the re-arm of the column followed by the fall loop over every column, and only the re-armed row's LED changes |
| LegacyLedMatrix.Matrix.RearmAndPaint | SpectrumAnalyzer/LedMatrix.h:102-123 | the column is re-armed, the other records untouched, and the LED of its row becomes the peak colour above the bottom and black at it |
| LegacyLedMatrix.Matrix.AdvancePeak | SpectrumAnalyzer/LedMatrix.h:126-141 | one column falls and updates its wait; the row never rises and other columns are untouched |
| LedServer.Largest | new_version/src/LedServer.cpp:57-64 | the highest band is nonnegative, at least every band, and either 0 or one of the bands |
| LedServer.Attenuated | new_version/src/LedServer.cpp:56-74 | attenuation keeps the number of bands |
| LedServer.SmoothedBands | new_version/src/LedServer.cpp:77-92 | smoothing keeps the number of bands |
| LedServer.ColumnValue | new_version/src/LedServer.cpp:98-99 | a band in [0, 1] gives a column height between 0 and the number of levels |
| LedServer.ColumnValues | new_version/src/LedServer.cpp:97-103 | one height per band, each the band's column height and at most the number of levels |
| LedServer.MapPercentBounds | new_version/src/LedServer.cpp:99 | a percentage mapped onto the levels stays within them |
| LedServer.MapPercentMonotone | new_version/src/LedServer.cpp:99 | a larger percentage never maps to a lower level |
| LedServer.AttenuatedInUnit | new_version/src/LedServer.cpp:56-74 | nonnegative bands are attenuated into [0, 1] |
| LedServer.AttenuatedKeepsOrder | new_version/src/LedServer.cpp:56-74 | attenuation keeps the order of the bands |
| LedServer.AttenuatedLoudest | new_version/src/LedServer.cpp:66-73 | a loudest band at or above the factor becomes exactly 1; below it every band is divided by the factor |
| LedServer.SmoothedInUnit | new_version/src/LedServer.cpp:77-92 | smoothing keeps bands in [0, 1], never below the new band and never above the larger of the new and the previous band |
| LedServer.ColumnValueEndpoints | new_version/src/LedServer.cpp:98-99 | silence gives an empty column and a full band the full height |
| LedServer.ColumnValueMonotone | new_version/src/LedServer.cpp:98-99 | a louder band never gives a lower column |
| LedServer.DrawnColumns | new_version/src/LedServer.cpp:97-103 | drawing columns keeps the length of the strip |
| LedServer.DrawnColumnsShow | new_version/src/LedServer.cpp:97-103 | after drawing columns 0 .. n-1 each of them shows its bar with its re-armed peak pixel over it, and the LEDs of later columns are untouched |
| LedServer.PeakOverBar | new_version/src/LedServer.cpp:101-102 | a bar with the peak pixel over it shows the bar's colours below the level, black above it and the peak colour (black at the bottom) at the peak row |
| LedServer.DrawStep | new_version/src/LedServer.cpp:97-103 | drawing one more column keeps every earlier column's picture and leaves later columns alone |
| LedServer.SendColumns | new_version/src/LedServer.cpp:97-103 | every column's peak record takes one step at its band's height and the strip becomes the drawing of every column |
| LedServer.SendColumn | new_version/src/LedServer.cpp:97-103 | one more column drawn and stepped, the earlier ones kept |
| LedServer.DrawColumn | new_version/src/LedServer.cpp:101-102 | the column's record takes one peak step, other records are untouched, and the column shows its bar with the re-armed peak pixel |
| LedServer.Server.constructor | new_version/src/LedServer.cpp:7-27 | one band per column and one level per row, no band array yet, previous bands 0, speed filter 0.08, attenuation 100000, not paused |
| LedServer.Server.UpdateClients | new_version/src/LedServer.cpp:30-41 | the first band array is latched; paused, nothing else changes; otherwise the bands become the smoothing of their attenuation, lie in [0, 1], the previous bands follow, and the matrix is drawn and stepped from them |
| LedServer.Server.HighestBand | new_version/src/LedServer.cpp:57-64 | the result is the highest band, or 0 |
| LedServer.Server.AttenuateBands | new_version/src/LedServer.cpp:56-74 | the bands become their attenuation in place, entries past the bands untouched |
| LedServer.Server.SmoothenSpeed | new_version/src/LedServer.cpp:77-92 | the bands become their smoothing against the previous frame and the previous bands take the result |
| LedServer.Server.SendToLEDMatrix | new_version/src/LedServer.cpp:95-106 | every column's record takes one peak step and the strip becomes the drawing of every column |
| LedServer.Server.PauseClients | new_version/src/LedServer.cpp:45-48 | paused and the matrix dark, settings unchanged |
| LedServer.Server.ResumeClients | new_version/src/LedServer.cpp:50-53 | not paused and the matrix dark, settings unchanged |

## Left out

- The FFT and windowing (FftSharp, arduinoFFT): per-bin magnitudes, and in the C# port per-bin frequencies, are parameters of the analyzers.
- Audio capture, the ADC and I2S set-up and reads (`setupAdc`, `i2s_read`): the samples read are a parameter of `EspAnalyzer.Analyzer.ReadAudioSamples`.
- Clocks (`Environment.TickCount64`, `millis()`, `Date.now()`): one reading per peak step is a parameter. new_version/src/LedMatrix.cpp reads `millis()` twice in one call; both readings are taken to be equal.
- IEEE-754 floating point: magnitudes, HSL values, brightness factors and JavaScript numbers are exact `real`s, and rounding and truncation are written out as functions. The `(int)NaN` that `GenerateGradient` computes for a count of 1 is not modelled.
- Colors.GenerateGradient: requires a count of 0 or at least 2: for a count of 1 C# divides 0 by 0 and casts NaN, and for a negative count `new PixelColor[gradientCount]` throws OverflowException; neither outcome is modelled.
- HexColor.GenerateGradient: for a count of 1 the ratio is NaN and the result is an unparseable string; this case is only shown on the hex text, not as a colour.
- Float-to-integer conversions on the ESP32 (`unsigned short level = band * 100`) are exact truncations of values in range; out-of-range conversions, which are undefined in C++, are excluded by LedServer.Server.SendToLEDMatrix requiring bands in [0, 1].
- LedServer.Server.UpdateClients: requires nonnegative bands (FFT magnitudes), so that attenuation lands in [0, 1].
- Hardware sinks: `FastLED.show`, `setBrightness`, the power limit, `CHSV`, Ws2812b `SetPixel`/`Update` and the terminal's cursor and `Write`. The pixel buffers are arrays; `CHSV` is the parameter `hueColor`; the terminal is the colour of each cell and the text of each label.
- The Ws2812b coordinate swap in RpiSpectrumAnalyzer/LedDisplay.cs: the frame is indexed [row, column] directly.
- The brightness and power limit FastLED applies on the ESP32 builds when it pushes the buffer: the brightness is a stored setting there.
- WebDisplay.Reported: reports no peak colour and no palette, because the web display's colours come from `Helpers.HsvToColor`, which is not part of this model; the web display keeps no colours.
- `ColorHelper.ConsoleHues` is commented out in RpiSpectrumAnalyzer/Common.cs, so the console display's default palette is modelled by its hue index into the console colour table.
- ConsoleDisplay.Display.constructor: requires a row count other than 1, where `Map(y, 0, rows - 1, …)` divides by zero and C# throws.
- LedDisplay.Display.constructor: requires a row count other than 1, where its default colours are a gradient of one colour, the NaN case of `GenerateGradient`.
- LedDisplay.Display.constructor: requires at most as many columns as rows, because `_curLevels` is sized by rows and indexed by column.
- ConsoleDisplay.Display.DisplayAsLevels: requires at most one band per column; the index error C# throws for more bands is not modelled.
- LedDisplay.Display.DisplayAsLevels: requires at least one band per column and a palette with a colour for every row of every column; the IndexOutOfRangeException C# throws for fewer bands, or for a smaller palette installed by `UpdateConfiguration` when a lit cell has no colour, is not modelled, and neither is a smaller palette whose missing cells stay dark.
- LedDisplay.Display.DisplayLevels: requires at least one level per column and a palette covering every cell; the IndexOutOfRangeException for fewer levels, or for a lit cell missing from a smaller palette, is not modelled, and neither is a smaller palette whose missing cells stay dark.
- LedDisplay.Display.DisplayColumn: requires a palette covering every cell of the display; a smaller palette, which C# reads only at lit rows and which throws IndexOutOfRangeException at a missing lit cell, is not modelled.
- LedDisplay.Display.FillColumn: requires a palette covering every cell of the display; a smaller palette, which C# reads only at lit rows and which throws IndexOutOfRangeException at a missing lit cell, is not modelled.
- LedDisplay.Display.FillColumn: the ArgumentException that `Color.FromArgb` throws for a channel outside [0, 255] is not modelled; the model writes the out-of-range colour and finishes the frame. A brightness above 100 or a palette or peak colour outside [0, 255] stored by `UpdateConfiguration` (LedDisplay.cs:100, 104-107) reaches it at LedDisplay.cs:143; `LedDisplay.Display.OverBrightCellLeavesGamut` gives such a cell and `LedDisplay.Display.ShownPixelInGamut` the settings under which it cannot happen.
- LedDisplay.Display.SetColumnPeaks: the ArgumentException that `Color.FromArgb` throws for a channel outside [0, 255] is not modelled; the model writes the out-of-range colour and finishes the frame. A brightness above 100 or a palette or peak colour outside [0, 255] stored by `UpdateConfiguration` (LedDisplay.cs:100, 104-107) reaches it at LedDisplay.cs:199; `LedDisplay.Display.OverBrightCellLeavesGamut` gives such a cell and `LedDisplay.Display.ShownPixelInGamut` the settings under which it cannot happen.
- LedDisplay.Display.DisplayColumn: the ArgumentException that `Color.FromArgb` throws for a channel outside [0, 255] is not modelled; the model writes the out-of-range colour and finishes the frame. A brightness above 100 or a palette or peak colour outside [0, 255] stored by `UpdateConfiguration` (LedDisplay.cs:100, 104-107) reaches it; `LedDisplay.Display.OverBrightCellLeavesGamut` gives such a cell and `LedDisplay.Display.ShownPixelInGamut` the settings under which it cannot happen.
- LedDisplay.Display.DisplayLevels: the ArgumentException that `Color.FromArgb` throws for a channel outside [0, 255] is not modelled; the model writes the out-of-range colour and finishes the frame. A brightness above 100 or a palette or peak colour outside [0, 255] stored by `UpdateConfiguration` (LedDisplay.cs:100, 104-107) reaches it; `LedDisplay.Display.OverBrightCellLeavesGamut` gives such a cell and `LedDisplay.Display.ShownPixelInGamut` the settings under which it cannot happen.
- LedDisplay.Display.DisplayAsLevels: the ArgumentException that `Color.FromArgb` throws for a channel outside [0, 255] is not modelled; the model writes the out-of-range colour and finishes the frame. A brightness above 100 or a palette or peak colour outside [0, 255] stored by `UpdateConfiguration` (LedDisplay.cs:100, 104-107) reaches it; `LedDisplay.Display.OverBrightCellLeavesGamut` gives such a cell and `LedDisplay.Display.ShownPixelInGamut` the settings under which it cannot happen.
- HexColor.MapReal: requires a non-empty source range; the infinity or NaN JavaScript returns for an empty one is not modelled (`map` is called only from commented-out code, WebDisplay.js:161).
- WebDisplayJs.Renderer.Clear: the selector `#tblMatrix tr td` also blackens the background of the band-label cells; labels are modelled as text only, so that effect is not modelled.
- WebDisplayJs.Renderer.DisplayLevels: requires at least one level per configured column; with fewer, `targetLevels[x].Level` throws a TypeError part way through the frame, which is not modelled.
- LedDisplay `GetConfiguration` and the `IsBrightnessSupported` property: plain field reads into a record.
- JSON serialisation, WebSocket sends and the HTTP servers (RpiSpectrumAnalyzer/LedServer.cs, WebServer.cs, the `/config` and `/deploy` routes of new_version/src/LedServer.cpp): a broadcast is modelled by its event and the positions of the clients it reaches; the `/config` route only reads the settings back, and the `/deploy` route calls the setters of `LedMatrix.Matrix` and also stores the server's speed filter and attenuation, which the model does not change after construction.
- LedServer.Server: holds `speedFilter` at or above 0 and `attenuationFactor` above 0 (their defaults 0.08 and 100000); the `/deploy` route stores any value it is sent, and an attenuation of 0 with silent bands divides 0 by 0 (NaN), while a negative speed filter lifts smoothed bands above 1; neither is modelled.
- The browser UI files other than Helpers.js and WebDisplay.js, and the HTML pages of the ESP32 builds.
- The Wi-Fi connection, the web-server thread pinned to core 0, and the concurrency between that thread and the audio loop: every update is one atomic step.
- Static fields (`LedServer::_speedFilter`, `_attenuationFactor`, `_clientsPaused`, `Program`'s settings, the globals of the oldest build) are fields of one object.
- The smoothing in src/LedServer.h and SpectrumAnalyzer/LedServer.h reads uninitialised local arrays; only the stateful version of new_version/src/LedServer.cpp is modelled.
- `doDemo`, `updateLEDs`, `clearMatrix`'s push to the strip, `setText` and the getters of the LED matrix: display output or plain field reads.
- The unused `col` member of the oldest build's `ColPeak`.
- LedMatrix.Matrix.constructor: requires at least one row and fewer than 65536 LEDs, since with no rows the top row index wraps and the loop never ends, and the LED count is an `unsigned short`.
- LedMatrix.Matrix.SetLEDColPeak and LedServer: use the floored wait update `LedMatrix.NextWait`, not the wrapping one as written (see Findings).
- LegacyAnalyzer.Analyzer.FillBands: uses the corrected band index `LegacyAnalyzer.BandIndex`, not the out-of-range write as written (see Findings).
- `Program.Main`, `main.cpp` and the other entry points: wiring and endless loops.
- ProgramArgs.Program.SetConfigFromArgs: reads and writes the settings as one record; the culture of `Convert.ToInt32` and `string.StartsWith` is the invariant one (ordinal prefixes, ASCII digits and blanks).
- `Convert.ToInt32(null)`: the option dictionary never holds null, so that case cannot occur.
- HexColor: `parseInt` is exact; JavaScript's loss of precision above 2^53 is not modelled.

## Findings

| source | as written | input that shows it | evidently intended | confidence | as-written member | corrected member |
|---|---|---|---|---|---|---|
| SpectrumAnalyzer/Analyzer.h:134 | the guard `iBand > G_NUM_BANDS` never fires, so a frequency above every table entry writes `g_freqBins[G_NUM_BANDS]`, one past the last band | the top examined bin, 21920 Hz, with the shipped band table, whose last entry is lower | clamp to the last band (`iBand >= G_NUM_BANDS` gives `G_NUM_BANDS - 1`) | not executed | LegacyAnalyzer.ShippedTableWritesPastEnd | LegacyAnalyzer.BandIndex |
| new_version/src/LedMatrix.cpp:152-156 | `curWait -= increment` in `unsigned short` wraps when the wait is below the increment, and the floor check then sees a huge wait | a maximum wait of 10 set from the portal with the default increment 25 gives a wait of 65521 ms; a zeroed record gives 65511 | the wait shrinks by the increment but never below it | not executed | LedMatrix.WrappedWaitEscapesFloor | LedMatrix.NextWait |
