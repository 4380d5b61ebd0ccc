/** The ESP32 analyzer (Esp32SpectrumAnalyzer/src/Analyzer.cpp): centres the
    ADC samples on the ADC offset and sums the loud FFT bins of the lower half
    of the spectrum into the bands of a copied band table. The FFT (arduinoFFT)
    and the I2S driver are outside the model: the samples read and the
    magnitudes the FFT leaves in `_vReal` arrive as parameters. */
module EspAnalyzer {
  import opened Prelude
  import opened RpiAnalyzer

  const SamplingFrequency: int := 44100
  const SampleSize: int := 1024
  const NoiseThreshold: int := 1000
  /** `ADC1_CHANNEL_0 * 0x1000 + 0xFFF` with `ADC1_CHANNEL_0 == 0`. */
  const Offset: int := 0 * 0x1000 + 0xFFF

  /** Only the bins below half the sample size are looked at. */
  const HalfSize: int := SampleSize / 2

  /** The frequency of bin i in whole Hz: the bin width is computed with integer
      division first, so it is 43 Hz rather than 43.07 Hz. */
  function BinFrequency(i: int): (f: int)
    ensures f == 43 * i
  {
    i * (SamplingFrequency / SampleSize)
  }

  /** The frequency of every examined bin, as the band rule compares it. */
  function BinScale(): (s: seq<real>)
    ensures |s| == HalfSize
    ensures forall i :: 0 <= i < HalfSize ==> s[i] == (43 * i) as real
  {
    seq(HalfSize, i requires 0 <= i < HalfSize => BinFrequency(i) as real)
  }

  /** What bin i adds to a band it falls in: its magnitude if it is one of bins
      2 .. HalfSize - 1 and louder than the noise threshold, nothing otherwise. */
  function Contributions(vReal: seq<real>): (c: seq<real>)
    requires |vReal| >= HalfSize
    ensures |c| == HalfSize
    ensures forall i :: 0 <= i < HalfSize ==> c[i] == (if 2 <= i && vReal[i] > NoiseThreshold as real then vReal[i] else 0.0)
  {
    seq(HalfSize, i requires 0 <= i < HalfSize => if 2 <= i && vReal[i] > NoiseThreshold as real then vReal[i] else 0.0)
  }

  /** The bands `putIntoFrequencyBands` produces: the interval rule of the Pi
      analyzer applied to the contributing bins. */
  function EspBands(table: seq<int>, vReal: seq<real>): (r: seq<real>)
    requires |vReal| >= HalfSize
    ensures |r| == |table|
  {
    seq(|table|, b requires 0 <= b < |table| => BandSum(table, b, Contributions(vReal), BinScale(), HalfSize))
  }

  /** Only the loud bins 2 .. HalfSize - 1 matter: two spectra that agree on
      every such bin give the same bands, whatever bins 0, 1, the upper half and
      the quiet bins hold. */
  lemma OnlyLoudBinsMatter(table: seq<int>, v1: seq<real>, v2: seq<real>)
    requires |v1| >= HalfSize && |v2| >= HalfSize
    requires forall i :: 2 <= i < HalfSize && (v1[i] > NoiseThreshold as real || v2[i] > NoiseThreshold as real) ==> v1[i] == v2[i]
    ensures EspBands(table, v1) == EspBands(table, v2)
  {
    assert Contributions(v1) == Contributions(v2);
  }

  /** Every band is nonnegative, and a spectrum without a loud bin gives all zeros. */
  lemma EspBandsNonnegative(table: seq<int>, vReal: seq<real>)
    requires |vReal| >= HalfSize
    ensures forall b :: 0 <= b < |table| ==> EspBands(table, vReal)[b] >= 0.0
    ensures (forall i :: 2 <= i < HalfSize ==> vReal[i] <= NoiseThreshold as real) ==>
      forall b :: 0 <= b < |table| ==> EspBands(table, vReal)[b] == 0.0
  {
    var c := Contributions(vReal);
    forall b | 0 <= b < |table|
      ensures EspBands(table, vReal)[b] >= 0.0
    {
      BandSumNonnegative(table, b, c, BinScale(), HalfSize);
    }
    if forall i :: 2 <= i < HalfSize ==> vReal[i] <= NoiseThreshold as real {
      assert c == seq(HalfSize, i => 0.0);
      forall b | 0 <= b < |table|
        ensures EspBands(table, vReal)[b] == 0.0
      {
        BandSumZero(table, b, c, BinScale(), HalfSize);
      }
    }
  }

  /** Zero magnitudes sum to zero. */
  lemma {:induction false} BandSumZero(bands: seq<int>, b: int, magnitudes: seq<real>, scale: seq<real>, n: int)
    requires 0 <= b < |bands| && 0 <= n <= |magnitudes| <= |scale|
    requires forall i :: 0 <= i < |magnitudes| ==> magnitudes[i] == 0.0
    ensures BandSum(bands, b, magnitudes, scale, n) == 0.0
  {
    if n > 0 {
      BandSumZero(bands, b, magnitudes, scale, n - 1);
    }
  }

  class Analyzer {
    const noOfBands: U8
    /** The analyzer's own copy of the caller's band table. */
    const bandTable: array<U16>
    var samples: array<int>
    var vReal: array<real>
    var vImag: array<real>
    /** The caller's band array, latched on the first `convertToBands`. */
    var freqBands: array?<real>

    ghost predicate Valid()
      reads this
    {
      bandTable.Length == noOfBands as int &&
      samples.Length == SampleSize && vReal.Length == SampleSize && vImag.Length == SampleSize &&
      vReal != vImag &&
      (freqBands != null ==> freqBands.Length >= noOfBands as int && freqBands != vReal && freqBands != vImag)
    }

    /** Copies the first `numberOfBands` entries of the caller's table. */
    constructor (numberOfBands: U8, table: array<U16>)
      requires table.Length >= numberOfBands as int
      ensures Valid() && freqBands == null
      ensures noOfBands == numberOfBands && bandTable[..] == table[..numberOfBands]
      ensures fresh(bandTable) && fresh(samples) && fresh(vReal) && fresh(vImag)
      ensures forall i :: 0 <= i < SampleSize ==> samples[i] == 0 && vReal[i] == 0.0 && vImag[i] == 0.0
    {
      var copy := new U16[numberOfBands](_ => 0);
      var i := 0;
      while i < numberOfBands as int
        invariant 0 <= i <= numberOfBands as int
        invariant forall k :: 0 <= k < i ==> copy[k] == table[k]
      {
        copy[i] := table[i];
        i := i + 1;
      }
      noOfBands := numberOfBands;
      bandTable := copy;
      samples := new int[SampleSize](_ => 0);
      vReal := new real[SampleSize](_ => 0.0);
      vImag := new real[SampleSize](_ => 0.0);
      freqBands := null;
    }

    /** `readAudioSamples` after `i2s_read` has filled `_samples` with `read`:
        every real part becomes the offset minus the sample, every imaginary part 0. */
    method ReadAudioSamples(read: seq<int>)
      requires Valid() && |read| == SampleSize
      modifies samples, vReal, vImag
      ensures Valid() && samples[..] == read
      ensures forall i :: 0 <= i < SampleSize ==> vReal[i] == (Offset - read[i]) as real && vImag[i] == 0.0
    {
      var i := 0;
      while i < SampleSize
        invariant 0 <= i <= SampleSize
        invariant forall k :: 0 <= k < i ==> samples[k] == read[k] && vReal[k] == (Offset - read[k]) as real && vImag[k] == 0.0
      {
        samples[i] := read[i];
        vReal[i] := (Offset - samples[i]) as real;
        vImag[i] := 0.0;
        i := i + 1;
      }
    }

    /** `convertToBands`: the first band array passed in is kept for good; the
        FFT's magnitudes replace `_vReal`, and the latched array receives the bands. */
    method ConvertToBands(bandsOut: array<real>, magnitudes: seq<real>)
      requires Valid() && |magnitudes| == SampleSize
      requires freqBands == null ==> bandsOut.Length >= noOfBands as int && bandsOut != vReal && bandsOut != vImag
      modifies this`freqBands, vReal, bandsOut, freqBands
      ensures Valid()
      ensures freqBands == (if old(freqBands) == null then bandsOut else old(freqBands))
      ensures vReal[..] == magnitudes
      ensures freqBands[..noOfBands] == EspBands(bandTable[..], magnitudes)
      ensures old(freqBands) == null ==> freqBands[noOfBands..] == old(bandsOut[noOfBands..])
      ensures old(freqBands) != null ==> freqBands[noOfBands..] == old(freqBands[noOfBands..])
      ensures old(freqBands) != null && bandsOut != freqBands && bandsOut != vReal ==> bandsOut[..] == old(bandsOut[..])
    {
      if freqBands == null {
        freqBands := bandsOut;
      }
      ghost var before := freqBands[..];
      var i := 0;
      while i < SampleSize
        invariant 0 <= i <= SampleSize
        invariant forall k :: 0 <= k < i ==> vReal[k] == magnitudes[k]
        invariant freqBands == (if old(freqBands) == null then bandsOut else old(freqBands))
        invariant freqBands[..] == before
        invariant bandsOut != vReal ==> bandsOut[..] == old(bandsOut[..])
      {
        vReal[i] := magnitudes[i];
        i := i + 1;
      }
      assert vReal[..] == magnitudes;
      PutIntoFrequencyBands();
    }

    /** `putIntoFrequencyBands`: zero every band, then add each contributing
        bin to every band whose interval holds its frequency. */
    method PutIntoFrequencyBands()
      requires Valid() && freqBands != null
      modifies freqBands
      ensures freqBands[..noOfBands] == EspBands(bandTable[..], vReal[..])
      ensures freqBands[noOfBands..] == old(freqBands[noOfBands..])
    {
      var n := noOfBands as int;
      var i := 0;
      while i < n
        invariant 0 <= i <= n
        invariant forall k :: 0 <= k < i ==> freqBands[k] == 0.0
        invariant freqBands[n..] == old(freqBands[n..])
      {
        freqBands[i] := 0.0;
        i := i + 1;
      }
      ghost var table: seq<int> := bandTable[..];
      ghost var contribution := Contributions(vReal[..]);
      ghost var scale := BinScale();
      forall b | 0 <= b < n
        ensures BandSum(table, b, contribution, scale, 2) == 0.0
      {
        assert contribution[0] == 0.0 && contribution[1] == 0.0;
        assert BandSum(table, b, contribution, scale, 1) == 0.0;
      }
      i := 2;
      while i < HalfSize
        invariant 2 <= i <= HalfSize
        invariant forall b :: 0 <= b < n ==> freqBands[b] == BandSum(table, b, contribution, scale, i)
        invariant freqBands[n..] == old(freqBands[n..])
      {
        if vReal[i] > NoiseThreshold as real {
          AddBin(i, table, contribution);
        }
        i := i + 1;
      }
      assert freqBands[..n] == EspBands(table, vReal[..]);
    }

    /** The band loop of `putIntoFrequencyBands` for a loud bin `i`: the bin's
        magnitude is added to every band whose interval holds its frequency. */
    method AddBin(i: int, ghost table: seq<int>, ghost contribution: seq<real>)
      requires Valid() && freqBands != null && 2 <= i < HalfSize
      requires table == bandTable[..] && contribution == Contributions(vReal[..])
      requires vReal[i] > NoiseThreshold as real
      requires forall c :: 0 <= c < noOfBands as int ==> freqBands[c] == BandSum(table, c, contribution, BinScale(), i)
      modifies freqBands
      ensures forall c :: 0 <= c < noOfBands as int ==> freqBands[c] == BandSum(table, c, contribution, BinScale(), i + 1)
      ensures freqBands[noOfBands..] == old(freqBands[noOfBands..])
    {
      var n := noOfBands as int;
      ghost var scale := BinScale();
      var freq := BinFrequency(i);
      var b := 0;
      while b < n
        invariant 0 <= b <= n
        invariant forall c :: 0 <= c < b ==> freqBands[c] == BandSum(table, c, contribution, scale, i + 1)
        invariant forall c :: b <= c < n ==> freqBands[c] == BandSum(table, c, contribution, scale, i)
        invariant freqBands[n..] == old(freqBands[n..])
      {
        var startFreq := if b == 0 then 0 else bandTable[b - 1] as int;
        var endFreq := bandTable[b] as int;
        if freq > startFreq && freq <= endFreq {
          freqBands[b] := freqBands[b] + vReal[i];
        }
        b := b + 1;
      }
    }
  }
}
