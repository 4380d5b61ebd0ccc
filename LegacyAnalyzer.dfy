/** The oldest ESP32 analyzer (SpectrumAnalyzer/Analyzer.h): each loud FFT bin
    goes to the first band whose table entry exceeds the bin frequency, and the
    bands are then divided by a damped peak with a floor. The FFT (arduinoFFT),
    the DC removal and the I2S driver are outside the model: the magnitudes the
    FFT leaves in `_vReal` arrive as a parameter. */
module LegacyAnalyzer {
  import opened Prelude

  /** `G_NUM_BANDS`. */
  const NumBands: int := 10
  /** `SAMPLE_BLOCK`. */
  const SampleBlock: int := 1024
  const SamplingFrequency: int := 44100
  const NoiseThreshold: int := 1000
  /** `GAIN_DAMPEN`. */
  const GainDampen: int := 2
  /** The smallest divisor ever used. */
  const PeakFloor: real := 80000.0

  /** `g_BandTable` as shipped (SpectrumAnalyzer/Common.h). */
  const ShippedBandTable: seq<int> := [100, 250, 500, 1000, 2000, 4000, 6000, 8000, 10000, 12000]

  // ---------------------------------------------------------------------------
  // Bin frequency

  /** `bucketFrequency`: bins 0 and 1 report 0 Hz, bin i >= 2 reports
      (i - 2) * 22050 / 512 in integer arithmetic (the numerator is never
      negative, so truncation and floor agree). */
  function BucketFrequency(i: int): (f: int)
    ensures i <= 1 ==> f == 0
  {
    if i <= 1 then 0 else CDiv((i - 2) * (SamplingFrequency / 2), SampleBlock / 2)
  }

  /** The bin frequency never decreases with the bin index, and the examined
      bins 2 .. 511 report 0 .. 21920 Hz. */
  lemma BucketFrequencyRange(i: int, j: int)
    requires 2 <= i <= j < SampleBlock / 2
    ensures 0 <= BucketFrequency(i) <= BucketFrequency(j) <= 21920
    ensures BucketFrequency(2) == 0 && BucketFrequency(SampleBlock / 2 - 1) == 21920
  {
    CDivNonnegative((i - 2) * 22050, 512);
    CDivNonnegative((j - 2) * 22050, 512);
    DivMonotone((i - 2) * 22050, (j - 2) * 22050, 512);
    DivMonotone((j - 2) * 22050, 509 * 22050, 512);
  }

  // ---------------------------------------------------------------------------
  // Band selection

  /** The index the `while (iBand < G_NUM_BANDS)` loop stops at when started at
      k: the first entry from k on that is strictly greater than `freq`, or the
      table length when there is none. */
  function FirstGreater(table: seq<int>, freq: int, k: nat): (r: int)
    requires k <= |table|
    ensures k <= r <= |table|
    ensures forall j :: k <= j < r ==> table[j] <= freq
    ensures r < |table| ==> freq < table[r]
    decreases |table| - k
  {
    if k == |table| then |table|
    else if freq < table[k] then k
    else FirstGreater(table, freq, k + 1)
  }

  /** The band index as the code computes it, guard `iBand > G_NUM_BANDS` included. */
  function AsWrittenIndex(table: seq<int>, freq: int): (r: int)
  {
    var iBand := FirstGreater(table, freq, 0);
    if iBand > |table| then |table| else iBand
  }

  /** The guard never fires, and the index equals the table length, one past
      the last band, exactly when no table entry exceeds the frequency. */
  lemma AsWrittenIndexOutOfRange(table: seq<int>, freq: int)
    ensures AsWrittenIndex(table, freq) == FirstGreater(table, freq, 0)
    ensures AsWrittenIndex(table, freq) == |table| <==> forall j :: 0 <= j < |table| ==> table[j] <= freq
  {
  }

  /** With the shipped table the top examined bin (21920 Hz) is above every
      entry, so the code writes `g_freqBins[10]`, past the end of the array. */
  lemma ShippedTableWritesPastEnd()
    ensures BucketFrequency(SampleBlock / 2 - 1) == 21920
    ensures AsWrittenIndex(ShippedBandTable, BucketFrequency(SampleBlock / 2 - 1)) == NumBands
    ensures |ShippedBandTable| == NumBands
  {
    AsWrittenIndexOutOfRange(ShippedBandTable, 21920);
  }

  /** The index with the guard as evidently intended: a frequency above every
      entry goes to the last band. */
  function BandIndex(table: seq<int>, freq: int): (r: int)
    requires |table| > 0
    ensures 0 <= r < |table|
    ensures AsWrittenIndex(table, freq) < |table| ==> r == AsWrittenIndex(table, freq)
    ensures AsWrittenIndex(table, freq) == |table| ==> r == |table| - 1
  {
    var iBand := FirstGreater(table, freq, 0);
    if iBand >= |table| then |table| - 1 else iBand
  }

  // ---------------------------------------------------------------------------
  // Filling the bands: the specification

  /** Whether bin i takes part: its magnitude is above the noise threshold. */
  predicate Loud(magnitudes: seq<real>, i: int)
    requires 0 <= i < |magnitudes|
  {
    magnitudes[i] > NoiseThreshold as real
  }

  /** The magnitude band b has collected from bins 2 .. n - 1. */
  function LegacySum(table: seq<int>, b: int, magnitudes: seq<real>, n: int): real
    requires |table| > 0 && 0 <= n <= |magnitudes|
  {
    if n <= 2 then 0.0
    else
      var bin := if Loud(magnitudes, n - 1) && BandIndex(table, BucketFrequency(n - 1)) == b then magnitudes[n - 1] else 0.0;
      LegacySum(table, b, magnitudes, n - 1) + bin
  }

  /** All bands after bins 2 .. n - 1. */
  function BinsAfter(table: seq<int>, magnitudes: seq<real>, n: int): (r: seq<real>)
    requires |table| > 0 && 0 <= n <= |magnitudes|
    ensures |r| == |table|
  {
    seq(|table|, b requires 0 <= b < |table| => LegacySum(table, b, magnitudes, n))
  }

  /** The bands after the fill step of `computeFFT`. */
  function Filled(table: seq<int>, magnitudes: seq<real>): (r: seq<real>)
    requires |table| > 0 && |magnitudes| == SampleBlock
    ensures |r| == |table|
  {
    BinsAfter(table, magnitudes, SampleBlock / 2)
  }

  function SumSeq(s: seq<real>): real
  {
    if |s| == 0 then 0.0 else SumSeq(s[..|s| - 1]) + s[|s| - 1]
  }

  /** The total magnitude of the loud bins among 2 .. n - 1. */
  function LoudSum(magnitudes: seq<real>, n: int): real
    requires 0 <= n <= |magnitudes|
  {
    if n <= 2 then 0.0
    else LoudSum(magnitudes, n - 1) + (if Loud(magnitudes, n - 1) then magnitudes[n - 1] else 0.0)
  }

  /** Adding x to one entry adds x to the sum. */
  lemma {:induction false} SumSeqBump(s: seq<real>, k: int, x: real)
    requires 0 <= k < |s|
    ensures SumSeq(s[k := s[k] + x]) == SumSeq(s) + x
  {
    var t := s[k := s[k] + x];
    var m := |s| - 1;
    if k == m {
      assert t[..m] == s[..m];
    } else {
      assert t[..m] == s[..m][k := s[k] + x];
      SumSeqBump(s[..m], k, x);
    }
  }

  /** Every loud bin lands in exactly one band: the bands together hold the
      total magnitude of the loud bins, nothing is lost and nothing is counted twice. */
  lemma {:induction false} FillConservesMagnitude(table: seq<int>, magnitudes: seq<real>, n: int)
    requires |table| > 0 && 0 <= n <= |magnitudes|
    ensures SumSeq(BinsAfter(table, magnitudes, n)) == LoudSum(magnitudes, n)
  {
    if n <= 2 {
      ZeroSum(BinsAfter(table, magnitudes, n));
    } else {
      FillConservesMagnitude(table, magnitudes, n - 1);
      var before := BinsAfter(table, magnitudes, n - 1);
      var k := BandIndex(table, BucketFrequency(n - 1));
      if Loud(magnitudes, n - 1) {
        assert BinsAfter(table, magnitudes, n) == before[k := before[k] + magnitudes[n - 1]];
        SumSeqBump(before, k, magnitudes[n - 1]);
      } else {
        assert BinsAfter(table, magnitudes, n) == before;
      }
    }
  }

  lemma {:induction false} ZeroSum(s: seq<real>)
    requires forall i :: 0 <= i < |s| ==> s[i] == 0.0
    ensures SumSeq(s) == 0.0
  {
    if |s| > 0 {
      ZeroSum(s[..|s| - 1]);
    }
  }

  /** Loud bins are above the threshold, so every band is nonnegative. */
  lemma {:induction false} LegacySumNonnegative(table: seq<int>, b: int, magnitudes: seq<real>, n: int)
    requires |table| > 0 && 0 <= n <= |magnitudes|
    ensures LegacySum(table, b, magnitudes, n) >= 0.0
  {
    if n > 2 {
      LegacySumNonnegative(table, b, magnitudes, n - 1);
    }
  }

  // ---------------------------------------------------------------------------
  // Peak normalisation: the specification

  /** The largest band, or 0 when every band is negative or there is none
      (the running maximum starts at 0). */
  function PeakOf(bins: seq<real>): (p: real)
    ensures p >= 0.0
    ensures forall i :: 0 <= i < |bins| ==> bins[i] <= p
    ensures p == 0.0 || exists i :: 0 <= i < |bins| && bins[i] == p
  {
    if |bins| == 0 then 0.0 else MaxReal(PeakOf(bins[..|bins| - 1]), bins[|bins| - 1])
  }

  /** The peak raised to at least 1 and damped against last frame's stored
      peak: it follows a rising peak at once and falls at most halfway. This is
      the value stored in `lastAllBandsPeak`. */
  function DampedPeak(last: real, peak: real): real
  {
    var p := if peak < 1.0 then 1.0 else peak;
    MaxReal(p, (last * (GainDampen - 1) as real + p) / GainDampen as real)
  }

  /** The divisor: the damped peak floored at 80000. */
  function Divisor(last: real, peak: real): real
  {
    var d := DampedPeak(last, peak);
    if d < PeakFloor then PeakFloor else d
  }

  function Scaled(bins: seq<real>, divisor: real): (r: seq<real>)
    requires divisor != 0.0
    ensures |r| == |bins|
    ensures forall i :: 0 <= i < |r| ==> r[i] * divisor == bins[i]
  {
    seq(|bins|, i requires 0 <= i < |bins| => bins[i] / divisor)
  }

  /** The stored peak is at least 1 and the peak, follows a rising peak
      exactly, and falls at most to the midpoint of last and current. */
  lemma DampedPeakBounds(last: real, peak: real)
    ensures DampedPeak(last, peak) >= 1.0 && DampedPeak(last, peak) >= peak
    ensures last <= peak && peak >= 1.0 ==> DampedPeak(last, peak) == peak
    ensures DampedPeak(last, peak) >= (last + peak) / 2.0
  {
  }

  /** The divisor is at least 80000 and at least the peak, so nonnegative
      bands end in [0, 1]. */
  lemma DivisorNormalizes(last: real, bins: seq<real>)
    requires forall i :: 0 <= i < |bins| ==> bins[i] >= 0.0
    ensures Divisor(last, PeakOf(bins)) >= PeakFloor
    ensures Divisor(last, PeakOf(bins)) >= PeakOf(bins)
    ensures forall i :: 0 <= i < |bins| ==> 0.0 <= Scaled(bins, Divisor(last, PeakOf(bins)))[i] <= 1.0
  {
    var d := Divisor(last, PeakOf(bins));
    DampedPeakBounds(last, PeakOf(bins));
    forall i | 0 <= i < |bins|
      ensures 0.0 <= Scaled(bins, d)[i] <= 1.0
    {
      QuotientInUnit(bins[i], d);
    }
  }

  lemma QuotientInUnit(x: real, d: real)
    requires 0.0 <= x <= d && d > 0.0
    ensures 0.0 <= x / d <= 1.0
  {
    assert x / d * d == x;
  }

  // ---------------------------------------------------------------------------
  // The analyzer state

  class Analyzer {
    /** `g_BandTable`. */
    const bandTable: seq<int>
    /** `g_freqBins`, one slot per band. */
    var freqBins: array<real>
    /** The function-static `lastAllBandsPeak` of `computeFFT`. */
    var lastAllBandsPeak: real

    ghost predicate Valid()
      reads this
    {
      |bandTable| > 0 && freqBins.Length == |bandTable|
    }

    constructor (table: seq<int>)
      requires |table| > 0
      ensures Valid() && bandTable == table && fresh(freqBins) && lastAllBandsPeak == 0.0
      ensures forall i :: 0 <= i < freqBins.Length ==> freqBins[i] == 0.0
    {
      bandTable := table;
      freqBins := new real[|table|](_ => 0.0);
      lastAllBandsPeak := 0.0;
    }

    /** The band part of `computeFFT`: zero the bands, add every loud bin of
        2 .. 511 to its band, then divide by the damped, floored peak. Band
        selection uses the corrected guard; see `AsWrittenIndex`. */
    method ComputeFFT(magnitudes: seq<real>)
      requires Valid() && |magnitudes| == SampleBlock
      modifies this`lastAllBandsPeak, freqBins
      ensures Valid()
      ensures lastAllBandsPeak == DampedPeak(old(lastAllBandsPeak), PeakOf(Filled(bandTable, magnitudes)))
      ensures freqBins[..] == Scaled(Filled(bandTable, magnitudes), Divisor(old(lastAllBandsPeak), PeakOf(Filled(bandTable, magnitudes))))
    {
      FillBands(magnitudes);
      ScaleByPeak();
    }

    /** Step 4 of `computeFFT`: zero the bands, then add every loud bin of
        2 .. 511 to its band. */
    method FillBands(magnitudes: seq<real>)
      requires Valid() && |magnitudes| == SampleBlock
      modifies freqBins
      ensures freqBins[..] == Filled(bandTable, magnitudes)
    {
      var n := |bandTable|;
      ClearBands();
      var i := 2;
      while i < SampleBlock / 2
        invariant 2 <= i <= SampleBlock / 2
        invariant forall b :: 0 <= b < n ==> freqBins[b] == LegacySum(bandTable, b, magnitudes, i)
      {
        if magnitudes[i] > NoiseThreshold as real {
          var iBand := FindBand(BucketFrequency(i));
          freqBins[iBand] := freqBins[iBand] + magnitudes[i];
        }
        i := i + 1;
      }
    }

    /** The zeroing loop of step 4. */
    method ClearBands()
      requires Valid()
      modifies freqBins
      ensures forall k :: 0 <= k < freqBins.Length ==> freqBins[k] == 0.0
    {
      var i := 0;
      while i < freqBins.Length
        invariant 0 <= i <= freqBins.Length
        invariant forall k :: 0 <= k < i ==> freqBins[k] == 0.0
      {
        freqBins[i] := 0.0;
        i := i + 1;
      }
    }

    /** The band search of step 4, with the guard as evidently intended. */
    method FindBand(freq: int) returns (iBand: int)
      requires Valid()
      ensures iBand == BandIndex(bandTable, freq)
    {
      var n := |bandTable|;
      iBand := 0;
      while iBand < n
        invariant 0 <= iBand <= n
        invariant FirstGreater(bandTable, freq, iBand) == FirstGreater(bandTable, freq, 0)
      {
        if freq < bandTable[iBand] {
          break;
        }
        iBand := iBand + 1;
      }
      if iBand >= n {
        iBand := n - 1;
      }
    }

    /** Step 5 of `computeFFT`: find the peak band, damp it against the
        stored peak, store it, floor it at 80000 and divide every band by it. */
    method ScaleByPeak()
      requires Valid()
      modifies this`lastAllBandsPeak, freqBins
      ensures lastAllBandsPeak == DampedPeak(old(lastAllBandsPeak), PeakOf(old(freqBins[..])))
      ensures freqBins[..] == Scaled(old(freqBins[..]), Divisor(old(lastAllBandsPeak), PeakOf(old(freqBins[..]))))
    {
      var allBandsPeak := FindPeak();
      if allBandsPeak < 1.0 {
        allBandsPeak := 1.0;
      }
      allBandsPeak := MaxReal(allBandsPeak, (lastAllBandsPeak * (GainDampen - 1) as real + allBandsPeak) / GainDampen as real);
      lastAllBandsPeak := allBandsPeak;
      if allBandsPeak < PeakFloor {
        allBandsPeak := PeakFloor;
      }
      DivideBins(allBandsPeak);
    }

    /** The first loop of step 5: the largest band, or 0 when none is positive. */
    method FindPeak() returns (allBandsPeak: real)
      requires Valid()
      ensures allBandsPeak == PeakOf(freqBins[..])
    {
      var n := |bandTable|;
      ghost var filled := freqBins[..];
      allBandsPeak := 0.0;
      var i := 0;
      while i < n
        invariant 0 <= i <= n
        invariant allBandsPeak == PeakOf(filled[..i])
      {
        assert filled[..i + 1][..i] == filled[..i];
        if freqBins[i] > allBandsPeak {
          allBandsPeak := freqBins[i];
        }
        i := i + 1;
      }
      assert filled[..n] == filled;
    }

    /** The second loop of step 5: every band divided by the divisor. */
    method DivideBins(divisor: real)
      requires Valid() && divisor != 0.0
      modifies freqBins
      ensures freqBins[..] == Scaled(old(freqBins[..]), divisor)
    {
      var n := |bandTable|;
      var i := 0;
      while i < n
        invariant 0 <= i <= n
        invariant forall k :: 0 <= k < i ==> freqBins[k] == old(freqBins[k]) / divisor
        invariant forall k :: i <= k < n ==> freqBins[k] == old(freqBins[k])
      {
        freqBins[i] := freqBins[i] / (divisor * 1.0);
        i := i + 1;
      }
    }
  }
}
