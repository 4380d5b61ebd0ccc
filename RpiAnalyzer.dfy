/** The Raspberry Pi analyzer (RpiSpectrumAnalyzer/Analyzer.cs): decodes 16-bit
    PCM, sums FFT bins into the configured frequency bands and smooths the bands
    over time. The FFT itself is outside the model: the per-bin magnitudes and
    the per-bin frequencies arrive as parameters. */
module RpiAnalyzer {
  import opened Prelude
  import opened Levels

  // ---------------------------------------------------------------------------
  // PCM decoding

  /** `BitConverter.ToInt16` on a little-endian pair of bytes: two's complement. */
  function Int16LE(lo: U8, hi: U8): (v: int)
    ensures -0x8000 <= v < 0x8000
    ensures (v - (lo + 0x100 * hi)) % 0x1_0000 == 0
  {
    var u := lo + 0x100 * hi;
    if u >= 0x8000 then u - 0x1_0000 else u
  }

  /** The two little-endian bytes of a 16-bit signed value. */
  function Int16Bytes(v: int): (bytes: (U8, U8))
    requires -0x8000 <= v < 0x8000
  {
    var u := if v < 0 then v + 0x1_0000 else v;
    (u % 0x100, u / 0x100)
  }

  /** Decoding the bytes of a value gives the value back. */
  lemma Int16RoundTrip(v: int)
    requires -0x8000 <= v < 0x8000
    ensures Int16LE(Int16Bytes(v).0, Int16Bytes(v).1) == v
  {
    var u := if v < 0 then v + 0x1_0000 else v;
    assert u == u % 0x100 + 0x100 * (u / 0x100);
  }

  /** Every byte pair is the encoding of the value it decodes to. */
  lemma Int16BytesRoundTrip(lo: U8, hi: U8)
    ensures Int16Bytes(Int16LE(lo, hi)) == (lo, hi)
  {
    var u := lo + 0x100 * hi;
    assert u % 0x100 == lo && u / 0x100 == hi;
  }

  /** Sample i of the buffer: bytes 2i and 2i+1 divided by 32768. */
  function SampleAt(buffer: seq<U8>, i: int): (s: real)
    requires 0 <= i < |buffer| / 2
    ensures -1.0 <= s < 1.0
  {
    Int16LE(buffer[2 * i], buffer[2 * i + 1]) as real / 32768.0
  }

  /** The decoding loop of `ConvertToFrequencyBands(buffer)`: one sample per byte
      pair (a trailing odd byte is ignored), each in [-1, 1). */
  method DecodeSamples(buffer: seq<U8>) returns (samples: array<real>)
    ensures samples.Length == |buffer| / 2
    ensures forall i :: 0 <= i < samples.Length ==> samples[i] == SampleAt(buffer, i)
    ensures forall i :: 0 <= i < samples.Length ==> -1.0 <= samples[i] < 1.0
  {
    var numSamples := |buffer| / 2;
    samples := new real[numSamples];
    var i := 0;
    while i < numSamples
      invariant 0 <= i <= numSamples
      invariant forall k :: 0 <= k < i ==> samples[k] == SampleAt(buffer, k)
    {
      samples[i] := Int16LE(buffer[i * 2], buffer[i * 2 + 1]) as real / 32768.0;
      i := i + 1;
    }
  }

  // ---------------------------------------------------------------------------
  // Band bucketing: the specification

  /** Band b covers the frequencies in (bands[b-1], bands[b]], and (0, bands[0]] for b = 0. */
  predicate InBand(bands: seq<int>, b: int, freq: real)
    requires 0 <= b < |bands|
  {
    (if b == 0 then 0 else bands[b - 1]) as real < freq <= bands[b] as real
  }

  /** The sum of the magnitudes of the first n bins whose frequency lies in band b. */
  function BandSum(bands: seq<int>, b: int, magnitudes: seq<real>, scale: seq<real>, n: int): real
    requires 0 <= b < |bands| && 0 <= n <= |magnitudes| <= |scale|
  {
    if n == 0 then 0.0
    else
      var bin := if InBand(bands, b, scale[n - 1]) then magnitudes[n - 1] else 0.0;
      BandSum(bands, b, magnitudes, scale, n - 1) + bin
  }

  /** Whether any of the first n bins lies in band b. */
  predicate BandHit(bands: seq<int>, b: int, scale: seq<real>, n: int)
    requires 0 <= b < |bands| && 0 <= n <= |scale|
  {
    exists i :: 0 <= i < n && InBand(bands, b, scale[i])
  }

  /** The value of `freqBands[b]` after the first n bins have been processed. */
  function BandAfter(bands: seq<int>, b: int, magnitudes: seq<real>, scale: seq<real>, n: int): BandInfo
    requires 0 <= b < |bands| && 0 <= n <= |magnitudes| <= |scale|
  {
    BandInfo(if BandHit(bands, b, scale, n) then bands[b] else 0, BandSum(bands, b, magnitudes, scale, n))
  }

  /** The bands the analyzer reports for the given bins: one entry per table entry. */
  function Bucketed(bands: seq<int>, magnitudes: seq<real>, scale: seq<real>): (r: seq<BandInfo>)
    requires |magnitudes| <= |scale|
    ensures |r| == |bands|
  {
    seq(|bands|, b requires 0 <= b < |bands| => BandAfter(bands, b, magnitudes, scale, |magnitudes|))
  }

  // ---------------------------------------------------------------------------
  // Band bucketing: properties

  /** With nonnegative bin magnitudes every band sum is nonnegative. */
  lemma {:induction false} BandSumNonnegative(bands: seq<int>, b: int, magnitudes: seq<real>, scale: seq<real>, n: int)
    requires 0 <= b < |bands| && 0 <= n <= |magnitudes| <= |scale|
    requires forall i :: 0 <= i < |magnitudes| ==> magnitudes[i] >= 0.0
    ensures BandSum(bands, b, magnitudes, scale, n) >= 0.0
  {
    if n > 0 {
      BandSumNonnegative(bands, b, magnitudes, scale, n - 1);
    }
  }

  /** A band no bin falls into keeps magnitude 0. */
  lemma {:induction false} BandSumWithoutHit(bands: seq<int>, b: int, magnitudes: seq<real>, scale: seq<real>, n: int)
    requires 0 <= b < |bands| && 0 <= n <= |magnitudes| <= |scale|
    requires !BandHit(bands, b, scale, n)
    ensures BandSum(bands, b, magnitudes, scale, n) == 0.0
  {
    if n > 0 {
      assert !InBand(bands, b, scale[n - 1]);
      BandSumWithoutHit(bands, b, magnitudes, scale, n - 1);
    }
  }

  /** A table entry that does not exceed its predecessor describes an empty
      interval: that band reports band 0 and magnitude 0 whatever the bins. */
  lemma InvertedBandStaysZero(bands: seq<int>, b: int, magnitudes: seq<real>, scale: seq<real>)
    requires 0 < b < |bands| && bands[b] <= bands[b - 1]
    requires |magnitudes| <= |scale|
    ensures Bucketed(bands, magnitudes, scale)[b] == BandInfo(0, 0.0)
  {
    BandSumWithoutHit(bands, b, magnitudes, scale, |magnitudes|);
  }

  /** The table is strictly increasing and starts above 0. */
  predicate StrictlyIncreasing(bands: seq<int>)
  {
    (|bands| > 0 ==> bands[0] > 0) && forall i, j :: 0 <= i < j < |bands| ==> bands[i] < bands[j]
  }

  /** With a strictly increasing table a frequency lies in at most one band, and
      every frequency in (0, last entry] lies in exactly one. */
  lemma {:induction false} UniqueBand(bands: seq<int>, freq: real)
    requires StrictlyIncreasing(bands)
    ensures forall b1, b2 :: 0 <= b1 < |bands| && 0 <= b2 < |bands| && InBand(bands, b1, freq) && InBand(bands, b2, freq) ==> b1 == b2
    ensures |bands| > 0 && 0.0 < freq <= bands[|bands| - 1] as real ==> exists b :: 0 <= b < |bands| && InBand(bands, b, freq)
  {
    if |bands| > 0 && 0.0 < freq <= bands[|bands| - 1] as real {
      var b := 0;
      while freq > bands[b] as real
        invariant 0 <= b < |bands|
        invariant (if b == 0 then 0 else bands[b - 1]) as real < freq
        decreases |bands| - b
      {
        b := b + 1;
      }
      assert InBand(bands, b, freq);
    }
  }

  // ---------------------------------------------------------------------------
  // Smoothing

  /** The asymmetric filter: a rising band follows instantly, a falling band
      drops by at most `speed` per frame, an equal band is left alone. */
  function Smooth(previous: real, current: real, speed: real): real
  {
    if current < previous then MaxReal(previous - speed, current)
    else current
  }

  /** With a nonnegative speed the smoothed value lies between the raw value and
      the larger of the raw and the previous value, and it falls by at most speed. */
  lemma SmoothBounds(previous: real, current: real, speed: real)
    requires speed >= 0.0
    ensures current <= Smooth(previous, current, speed) <= MaxReal(previous, current)
    ensures Smooth(previous, current, speed) >= previous - speed
    ensures current >= previous ==> Smooth(previous, current, speed) == current
  {
  }

  /** Feeding a constant signal reaches it: once the previous value equals the
      raw value the filter is at rest. */
  lemma SmoothFixedPoint(v: real, speed: real)
    ensures Smooth(v, v, speed) == v
  {
  }

  /** Values in [0, 1] stay in [0, 1]. */
  lemma SmoothUnitInterval(previous: real, current: real, speed: real)
    requires 0.0 <= previous <= 1.0 && 0.0 <= current <= 1.0 && speed >= 0.0
    ensures 0.0 <= Smooth(previous, current, speed) <= 1.0
  {
    SmoothBounds(previous, current, speed);
  }

  /** The bands after smoothing, given the previous frame's magnitudes. */
  function Smoothed(raw: seq<BandInfo>, previous: seq<real>, speed: real): (r: seq<BandInfo>)
    requires |previous| == |raw|
    ensures |r| == |raw|
    ensures forall i :: 0 <= i < |r| ==> r[i].band == raw[i].band
  {
    seq(|raw|, i requires 0 <= i < |raw| => BandInfo(raw[i].band, Smooth(previous[i], raw[i].magnitude, speed)))
  }

  function Magnitudes(bands: seq<BandInfo>): (r: seq<real>)
    ensures |r| == |bands|
    ensures forall i :: 0 <= i < |r| ==> r[i] == bands[i].magnitude
  {
    seq(|bands|, i requires 0 <= i < |bands| => bands[i].magnitude)
  }

  // ---------------------------------------------------------------------------
  // The analyzer object

  class Analyzer {
    /** The band table (upper bounds in Hz) of the analyzer parameters. */
    const bands: seq<int>
    /** The smoothing memory: last frame's reported magnitudes, one per band. */
    var freqBandsOld: array<real>

    ghost predicate Valid()
      reads this
    {
      freqBandsOld.Length == |bands|
    }

    constructor (bandTable: seq<int>)
      ensures bands == bandTable && Valid() && fresh(freqBandsOld)
      ensures forall i :: 0 <= i < freqBandsOld.Length ==> freqBandsOld[i] == 0.0
    {
      bands := bandTable;
      freqBandsOld := new real[|bandTable|](_ => 0.0);
    }

    /** `ConvertToFrequencyBands(buffer)` from the FFT on: every bin is added to
        every band whose interval contains its frequency. */
    method ConvertToFrequencyBands(magnitudes: seq<real>, scale: seq<real>) returns (freqBands: array<BandInfo>)
      requires |scale| == |magnitudes|
      ensures fresh(freqBands)
      ensures freqBands[..] == Bucketed(bands, magnitudes, scale)
    {
      freqBands := new BandInfo[|bands|](_ => BandInfo(0, 0.0));
      var i := 0;
      while i < |magnitudes|
        invariant 0 <= i <= |magnitudes|
        invariant freqBands.Length == |bands|
        invariant forall b :: 0 <= b < |bands| ==> freqBands[b] == BandAfter(bands, b, magnitudes, scale, i)
      {
        var freq := scale[i];
        var b := 0;
        while b < |bands|
          invariant 0 <= b <= |bands|
          invariant forall c :: 0 <= c < b ==> freqBands[c] == BandAfter(bands, c, magnitudes, scale, i + 1)
          invariant forall c :: b <= c < |bands| ==> freqBands[c] == BandAfter(bands, c, magnitudes, scale, i)
        {
          var startFreq := if b == 0 then 0 else bands[b - 1];
          var endFreq := bands[b];
          HitStep(bands, b, scale, i);
          if startFreq as real < freq && freq <= endFreq as real {
            freqBands[b] := BandInfo(bands[b], freqBands[b].magnitude + magnitudes[i]);
          }
          b := b + 1;
        }
        i := i + 1;
      }
    }

    /** `ConvertToFrequencyBands(buffer, speedFilter)`: the bucketed bands passed
        through the smoothing filter against last frame's values, which are then
        replaced by this frame's. */
    method ConvertToFrequencyBandsSmoothed(magnitudes: seq<real>, scale: seq<real>, speedFilter: real)
      returns (freqBands: array<BandInfo>)
      requires Valid() && |scale| == |magnitudes|
      modifies freqBandsOld
      ensures Valid() && fresh(freqBands)
      ensures freqBands[..] == Smoothed(Bucketed(bands, magnitudes, scale), old(freqBandsOld[..]), speedFilter)
      ensures freqBandsOld[..] == Magnitudes(freqBands[..])
    {
      freqBands := ConvertToFrequencyBands(magnitudes, scale);
      ghost var raw := freqBands[..];
      ghost var previous := freqBandsOld[..];
      var i := 0;
      while i < freqBands.Length
        invariant 0 <= i <= freqBands.Length == |raw| == freqBandsOld.Length
        invariant forall k :: 0 <= k < i ==>
          freqBands[k] == BandInfo(raw[k].band, Smooth(previous[k], raw[k].magnitude, speedFilter)) &&
          freqBandsOld[k] == freqBands[k].magnitude
        invariant forall k :: i <= k < freqBands.Length ==> freqBands[k] == raw[k] && freqBandsOld[k] == previous[k]
      {
        var freqBandNew := freqBands[i].magnitude;
        if freqBandNew < freqBandsOld[i] {
          freqBands[i] := freqBands[i].(magnitude := MaxReal(freqBandsOld[i] - speedFilter, freqBandNew));
        } else if freqBandNew > freqBandsOld[i] {
          freqBands[i] := freqBands[i].(magnitude := freqBandNew);
        }
        freqBandsOld[i] := freqBands[i].magnitude;
        i := i + 1;
      }
    }
  }

  /** One more bin: the hit predicate of band b grows by that bin's membership. */
  lemma HitStep(bands: seq<int>, b: int, scale: seq<real>, i: int)
    requires 0 <= b < |bands| && 0 <= i < |scale|
    ensures BandHit(bands, b, scale, i + 1) <==> BandHit(bands, b, scale, i) || InBand(bands, b, scale[i])
  {
    if BandHit(bands, b, scale, i + 1) && !InBand(bands, b, scale[i]) {
      var k :| 0 <= k < i + 1 && InBand(bands, b, scale[k]);
      assert k < i;
    }
  }

  /** With nonnegative bins every reported band magnitude is nonnegative. */
  lemma BucketedNonnegative(bands: seq<int>, magnitudes: seq<real>, scale: seq<real>)
    requires |magnitudes| <= |scale|
    requires forall i :: 0 <= i < |magnitudes| ==> magnitudes[i] >= 0.0
    ensures forall b :: 0 <= b < |bands| ==> Bucketed(bands, magnitudes, scale)[b].magnitude >= 0.0
  {
    forall b | 0 <= b < |bands|
      ensures Bucketed(bands, magnitudes, scale)[b].magnitude >= 0.0
    {
      BandSumNonnegative(bands, b, magnitudes, scale, |magnitudes|);
    }
  }

  /** A band's `Band` field is its table entry exactly when some bin matched it,
      and the default 0 otherwise. */
  lemma BucketedBandField(bands: seq<int>, magnitudes: seq<real>, scale: seq<real>, b: int)
    requires |magnitudes| <= |scale| && 0 <= b < |bands|
    ensures (exists i :: 0 <= i < |magnitudes| && InBand(bands, b, scale[i])) ==> Bucketed(bands, magnitudes, scale)[b].band == bands[b]
    ensures !(exists i :: 0 <= i < |magnitudes| && InBand(bands, b, scale[i])) ==> Bucketed(bands, magnitudes, scale)[b].band == 0
  {
  }
}
