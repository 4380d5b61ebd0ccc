/** The level mapper: amplify, normalize and quantize band magnitudes into
    integer display levels (RpiSpectrumAnalyzer/Extensions.cs and the older
    copy in RpiSpectrumAnalyzer/Common.cs). */
module Levels {
  import opened Prelude

  /** One frequency band: its upper bound in Hz and its accumulated magnitude. */
  datatype BandInfo = BandInfo(band: int, magnitude: real)

  /** One band quantized to a display level. */
  datatype LevelInfo = LevelInfo(band: int, level: int)

  /** Multiplies every magnitude by the (integer) amplification factor. */
  function Amplify(bands: seq<BandInfo>, factor: int): (r: seq<BandInfo>)
    ensures |r| == |bands|
    ensures forall i :: 0 <= i < |r| ==> r[i].band == bands[i].band
  {
    seq(|bands|, i requires 0 <= i < |bands| => BandInfo(bands[i].band, bands[i].magnitude * factor as real))
  }

  /** `Math.Clamp(m, 0, 1)`. */
  function Clamp01(m: real): (c: real)
    ensures 0.0 <= c <= 1.0
    ensures 0.0 <= m <= 1.0 ==> c == m
    ensures m < 0.0 ==> c == 0.0
    ensures m > 1.0 ==> c == 1.0
  {
    if m < 0.0 then 0.0 else if m > 1.0 then 1.0 else m
  }

  /** Clamps every magnitude into [0, 1]. */
  function Normalize(bands: seq<BandInfo>): (r: seq<BandInfo>)
    ensures |r| == |bands|
    ensures forall i :: 0 <= i < |r| ==> r[i].band == bands[i].band && 0.0 <= r[i].magnitude <= 1.0
  {
    seq(|bands|, i requires 0 <= i < |bands| => BandInfo(bands[i].band, Clamp01(bands[i].magnitude)))
  }

  predicate Normalized(bands: seq<BandInfo>)
  {
    forall i :: 0 <= i < |bands| ==> 0.0 <= bands[i].magnitude <= 1.0
  }

  /** `Convert.ToInt32(m * maxLevel / 1)`: rounds half to even. */
  function Quantize(m: real, maxLevel: int): (level: int)
  {
    RoundHalfEven(m * maxLevel as real)
  }

  /** Quantizes every magnitude to a level in [0, maxLevel]. */
  function ToLevels(bands: seq<BandInfo>, maxLevel: int): (r: seq<LevelInfo>)
    ensures |r| == |bands|
    ensures forall i :: 0 <= i < |r| ==> r[i].band == bands[i].band
  {
    seq(|bands|, i requires 0 <= i < |bands| => LevelInfo(bands[i].band, Quantize(bands[i].magnitude, maxLevel)))
  }

  /** The ranged overload in RpiSpectrumAnalyzer/Common.cs:
      `Convert.ToInt32(toMin + (m - fromMin) * (toMax - toMin) / (fromMax - fromMin))`. */
  function QuantizeRanged(m: real, fromMin: real, fromMax: real, toMin: int, toMax: int): (level: int)
    requires fromMax != fromMin
  {
    RoundHalfEven(toMin as real + (m - fromMin) * (toMax - toMin) as real / (fromMax - fromMin))
  }

  function ToLevelsRanged(bands: seq<BandInfo>, fromMin: real, fromMax: real, toMin: int, toMax: int): (r: seq<LevelInfo>)
    requires fromMax != fromMin
    ensures |r| == |bands|
    ensures forall i :: 0 <= i < |r| ==> r[i].band == bands[i].band
  {
    seq(|bands|, i requires 0 <= i < |bands| =>
      LevelInfo(bands[i].band, QuantizeRanged(bands[i].magnitude, fromMin, fromMax, toMin, toMax)))
  }

  /** The integer `Map` extension: linear, with C#'s truncating division. */
  function Map(value: int, fromMin: int, fromMax: int, toMin: int, toMax: int): (r: int)
    requires fromMax != fromMin
  {
    toMin + CDiv((value - fromMin) * (toMax - toMin), fromMax - fromMin)
  }

  /** The composition every renderer applies, in this fixed order. */
  function DisplayLevels(bands: seq<BandInfo>, factor: int, rows: int): (r: seq<LevelInfo>)
  {
    ToLevels(Normalize(Amplify(bands, factor)), rows)
  }

  // ---------------------------------------------------------------------------
  // Properties

  lemma AmplifyScales(bands: seq<BandInfo>, factor: int, i: int)
    requires 0 <= i < |bands|
    ensures Amplify(bands, factor)[i].magnitude == bands[i].magnitude * factor as real
  {
  }

  /** Factor 0 silences every band. */
  lemma AmplifyByZero(bands: seq<BandInfo>)
    ensures forall i :: 0 <= i < |bands| ==> Amplify(bands, 0)[i] == BandInfo(bands[i].band, 0.0)
  {
  }

  /** Normalize leaves in-range magnitudes alone, so applying it twice is applying it once. */
  lemma NormalizeIdempotent(bands: seq<BandInfo>)
    ensures Normalize(Normalize(bands)) == Normalize(bands)
  {
    var once := Normalize(bands);
    assert forall i :: 0 <= i < |once| ==> Normalize(once)[i] == once[i];
  }

  lemma NormalizeFixesNormalized(bands: seq<BandInfo>)
    requires Normalized(bands)
    ensures Normalize(bands) == bands
  {
    assert forall i :: 0 <= i < |bands| ==> Normalize(bands)[i] == bands[i];
  }

  /** A magnitude in [0, 1] quantizes to a level in [0, maxLevel]. */
  lemma QuantizeBounds(m: real, maxLevel: int)
    requires 0.0 <= m <= 1.0 && maxLevel >= 0
    ensures 0 <= Quantize(m, maxLevel) <= maxLevel
  {
    UnitScale(m, maxLevel as real);
    RoundHalfEvenBetween(m * maxLevel as real, 0, maxLevel);
  }

  /** After Normalize, every level from ToLevels lies in [0, maxLevel]. */
  lemma ToLevelsBounded(bands: seq<BandInfo>, maxLevel: int)
    requires Normalized(bands) && maxLevel >= 0
    ensures forall i :: 0 <= i < |bands| ==> 0 <= ToLevels(bands, maxLevel)[i].level <= maxLevel
  {
    forall i | 0 <= i < |bands|
      ensures 0 <= ToLevels(bands, maxLevel)[i].level <= maxLevel
    {
      QuantizeBounds(bands[i].magnitude, maxLevel);
    }
  }

  /** Levels are exact at the ends: magnitude 0 gives level 0, magnitude 1 gives maxLevel. */
  lemma QuantizeEndpoints(maxLevel: int)
    ensures Quantize(0.0, maxLevel) == 0 && Quantize(1.0, maxLevel) == maxLevel
  {
    RoundHalfEvenOfInt(0);
    RoundHalfEvenOfInt(maxLevel);
  }

  /** The composed pipeline keeps one level per band, in order, each in [0, rows]. */
  lemma DisplayLevelsBounded(bands: seq<BandInfo>, factor: int, rows: int)
    requires rows >= 0
    ensures |DisplayLevels(bands, factor, rows)| == |bands|
    ensures forall i :: 0 <= i < |bands| ==>
      DisplayLevels(bands, factor, rows)[i].band == bands[i].band &&
      0 <= DisplayLevels(bands, factor, rows)[i].level <= rows
  {
    ToLevelsBounded(Normalize(Amplify(bands, factor)), rows);
  }

  /** With amplification 0 every level is 0. */
  lemma DisplayLevelsSilent(bands: seq<BandInfo>, rows: int)
    ensures forall i :: 0 <= i < |bands| ==> DisplayLevels(bands, 0, rows)[i].level == 0
  {
    RoundHalfEvenOfInt(0);
  }

  /** Once the amplified magnitude reaches 1 the level saturates at rows exactly. */
  lemma DisplayLevelsSaturate(bands: seq<BandInfo>, factor: int, rows: int, i: int)
    requires 0 <= i < |bands|
    requires bands[i].magnitude * factor as real >= 1.0
    ensures DisplayLevels(bands, factor, rows)[i].level == rows
  {
    var normalized := Normalize(Amplify(bands, factor));
    assert normalized[i].magnitude == 1.0;
    assert 1.0 * rows as real == rows as real;
    RoundHalfEvenOfInt(rows);
    assert Quantize(normalized[i].magnitude, rows) == rows;
  }

  /** The ranged overload maps fromMin to toMin and fromMax to toMax. */
  lemma QuantizeRangedEndpoints(fromMin: real, fromMax: real, toMin: int, toMax: int)
    requires fromMax != fromMin
    ensures QuantizeRanged(fromMin, fromMin, fromMax, toMin, toMax) == toMin
    ensures QuantizeRanged(fromMax, fromMin, fromMax, toMin, toMax) == toMax
  {
    RoundHalfEvenOfInt(toMin);
    var d := fromMax - fromMin;
    calc {
      toMin as real + (fromMax - fromMin) * (toMax - toMin) as real / d;
      toMin as real + (toMax - toMin) as real;
    }
    RoundHalfEvenOfInt(toMax);
  }

  /** The single-argument ToLevels is the ranged one over [0, 1] -> [0, maxLevel]. */
  lemma ToLevelsIsRanged(bands: seq<BandInfo>, maxLevel: int)
    ensures ToLevels(bands, maxLevel) == ToLevelsRanged(bands, 0.0, 1.0, 0, maxLevel)
  {
    forall i | 0 <= i < |bands|
      ensures ToLevels(bands, maxLevel)[i] == ToLevelsRanged(bands, 0.0, 1.0, 0, maxLevel)[i]
    {
      var m := bands[i].magnitude;
      assert 0 as real + (m - 0.0) * (maxLevel - 0) as real / (1.0 - 0.0) == m * maxLevel as real;
    }
  }

  /** Map sends fromMin to toMin and fromMax to toMax. */
  lemma MapEndpoints(fromMin: int, fromMax: int, toMin: int, toMax: int)
    requires fromMax != fromMin
    ensures Map(fromMin, fromMin, fromMax, toMin, toMax) == toMin
    ensures Map(fromMax, fromMin, fromMax, toMin, toMax) == toMax
  {
    var d := fromMax - fromMin;
    assert CDiv(0, d) == 0;
    assert CDiv(d * (toMax - toMin), d) == toMax - toMin by {
      CDivExact(toMax - toMin, d);
    }
  }

  /** A nonzero multiple of a positive b is at least b away from 0. */
  lemma MulAwayFromZero(b: int, m: int)
    requires b > 0
    ensures m >= 1 ==> b * m >= b
    ensures m <= -1 ==> b * m <= -b
  {
  }

  lemma MulDivCancel(a: nat, b: int)
    requires b > 0
    ensures (b * a) / b == a
  {
    var q, r := (b * a) / b, (b * a) % b;
    assert b * (a - q) == r;
    MulAwayFromZero(b, a - q);
  }

  lemma CDivExact(k: int, d: int)
    requires d != 0
    ensures CDiv(d * k, d) == k
  {
    var ak := if k >= 0 then k else -k;
    var ad := if d >= 0 then d else -d;
    assert d * k >= 0 <==> (k == 0 || (k > 0) == (d > 0));
    assert (if d * k >= 0 then d * k else -(d * k)) == ad * ak;
    MulDivCancel(ak, ad);
  }

  /** For a nonnegative numerator and a positive range, Map is C's truncating division, i.e. floor. */
  lemma MapNonnegative(value: int, fromMin: int, fromMax: int, toMin: int, toMax: int)
    requires fromMax > fromMin && value >= fromMin && toMax >= toMin
    ensures Map(value, fromMin, fromMax, toMin, toMax) == toMin + (value - fromMin) * (toMax - toMin) / (fromMax - fromMin)
  {
    assert (value - fromMin) * (toMax - toMin) >= 0;
  }
}
