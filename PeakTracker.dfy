/** The peak-hold state machine shared by every display: one `ColPeak` record
    per column re-arms when the level rises above the held peak, falls one row
    once the current wait has elapsed, and shortens the wait by a countdown
    down to a floor. This is the reference step, as RpiSpectrumAnalyzer/LedDisplay.cs
    `SetColumnPeaks` runs it with signed 64-bit times and waits; the other
    displays are modelled against it in their own modules. The clock is the
    parameter `now`, read once per step. */
module PeakHold {
  import opened Prelude

  /** The `ColPeak` struct of RpiSpectrumAnalyzer/Models.cs (the column index is
      the record's position in the array). */
  datatype ColPeak = ColPeak(row: int, curWait: int, curMilSecs: int, prevMilSecs: int)

  /** A default-initialised record. */
  const Initial: ColPeak := ColPeak(0, 0, 0, 0)

  /** A level above the held peak moves the peak up to it, clamped to the top
      row, restarts the fall timer and restores the full wait. */
  function Rearm(p: ColPeak, value: int, rows: int, peakWait: int, now: int): ColPeak
  {
    if value > p.row then ColPeak(MinInt(value, rows - 1), peakWait, now, now) else p
  }

  /** Once the wait has elapsed since the last fall, a peak above the bottom
      drops one row and the fall timer restarts. */
  function Fall(p: ColPeak, now: int): ColPeak
  {
    var q := p.(curMilSecs := now);
    if q.curMilSecs - q.prevMilSecs >= q.curWait && q.row > 0
    then q.(row := q.row - 1, prevMilSecs := q.curMilSecs)
    else q
  }

  /** The wait shrinks by the countdown on every step, but not below it. */
  function Accelerate(p: ColPeak, countDown: int): ColPeak
  {
    var w := p.curWait - countDown;
    p.(curWait := if w < countDown then countDown else w)
  }

  /** One call of the peak logic for one column. */
  function Step(p: ColPeak, value: int, rows: int, peakWait: int, countDown: int, now: int): ColPeak
  {
    Accelerate(Fall(Rearm(p, value, rows, peakWait, now), now), countDown)
  }

  /** The lowest row at which a peak is drawn: 0 when peaks are shown during
      silence, 1 otherwise. */
  function PeakThreshold(showPeaksWhenSilent: bool): int
  {
    if showPeaksWhenSilent then 0 else 1
  }

  /** Whether the held peak is drawn (`Row >= targetPeakRow`). */
  predicate PeakVisible(row: int, showPeaksWhenSilent: bool)
  {
    row >= PeakThreshold(showPeaksWhenSilent)
  }

  // ---------------------------------------------------------------------------
  // Properties of one step

  /** The held row stays on the display: in [0, rows - 1]. */
  lemma StepRowInRange(p: ColPeak, value: int, rows: int, peakWait: int, countDown: int, now: int)
    requires rows >= 1 && 0 <= p.row < rows
    ensures 0 <= Step(p, value, rows, peakWait, countDown, now).row < rows
  {
  }

  /** After a step the wait is the previous wait (or the full wait after a
      re-arm) less the countdown, but never below the countdown. */
  lemma StepWait(p: ColPeak, value: int, rows: int, peakWait: int, countDown: int, now: int)
    ensures var w := Rearm(p, value, rows, peakWait, now).curWait - countDown;
      Step(p, value, rows, peakWait, countDown, now).curWait == (if w < countDown then countDown else w)
    ensures Step(p, value, rows, peakWait, countDown, now).curWait >= countDown
  {
  }

  /** A step lowers the peak by at most one row, and it lowers it exactly when
      the wait has elapsed since the last fall and the peak is above the bottom. */
  lemma StepFallsAtMostOne(p: ColPeak, value: int, rows: int, peakWait: int, countDown: int, now: int)
    ensures var r := Rearm(p, value, rows, peakWait, now);
      var q := Step(p, value, rows, peakWait, countDown, now);
      (q.row == r.row - 1 <==> now - r.prevMilSecs >= r.curWait && r.row > 0) &&
      (q.row != r.row - 1 ==> q.row == r.row && q.prevMilSecs == r.prevMilSecs) &&
      (q.row == r.row - 1 ==> q.prevMilSecs == now) &&
      q.curMilSecs == now
  {
  }

  /** A level above the held peak re-arms it: with a positive wait the peak
      sits at the level (clamped to the top row) and does not fall in the same step. */
  lemma StepRearms(p: ColPeak, value: int, rows: int, peakWait: int, countDown: int, now: int)
    requires value > p.row && peakWait > 0
    ensures var q := Step(p, value, rows, peakWait, countDown, now);
      q.row == MinInt(value, rows - 1) && q.prevMilSecs == now &&
      q.curWait == (if peakWait - countDown < countDown then countDown else peakWait - countDown)
  {
  }

  /** The held peak never drops more than one row below the level it was fed
      (clamped to the top row). */
  lemma StepTracksLevel(p: ColPeak, value: int, rows: int, peakWait: int, countDown: int, now: int)
    requires peakWait > 0
    ensures Step(p, value, rows, peakWait, countDown, now).row >= MinInt(value, rows - 1) - 1
  {
  }

  /** Silence keeps a peak that rests at the bottom where it is. */
  lemma SilenceIsStable(p: ColPeak, value: int, rows: int, peakWait: int, countDown: int, now: int)
    requires p.row == 0 && value <= 0
    ensures Step(p, value, rows, peakWait, countDown, now).row == 0
  {
  }

  // ---------------------------------------------------------------------------
  // Several steps

  /** Consecutive steps with the same level, one per clock reading in `nows`. */
  function Steps(p: ColPeak, value: int, rows: int, peakWait: int, countDown: int, nows: seq<int>): ColPeak
  {
    if |nows| == 0 then p
    else Step(Steps(p, value, rows, peakWait, countDown, nows[..|nows| - 1]), value, rows, peakWait, countDown, nows[|nows| - 1])
  }

  /** The wait after k >= 1 steps without a re-arm, whatever the clock does:
      the start wait less k countdowns, floored at the countdown. */
  function WaitAfter(w: int, countDown: int, k: nat): int
    requires countDown >= 0 && k >= 1
  {
    if w - k * countDown < countDown then countDown else w - k * countDown
  }

  /** One more countdown on top of k: the floored wait shrinks once more. */
  lemma WaitAfterNext(w: int, countDown: int, k: nat)
    requires countDown >= 0 && k >= 1
    ensures var v := WaitAfter(w, countDown, k) - countDown;
      WaitAfter(w, countDown, k + 1) == (if v < countDown then countDown else v)
  {
    assert (k + 1) * countDown == k * countDown + countDown;
  }

  /** Stepping k >= 1 times at one instant with a level below the peak and a
      positive countdown: the peak falls at most once, and the wait shrinks by
      k countdowns down to the floor. */
  lemma {:induction false} StepsAtOneInstant(p: ColPeak, value: int, rows: int, peakWait: int, countDown: int, now: int, nows: seq<int>)
    requires value < p.row && countDown > 0 && |nows| >= 1
    requires forall i :: 0 <= i < |nows| ==> nows[i] == now
    ensures var q := Steps(p, value, rows, peakWait, countDown, nows);
      var k := |nows|;
      p.row - 1 <= q.row <= p.row &&
      (q.row == p.row - 1 ==> q.prevMilSecs == now) &&
      q.curWait == WaitAfter(p.curWait, countDown, k)
  {
    var m := |nows| - 1;
    if m >= 1 {
      StepsAtOneInstant(p, value, rows, peakWait, countDown, now, nows[..m]);
      WaitAfterNext(p.curWait, countDown, m);
      var q := Steps(p, value, rows, peakWait, countDown, nows[..m]);
      assert Rearm(q, value, rows, peakWait, now) == q;
      if q.row == p.row - 1 {
        assert now - q.prevMilSecs == 0 < countDown <= q.curWait;
      }
    }
  }

  /** Consecutive steps whose level stays at the bottom: the wait follows
      `WaitAfter` and the peak never rises. */
  lemma {:induction false} QuietStepsDecay(p: ColPeak, value: int, rows: int, peakWait: int, countDown: int, nows: seq<int>)
    requires p.row >= 0 && value <= 0 && countDown >= 0 && |nows| >= 1
    ensures var q := Steps(p, value, rows, peakWait, countDown, nows);
      0 <= q.row <= p.row && q.curWait == WaitAfter(p.curWait, countDown, |nows|)
  {
    var m := |nows| - 1;
    if m >= 1 {
      QuietStepsDecay(p, value, rows, peakWait, countDown, nows[..m]);
      var q := Steps(p, value, rows, peakWait, countDown, nows[..m]);
      assert Rearm(q, value, rows, peakWait, nows[m]) == q;
      WaitAfterNext(p.curWait, countDown, m);
    }
  }

  /** Every step keeps the held row on the display. */
  lemma {:induction false} StepsRowInRange(p: ColPeak, value: int, rows: int, peakWait: int, countDown: int, nows: seq<int>)
    requires rows >= 1 && 0 <= p.row < rows
    ensures 0 <= Steps(p, value, rows, peakWait, countDown, nows).row < rows
  {
    if |nows| > 0 {
      var m := |nows| - 1;
      StepsRowInRange(p, value, rows, peakWait, countDown, nows[..m]);
      StepRowInRange(Steps(p, value, rows, peakWait, countDown, nows[..m]), value, rows, peakWait, countDown, nows[m]);
    }
  }
}
