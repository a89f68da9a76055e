/** Geometry of a two-state square wave and the map from elapsed time to
    the state the wave is in. All times are seconds; the source's `float`
    arithmetic is modelled over `real`. */
module SquareWave {

  /** The two states of the square wave; a cycle is LOW first, then HIGH. */
  datatype SquareWaveState = LOW | HIGH

  /** The C# conversion `(int)x`: the integer part of `x`, rounding toward
      zero (not toward minus infinity, as `Floor` does). */
  function TruncateToInt(x: real): (n: int)
    ensures 0.0 <= x ==> n as real <= x < n as real + 1.0
    ensures x < 0.0 ==> n as real - 1.0 < x <= n as real
  {
    if x >= 0.0 then x.Floor else -((-x).Floor)
  }

  /** The configuration of a square wave: how long each state lasts and
      the level emitted while in it. */
  datatype Waveform = Waveform(highDuration: real, lowDuration: real, highValue: real, lowValue: real)
  {
    /** Both states last a positive time, so the cycle can be divided by. */
    predicate WellFormed() {
      highDuration > 0.0 && lowDuration > 0.0
    }

    /** Length of one LOW+HIGH cycle. */
    function TotalCycleDuration(): (t: real)
      ensures WellFormed() ==> t > lowDuration && t > highDuration && t > 0.0
    {
      lowDuration + highDuration
    }

    /** How long the given state lasts within one cycle. */
    function DurationOf(s: SquareWaveState): (d: real)
      ensures WellFormed() ==> 0.0 < d < TotalCycleDuration()
      ensures d == highDuration || d == lowDuration
    {
      match s
      case LOW => lowDuration
      case HIGH => highDuration
    }

    /** The level emitted while in the given state. */
    function ValueOf(s: SquareWaveState): (v: real)
      ensures v == highValue || v == lowValue
    {
      match s
      case LOW => lowValue
      case HIGH => highValue
    }

    /** The state at a fraction `percentCycleOffset` of the way through a
        cycle: LOW strictly before the LOW duration has passed, HIGH from
        that point on. */
    function GetState(percentCycleOffset: real): (s: SquareWaveState)
      ensures WellFormed() ==>
        (s == LOW <==> percentCycleOffset < lowDuration / TotalCycleDuration())
    {
      BelowQuotient(percentCycleOffset, lowDuration, TotalCycleDuration());
      var cycleTimeOffset := percentCycleOffset * TotalCycleDuration();
      if cycleTimeOffset < lowDuration then LOW else HIGH
    }

    /** The elapsed time measured in cycles, as a real number. */
    function ElapsedCycles(elapsed: real): (c: real)
      requires WellFormed()
      ensures c * TotalCycleDuration() == elapsed
      ensures 0.0 <= elapsed <==> 0.0 <= c
    {
      var t := TotalCycleDuration();
      DivideByPositive(elapsed, t);
      elapsed / t
    }

    /** How far into the current cycle `elapsed` lies, as a fraction: the
        elapsed cycle count minus its truncated integer part. For a
        negative elapsed time the truncation toward zero makes it lie in
        (-1, 0]. */
    function FractionalCycleOffset(elapsed: real): (p: real)
      requires WellFormed()
      ensures 0.0 <= elapsed ==> 0.0 <= p < 1.0
      ensures elapsed < 0.0 ==> -1.0 < p <= 0.0
    {
      var cycles := ElapsedCycles(elapsed);
      cycles - TruncateToInt(cycles) as real
    }

    /** The time at which cycle `k` begins. */
    function CycleStart(k: int): (c: real)
      ensures WellFormed() && 0 <= k ==> 0.0 <= c
    {
      ScaleNonNegative(k as real, TotalCycleDuration());
      k as real * TotalCycleDuration()
    }

    /** The number of whole cycles in `elapsed`, truncated toward zero:
        for a non-negative time the cycle `elapsed` falls in, for a negative
        time minus the number of whole cycles before the start. */
    function CompletedCycles(elapsed: real): (n: int)
      requires WellFormed()
      ensures 0.0 <= elapsed ==> 0 <= n && CycleStart(n) <= elapsed < CycleStart(n + 1)
      ensures elapsed < 0.0 ==> n <= 0 && CycleStart(n - 1) < elapsed <= CycleStart(n)
    {
      var c := ElapsedCycles(elapsed);
      var k := TruncateToInt(c);
      if 0.0 <= elapsed then
        CycleBoundsNonNegative(elapsed, TotalCycleDuration(), c, k);
        k
      else
        CycleBoundsNegative(elapsed, TotalCycleDuration(), c, k);
        k
    }

    /** The offset into the current cycle in seconds, the quantity
        `GetState` compares with the LOW duration. */
    function CycleTimeOffsetAt(elapsed: real): real
      requires WellFormed()
    {
      FractionalCycleOffset(elapsed) * TotalCycleDuration()
    }

    /** The state the wave is in `elapsed` seconds after it started. */
    function StateAt(elapsed: real): (s: SquareWaveState)
      requires WellFormed()
      ensures 0.0 <= elapsed ==>
        (s == LOW <==> elapsed - CycleStart(CompletedCycles(elapsed)) < lowDuration)
    {
      if 0.0 <= elapsed then
        CycleTimeOffset(this, elapsed);
        GetState(FractionalCycleOffset(elapsed))
      else
        GetState(FractionalCycleOffset(elapsed))
    }

    /** The time `k` whole cycles after `elapsed`. */
    function Delayed(elapsed: real, k: nat): (d: real)
      ensures WellFormed() ==> elapsed <= d
    {
      elapsed + CycleStart(k)
    }

    /** Independent description of the LOW windows: the LOW part of cycle
        `k` is the half-open interval [k*T, k*T + LOW duration). */
    predicate InLowWindow(elapsed: real, k: int) {
      CycleStart(k) <= elapsed < CycleStart(k) + lowDuration
    }
  }

  /** Division by a positive number is undone by multiplication and keeps
      the sign. */
  lemma DivideByPositive(e: real, t: real)
    requires 0.0 < t
    ensures (e / t) * t == e
    ensures 0.0 <= e <==> 0.0 <= e / t
  {
    if e / t < 0.0 {
      ScaleStrict(e / t, 0.0, t);
    } else {
      ScaleMonotone(0.0, e / t, t);
    }
  }

  /** For a positive `t`, `p*t < a` exactly when `p < a/t`. */
  lemma BelowQuotient(p: real, a: real, t: real)
    ensures 0.0 < t ==> (p * t < a <==> p < a / t)
  {
    if 0.0 < t {
      DivideByPositive(a, t);
      if p < a / t {
        ScaleStrict(p, a / t, t);
      } else {
        ScaleMonotone(a / t, p, t);
      }
    }
  }

  /** For a non-negative time, the truncated cycle count `k` is the cycle
      the time falls in. */
  lemma CycleBoundsNonNegative(e: real, t: real, c: real, k: int)
    requires 0.0 < t && c * t == e && 0.0 <= c
    requires k as real <= c < k as real + 1.0
    ensures 0 <= k && k as real * t <= e < (k + 1) as real * t
  {
    BracketBelow(c, k as real, (k + 1) as real, t);
  }

  /** For a negative time, truncation toward zero gives the count `k` of
      the cycle boundary at or after the time. */
  lemma CycleBoundsNegative(e: real, t: real, c: real, k: int)
    requires 0.0 < t && c * t == e && c < 0.0
    requires k as real - 1.0 < c <= k as real
    ensures k <= 0 && (k - 1) as real * t < e <= k as real * t
  {
    BracketAbove(c, (k - 1) as real, k as real, t);
  }

  /** `lo <= c < hi` scales to `lo*t <= c*t < hi*t`. */
  lemma BracketBelow(c: real, lo: real, hi: real, t: real)
    requires 0.0 < t && lo <= c < hi
    ensures lo * t <= c * t < hi * t
  {
    ScaleMonotone(lo, c, t);
    ScaleStrict(c, hi, t);
  }

  /** `lo < c <= hi` scales to `lo*t < c*t <= hi*t`. */
  lemma BracketAbove(c: real, lo: real, hi: real, t: real)
    requires 0.0 < t && lo < c <= hi
    ensures lo * t < c * t <= hi * t
  {
    ScaleStrict(lo, c, t);
    ScaleMonotone(c, hi, t);
  }

  /** `GetState` splits a cycle into two half-open intervals: offsets in
      [0, LOW duration) are LOW, offsets in [LOW duration, total) are HIGH;
      the boundary itself belongs to HIGH and the start of a cycle to LOW. */
  lemma GetStateHalfOpen(w: Waveform, p: real)
    requires w.WellFormed() && 0.0 <= p < 1.0
    ensures w.GetState(p) == LOW <==> 0.0 <= p * w.TotalCycleDuration() < w.lowDuration
    ensures w.GetState(p) == HIGH <==> w.lowDuration <= p * w.TotalCycleDuration() < w.TotalCycleDuration()
    ensures w.GetState(0.0) == LOW
    ensures w.GetState(w.lowDuration / w.TotalCycleDuration()) == HIGH
  {
    var t := w.TotalCycleDuration();
    ScaleMonotone(0.0, p, t);
    ScaleStrict(p, 1.0, t);
    DivideByPositive(w.lowDuration, t);
  }

  /** The offset into the cycle, in seconds: elapsed time minus the start
      of the current cycle, and less than one cycle. */
  lemma CycleTimeOffset(w: Waveform, elapsed: real)
    requires w.WellFormed() && 0.0 <= elapsed
    ensures w.CycleTimeOffsetAt(elapsed) == elapsed - w.CycleStart(w.CompletedCycles(elapsed))
    ensures 0.0 <= w.CycleTimeOffsetAt(elapsed) < w.TotalCycleDuration()
  {
    var t := w.TotalCycleDuration();
    var c := w.ElapsedCycles(elapsed);
    var n := w.CompletedCycles(elapsed);
    var p := w.FractionalCycleOffset(elapsed);
    ScaleDifference(c, n as real, t);
    ScaleMonotone(0.0, p, t);
    ScaleStrict(p, 1.0, t);
  }

  /** If `elapsed` lies in cycle `k`, then `k` is the number of completed
      cycles. */
  lemma CompletedCyclesUnique(w: Waveform, elapsed: real, k: int)
    requires w.WellFormed() && 0.0 <= elapsed
    requires w.CycleStart(k) <= elapsed < w.CycleStart(k + 1)
    ensures w.CompletedCycles(elapsed) == k
  {
    var n := w.CompletedCycles(elapsed);
    CycleStartOrder(w, n, k + 1);
    CycleStartOrder(w, k, n + 1);
  }

  /** Inside cycle `k` the wave is LOW exactly during the first LOW
      duration after the cycle's start. */
  lemma StateInCycle(w: Waveform, elapsed: real, k: int)
    requires w.WellFormed() && 0.0 <= elapsed
    requires w.CycleStart(k) <= elapsed < w.CycleStart(k + 1)
    ensures w.StateAt(elapsed) == LOW <==> elapsed - w.CycleStart(k) < w.lowDuration
  {
    CompletedCyclesUnique(w, elapsed, k);
    CycleTimeOffset(w, elapsed);
  }

  /** Scaling by a positive factor keeps `<=`. */
  lemma ScaleMonotone(a: real, b: real, t: real)
    requires 0.0 < t && a <= b
    ensures a * t <= b * t
  {
    assert (b - a) * t >= 0.0;
    ScaleDifference(b, a, t);
  }

  /** Scaling by a positive factor keeps `<`. */
  lemma ScaleStrict(a: real, b: real, t: real)
    requires 0.0 < t && a < b
    ensures a * t < b * t
  {
    assert (b - a) * t > 0.0;
    ScaleDifference(b, a, t);
  }

  /** A product of non-negative factors is non-negative. */
  lemma ScaleNonNegative(a: real, t: real)
    ensures 0.0 <= a && 0.0 <= t ==> 0.0 <= a * t
  {
    if 0.0 <= a && 0.0 < t {
      ScaleMonotone(0.0, a, t);
    }
  }

  /** Scaling distributes over a difference. */
  lemma ScaleDifference(a: real, b: real, t: real)
    ensures (a - b) * t == a * t - b * t
  {
  }

  /** Scaling distributes over a sum. */
  lemma ScaleSum(a: real, b: real, t: real)
    ensures (a + b) * t == a * t + b * t
  {
  }

  /** Cycle starts add up: cycle `a + b` starts where cycle `a` starts plus
      the start of cycle `b`. */
  lemma CycleStartSum(w: Waveform, a: int, b: int)
    ensures w.CycleStart(a + b) == w.CycleStart(a) + w.CycleStart(b)
  {
    assert (a + b) as real == a as real + b as real;
    ScaleSum(a as real, b as real, w.TotalCycleDuration());
  }

  /** A delay of `k` whole cycles adds exactly `k` completed cycles. */
  lemma CompletedCyclesShift(w: Waveform, elapsed: real, k: nat)
    requires w.WellFormed() && 0.0 <= elapsed
    ensures w.CompletedCycles(w.Delayed(elapsed, k)) == w.CompletedCycles(elapsed) + k
  {
    var n := w.CompletedCycles(elapsed);
    var d := w.Delayed(elapsed, k);
    CycleStartSum(w, n, k);
    CycleStartSum(w, n + 1, k);
    assert n + 1 + k == n + k + 1;
    CompletedCyclesUnique(w, d, n + k);
  }

  /** One more cycle adds one cycle length. */
  lemma ScaleSuccessor(a: real, t: real)
    ensures (a + 1.0) * t == a * t + t
  {
  }

  /** The next cycle starts one cycle length later. */
  lemma CycleStartSuccessor(w: Waveform, k: int)
    ensures w.CycleStart(k + 1) == w.CycleStart(k) + w.TotalCycleDuration()
  {
    assert (k + 1) as real == k as real + 1.0;
    ScaleSuccessor(k as real, w.TotalCycleDuration());
  }

  /** The state computed from the fractional offset agrees with the
      independent window description: LOW exactly when `elapsed` lies in
      the LOW part of some cycle `k`, HIGH otherwise. */
  lemma StateAtLowWindows(w: Waveform, elapsed: real)
    requires w.WellFormed() && 0.0 <= elapsed
    ensures w.StateAt(elapsed) == LOW <==> exists k: int :: w.InLowWindow(elapsed, k)
  {
    var n := w.CompletedCycles(elapsed);
    CycleTimeOffset(w, elapsed);
    if w.StateAt(elapsed) == LOW {
      assert w.InLowWindow(elapsed, n);
    } else {
      forall k: int | w.InLowWindow(elapsed, k) ensures false {
        CycleStartSuccessor(w, k);
        CompletedCyclesUnique(w, elapsed, k);
      }
    }
  }

  /** The state is periodic: one whole cycle later the wave is in the same
      state. */
  lemma StateAtPeriodic(w: Waveform, elapsed: real)
    requires w.WellFormed() && 0.0 <= elapsed
    ensures w.StateAt(elapsed + w.TotalCycleDuration()) == w.StateAt(elapsed)
  {
    var t := w.TotalCycleDuration();
    var n := w.CompletedCycles(elapsed);
    CycleStartSuccessor(w, n);
    CycleStartSuccessor(w, n + 1);
    CompletedCyclesUnique(w, elapsed + t, n + 1);
    CycleTimeOffset(w, elapsed);
    CycleTimeOffset(w, elapsed + t);
    assert w.CycleTimeOffsetAt(elapsed + t) == w.CycleTimeOffsetAt(elapsed);
  }

  /** One more whole cycle of delay does not change the state. */
  lemma StateAtShiftStep(w: Waveform, elapsed: real, k: nat)
    requires w.WellFormed() && 0.0 <= elapsed && 1 <= k
    ensures w.StateAt(w.Delayed(elapsed, k)) == w.StateAt(w.Delayed(elapsed, k - 1))
  {
    var before := w.Delayed(elapsed, k - 1);
    ScaleMonotone(0.0, (k - 1) as real, w.TotalCycleDuration());
    CycleStartSuccessor(w, k - 1);
    StateAtPeriodic(w, before);
  }

  /** The state is periodic over any number of whole cycles: a poll that
      arrives `k` cycles late still sees the phase-correct state. */
  lemma {:induction false} StateAtShift(w: Waveform, elapsed: real, k: nat)
    requires w.WellFormed() && 0.0 <= elapsed
    ensures w.StateAt(w.Delayed(elapsed, k)) == w.StateAt(elapsed)
  {
    if k == 0 {
      assert w.Delayed(elapsed, k) == elapsed;
    } else {
      StateAtShiftStep(w, elapsed, k);
      StateAtShift(w, elapsed, k - 1);
    }
  }

  /** The number of state changes an ideal observer would have seen in the
      first `elapsed` seconds: two per completed cycle, plus one if the
      current cycle is already in its HIGH part. */
  function BoundariesCrossed(w: Waveform, elapsed: real): (b: int)
    requires w.WellFormed() && 0.0 <= elapsed
    ensures 0 <= b
    ensures b % 2 == 0 <==> w.StateAt(elapsed) == LOW
  {
    2 * w.CompletedCycles(elapsed) + (if w.StateAt(elapsed) == HIGH then 1 else 0)
  }

  /** Later times have completed at least as many cycles. */
  lemma CompletedCyclesMonotone(w: Waveform, e0: real, e1: real)
    requires w.WellFormed() && 0.0 <= e0 <= e1
    ensures w.CompletedCycles(e0) <= w.CompletedCycles(e1)
  {
    var n0, n1 := w.CompletedCycles(e0), w.CompletedCycles(e1);
    CycleStartOrder(w, n0, n1 + 1);
  }

  /** Cycles are ordered as their start times are. */
  lemma CycleStartOrder(w: Waveform, a: int, b: int)
    requires w.WellFormed() && w.CycleStart(a) < w.CycleStart(b)
    ensures a < b
  {
    if b <= a {
      CycleStartMonotone(w, b, a);
    }
  }

  /** Later cycles start later. */
  lemma CycleStartMonotone(w: Waveform, a: int, b: int)
    requires w.WellFormed() && a <= b
    ensures w.CycleStart(a) <= w.CycleStart(b)
  {
    ScaleMonotone(a as real, b as real, w.TotalCycleDuration());
  }

  /** Within one cycle, once the wave is HIGH it stays HIGH. */
  lemma SameCycleStaysHigh(w: Waveform, e0: real, e1: real)
    requires w.WellFormed() && 0.0 <= e0 <= e1
    requires w.CompletedCycles(e0) == w.CompletedCycles(e1)
    requires w.StateAt(e0) == HIGH
    ensures w.StateAt(e1) == HIGH
  {
    CycleTimeOffset(w, e0);
    CycleTimeOffset(w, e1);
    assert w.CycleTimeOffsetAt(e0) <= w.CycleTimeOffsetAt(e1);
  }

  /** Later times have crossed at least as many boundaries. */
  lemma BoundariesMonotone(w: Waveform, e0: real, e1: real)
    requires w.WellFormed() && 0.0 <= e0 <= e1
    ensures BoundariesCrossed(w, e0) <= BoundariesCrossed(w, e1)
  {
    CompletedCyclesMonotone(w, e0, e1);
    if w.CompletedCycles(e0) == w.CompletedCycles(e1) && w.StateAt(e0) == HIGH {
      SameCycleStaysHigh(w, e0, e1);
    }
  }
}
