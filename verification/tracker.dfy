/** The state of a square-wave stimulation tracker as a value, the update
    performed on each poll as a function of that value and the time pushed
    in by the host, and what stays true over a run of polls. */
module Tracking {
  import opened SquareWave

  /** Every field of the tracker object: the geometry, the latched start
      time, the elapsed time, the last computed state, the time of the last
      detected transition and the number of transitions detected. */
  datatype Tracker = Tracker(
    wave: Waveform,
    stimulationStartTime: real,
    elapsedStimulationDuration: real,
    currentState: SquareWaveState,
    lastTransitionTime: real,
    observedTransitions: int)
  {
    /** The duration of the state the tracker is in. */
    function CurrentStateDuration(): (d: real)
      ensures currentState == LOW ==> d == wave.lowDuration
      ensures currentState == HIGH ==> d == wave.highDuration
      ensures wave.WellFormed() ==> 0.0 < d < wave.TotalCycleDuration()
    {
      wave.DurationOf(currentState)
    }

    /** The level the tracker emits: the HIGH value while HIGH, the LOW
        value while LOW. */
    function CurrentStateValue(): (v: real)
      ensures currentState == LOW ==> v == wave.lowValue
      ensures currentState == HIGH ==> v == wave.highValue
    {
      wave.ValueOf(currentState)
    }

    /** The number of whole cycles in the elapsed time, `(int)` of the
        elapsed cycle count. */
    function NumberExpectedTransitions(): (n: int)
      requires wave.WellFormed()
      ensures 0.0 <= elapsedStimulationDuration ==>
        0 <= n && n as real * wave.TotalCycleDuration() <= elapsedStimulationDuration
               && elapsedStimulationDuration < (n + 1) as real * wave.TotalCycleDuration()
    {
      wave.CompletedCycles(elapsedStimulationDuration)
    }

    /** Expected minus observed transitions, exactly as the source computes
        it; see `IntendedMissedTransitions` for what it was meant to count. */
    function NumberMissedTransitions(): (m: int)
      requires wave.WellFormed()
      ensures m + observedTransitions == NumberExpectedTransitions()
    {
      NumberExpectedTransitions() - observedTransitions
    }

    /** One poll at `currentTime`: latch the start time if it is still the
        sentinel 0, recompute the elapsed time and the phase, and switch to
        the state of that phase. The boolean says whether the state
        changed. */
    function UpdateStimulation(currentTime: real): (r: (Tracker, bool))
      requires wave.WellFormed()
      ensures r.0.wave == wave
      ensures stimulationStartTime != 0.0 ==> r.0.stimulationStartTime == stimulationStartTime
      ensures stimulationStartTime == 0.0 ==> r.0.stimulationStartTime == currentTime
      ensures r.0.elapsedStimulationDuration == currentTime - r.0.stimulationStartTime
      ensures r.0.currentState == wave.StateAt(r.0.elapsedStimulationDuration)
      ensures r.1 <==> r.0.currentState != currentState
      ensures r.1 ==> (r.0.observedTransitions == observedTransitions + 1
                       && r.0.lastTransitionTime == currentTime)
      ensures !r.1 ==> (r.0.currentState == currentState
                        && r.0.observedTransitions == observedTransitions
                        && r.0.lastTransitionTime == lastTransitionTime)
    {
      var start := if stimulationStartTime == 0.0 then currentTime else stimulationStartTime;
      var elapsed := currentTime - start;
      var numElapsedCycles := elapsed / wave.TotalCycleDuration();
      var numFullElapsedCycles := TruncateToInt(numElapsedCycles);
      var fraction := numElapsedCycles - numFullElapsedCycles as real;
      var desiredState := wave.GetState(fraction);
      var polled := this.(stimulationStartTime := start, elapsedStimulationDuration := elapsed);
      if currentState != desiredState then
        (polled.(currentState := desiredState,
                 lastTransitionTime := currentTime,
                 observedTransitions := observedTransitions + 1), true)
      else
        (polled, false)
    }

    /** The time of the last poll, once the start time is latched. */
    function LastSampleTime(): real {
      stimulationStartTime + elapsedStimulationDuration
    }

    /** A poll at `currentTime` does not go back in time: either no start
        time is latched yet, or `currentTime` is not before the last poll. */
    predicate NotBeforeLastSample(currentTime: real) {
      stimulationStartTime == 0.0 || LastSampleTime() <= currentTime
    }

    /** What holds of every tracker reached from construction by polls at
        non-decreasing times: the stored state is the phase-correct one, and
        the observed transitions are at most, and of the same parity as, the
        state changes an ideal observer would have seen. */
    ghost predicate Consistent() {
      wave.WellFormed()
      && 0.0 <= elapsedStimulationDuration
      && (stimulationStartTime == 0.0 ==> elapsedStimulationDuration == 0.0)
      && currentState == wave.StateAt(elapsedStimulationDuration)
      && 0 <= observedTransitions <= BoundariesCrossed(wave, elapsedStimulationDuration)
      && (BoundariesCrossed(wave, elapsedStimulationDuration) - observedTransitions) % 2 == 0
    }

    /** The missed-transition count the counter is meant to report: the
        state changes of the ideal wave minus those observed (two changes
        per cycle, where the source counts one). */
    function IntendedMissedTransitions(): (m: int)
      requires wave.WellFormed() && 0.0 <= elapsedStimulationDuration
      ensures m + observedTransitions == BoundariesCrossed(wave, elapsedStimulationDuration)
      ensures Consistent() ==> 0 <= m && m % 2 == 0
    {
      BoundariesCrossed(wave, elapsedStimulationDuration) - observedTransitions
    }
  }

  /** A fresh tracker with the given HIGH (on) and LOW (off) durations:
      default levels 1.0 and 0.0, no start time, state LOW, nothing
      observed. */
  function Initial(onDuration: real, offDuration: real): (t: Tracker)
    ensures t.wave.highDuration == onDuration && t.wave.lowDuration == offDuration
    ensures t.wave.highValue == 1.0 && t.wave.lowValue == 0.0
    ensures t.stimulationStartTime == 0.0 && t.elapsedStimulationDuration == 0.0
    ensures t.currentState == LOW && t.lastTransitionTime == 0.0 && t.observedTransitions == 0
  {
    Tracker(Waveform(onDuration, offDuration, 1.0, 0.0), 0.0, 0.0, LOW, 0.0, 0)
  }

  /** The 40 Hz profile: 12.5 ms HIGH, then 12.5 ms LOW. */
  function Stimulation40Hz(): (t: Tracker)
    ensures t == Initial(0.0125, 0.0125)
    ensures t.wave.WellFormed() && t.wave.TotalCycleDuration() == 0.025
  {
    Initial(12.5 / 1000.0, 12.5 / 1000.0)
  }

  /** The tracker after a host has polled it at each of `times` in turn. */
  function Replay(t: Tracker, times: seq<real>): (r: Tracker)
    requires t.wave.WellFormed()
    ensures r.wave == t.wave
    decreases |times|
  {
    if times == [] then t else Replay(t.UpdateStimulation(times[0]).0, times[1..])
  }

  /** Timestamps the host pushes in never decrease. */
  predicate NonDecreasing(times: seq<real>) {
    forall i, j :: 0 <= i <= j < |times| ==> times[i] <= times[j]
  }

  /** A fresh tracker with positive durations is consistent. */
  lemma InitialConsistent(onDuration: real, offDuration: real)
    requires 0.0 < onDuration && 0.0 < offDuration
    ensures Initial(onDuration, offDuration).Consistent()
  {
    var w := Initial(onDuration, offDuration).wave;
    assert w.CompletedCycles(0.0) == 0 by {
      CompletedCyclesUnique(w, 0.0, 0);
    }
  }

  /** A poll at a time not before the last one keeps the tracker
      consistent: a detected transition is always backed by a state change
      of the ideal wave that had not been counted yet. */
  lemma UpdatePreservesConsistent(t: Tracker, currentTime: real)
    requires t.Consistent() && t.NotBeforeLastSample(currentTime)
    ensures t.UpdateStimulation(currentTime).0.Consistent()
  {
    var w := t.wave;
    var r := t.UpdateStimulation(currentTime);
    var u := r.0;
    var e0, e1 := t.elapsedStimulationDuration, u.elapsedStimulationDuration;
    assert 0.0 <= e0 <= e1;
    var b0, b1 := BoundariesCrossed(w, e0), BoundariesCrossed(w, e1);
    assert b0 <= b1 by { BoundariesMonotone(w, e0, e1); }
    assert (b1 % 2 == 0) == (u.currentState == LOW);
    assert (b0 % 2 == 0) == (t.currentState == LOW);
    var o0 := t.observedTransitions;
    if r.1 {
      assert u.observedTransitions == o0 + 1;
      ParityAfterChange(b0, b1, o0);
    } else {
      assert u.observedTransitions == o0;
      ParityWithoutChange(b0, b1, o0);
    }
  }

  /** An odd step in the ideal count, matched by one observed transition,
      keeps the difference even and non-negative. */
  lemma ParityAfterChange(b0: int, b1: int, o: int)
    requires o <= b0 <= b1 && (b0 - o) % 2 == 0 && (b1 % 2 == 0) != (b0 % 2 == 0)
    ensures o + 1 <= b1 && (b1 - (o + 1)) % 2 == 0
  {
    var q, p0, p1 := (b0 - o) / 2, b0 / 2, b1 / 2;
    assert b0 - o == 2 * q;
    assert b0 == 2 * p0 + b0 % 2 && b1 == 2 * p1 + b1 % 2;
    if b0 % 2 == 0 {
      assert b1 - (o + 1) == 2 * (p1 - p0 + q);
    } else {
      assert b1 - (o + 1) == 2 * (p1 - p0 + q - 1);
    }
  }

  /** An even step in the ideal count keeps the difference even. */
  lemma ParityWithoutChange(b0: int, b1: int, o: int)
    requires o <= b0 <= b1 && (b0 - o) % 2 == 0 && (b1 % 2 == 0) == (b0 % 2 == 0)
    ensures (b1 - o) % 2 == 0
  {
    var q, p0, p1 := (b0 - o) / 2, b0 / 2, b1 / 2;
    assert b0 - o == 2 * q;
    assert b0 == 2 * p0 + b0 % 2 && b1 == 2 * p1 + b1 % 2;
    if b0 % 2 == 0 {
      assert b1 % 2 == 0;
    } else {
      assert b1 % 2 == 1;
    }
    assert b1 - o == 2 * (p1 - p0 + q);
  }

  /** Over a run of non-decreasing polls, consistency is kept. */
  lemma {:induction false} ReplayConsistent(t: Tracker, times: seq<real>)
    requires t.Consistent() && NonDecreasing(times)
    requires times != [] ==> t.NotBeforeLastSample(times[0])
    ensures Replay(t, times).Consistent()
    decreases |times|
  {
    if times != [] {
      UpdatePreservesConsistent(t, times[0]);
      var u := t.UpdateStimulation(times[0]).0;
      assert u.Consistent();
      assert NonDecreasing(times[1..]);
      assert times[1..] != [] ==> u.NotBeforeLastSample(times[1..][0]) by {
        assert u.LastSampleTime() == times[0];
      }
      ReplayConsistent(u, times[1..]);
    }
  }

  /** A session of polls at non-decreasing times, from a fresh tracker with
      positive durations, ends with the phase-correct state and a
      non-negative, even count of intended missed transitions. */
  lemma SessionKeepsPhaseAndCounts(onDuration: real, offDuration: real, times: seq<real>)
    requires 0.0 < onDuration && 0.0 < offDuration && NonDecreasing(times)
    ensures var r := Replay(Initial(onDuration, offDuration), times);
      r.currentState == r.wave.StateAt(r.elapsedStimulationDuration)
      && 0.0 <= r.elapsedStimulationDuration
      && 0 <= r.IntendedMissedTransitions() && r.IntendedMissedTransitions() % 2 == 0
  {
    InitialConsistent(onDuration, offDuration);
    ReplayConsistent(Initial(onDuration, offDuration), times);
  }

  /** The counter as written falls short of the intended one by one per
      completed cycle, plus one in the HIGH half: a tracker that has seen
      every change reports a negative number of missed transitions as soon
      as the wave has turned HIGH once. */
  lemma AsWrittenMissedUndercounts(t: Tracker)
    requires t.Consistent()
    ensures t.NumberMissedTransitions()
            == t.IntendedMissedTransitions() - t.NumberExpectedTransitions()
               - (if t.currentState == HIGH then 1 else 0)
    ensures t.IntendedMissedTransitions() == 0 && t.observedTransitions > 0 ==> t.NumberMissedTransitions() < 0
  {
  }

  /** Two polls whose elapsed times, measured from the start time the first
      one leaves latched, fall in the same state: the second reports no
      change and the emitted level is the same after both. This includes
      the first poll of a fresh tracker, which latches its own time. */
  lemma SameStateNoChange(t: Tracker, time1: real, time2: real)
    requires t.wave.WellFormed()
    requires var start := if t.stimulationStartTime == 0.0 then time1 else t.stimulationStartTime;
      start != 0.0 && t.wave.StateAt(time1 - start) == t.wave.StateAt(time2 - start)
    ensures var u := t.UpdateStimulation(time1).0;
      !u.UpdateStimulation(time2).1
      && u.UpdateStimulation(time2).0.CurrentStateValue() == u.CurrentStateValue()
  {
  }

  /** A poll that comes any number of whole cycles late still lands on the
      phase-correct state: nothing drifts from skipped polls. */
  lemma SparsePollPhaseCorrect(t: Tracker, offset: real, k: nat)
    requires t.wave.WellFormed() && t.stimulationStartTime != 0.0 && 0.0 <= offset
    ensures var u := t.UpdateStimulation(t.stimulationStartTime + t.wave.Delayed(offset, k)).0;
      u.currentState == t.wave.StateAt(offset)
      && u.CurrentStateValue() == t.wave.ValueOf(t.wave.StateAt(offset))
  {
    var w := t.wave;
    var u := t.UpdateStimulation(t.stimulationStartTime + w.Delayed(offset, k)).0;
    assert u.elapsedStimulationDuration == w.Delayed(offset, k);
    StateAtShift(w, offset, k);
  }

  /** A poll that comes exactly `k` whole cycles after the last one sees
      the same state, so it reports no change although the ideal wave
      changed state `2 * k` times in between: the counter as written grows
      by `k` and the corrected counter by `2 * k`. */
  lemma SparsePollCounts(t: Tracker, k: nat)
    requires t.Consistent() && t.stimulationStartTime != 0.0
    ensures var r := t.UpdateStimulation(t.stimulationStartTime
                                         + t.wave.Delayed(t.elapsedStimulationDuration, k));
      !r.1
      && r.0.NumberMissedTransitions() == t.NumberMissedTransitions() + k
      && r.0.IntendedMissedTransitions() == t.IntendedMissedTransitions() + 2 * k
  {
    var w, e := t.wave, t.elapsedStimulationDuration;
    var d := w.Delayed(e, k);
    var r := t.UpdateStimulation(t.stimulationStartTime + d);
    assert r.0.elapsedStimulationDuration == d;
    StateAtShift(w, e, k);
    CompletedCyclesShift(w, e, k);
  }
}
