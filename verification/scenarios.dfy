/** Concrete polling sessions of the 40 Hz profile (cycle 25 ms: LOW for
    the first 12.5 ms, HIGH for the next 12.5 ms). */
module Scenarios {
  import opened SquareWave
  import opened Tracking

  /** The 40 Hz wave at the elapsed times the sessions below reach: LOW at
      the start of a cycle and 7.5 ms in, HIGH at 12.5 ms and 20 ms, LOW
      again at 25 ms and 30 ms. */
  lemma FortyHertzStates()
    ensures var w := Stimulation40Hz().wave;
      w.StateAt(0.0) == LOW && w.StateAt(0.0075) == LOW
      && w.StateAt(0.0125) == HIGH && w.StateAt(0.02) == HIGH
      && w.StateAt(0.025) == LOW && w.StateAt(0.03) == LOW
  {
    var w := Stimulation40Hz().wave;
    StateInCycle(w, 0.0, 0);
    StateInCycle(w, 0.0075, 0);
    StateInCycle(w, 0.0125, 0);
    StateInCycle(w, 0.02, 0);
    StateInCycle(w, 0.025, 1);
    StateInCycle(w, 0.03, 1);
  }

  /** A session that starts at 1 s: the first poll latches the start and
      stays LOW; 12.5 ms later the wave turns HIGH; at 20 ms it is still
      HIGH; at 25 ms a new cycle begins and it is LOW again. */
  lemma FortyHertzSession()
    ensures var s0 := Stimulation40Hz();
      var r1 := s0.UpdateStimulation(1.0);
      var r2 := r1.0.UpdateStimulation(1.0125);
      var r3 := r2.0.UpdateStimulation(1.02);
      var r4 := r3.0.UpdateStimulation(1.025);
      !r1.1 && r1.0.CurrentStateValue() == 0.0 && r1.0.stimulationStartTime == 1.0
      && r2.1 && r2.0.CurrentStateValue() == 1.0 && r2.0.lastTransitionTime == 1.0125
      && !r3.1 && r3.0.CurrentStateValue() == 1.0
      && r4.1 && r4.0.CurrentStateValue() == 0.0 && r4.0.observedTransitions == 2
  {
    FortyHertzStates();
    var s0 := Stimulation40Hz();
    var r1 := s0.UpdateStimulation(1.0);
    assert r1.0.elapsedStimulationDuration == 0.0 && !r1.1;
    var r2 := r1.0.UpdateStimulation(1.0125);
    assert r2.0.elapsedStimulationDuration == 0.0125 && r2.1;
    var r3 := r2.0.UpdateStimulation(1.02);
    assert r3.0.elapsedStimulationDuration == 0.02 && !r3.1;
    var r4 := r3.0.UpdateStimulation(1.025);
    assert r4.0.elapsedStimulationDuration == 0.025 && r4.1;
  }

  /** Time 0 is the "not started" marker of the start time: a session whose
      first poll is at time 0 latches nothing, and the next poll latches
      its own time instead, so the wave starts over from LOW there and the
      change at 12.5 ms is not reported until 25 ms. */
  lemma ZeroStartRelatches()
    ensures var s0 := Stimulation40Hz();
      var r1 := s0.UpdateStimulation(0.0);
      var r2 := r1.0.UpdateStimulation(0.0125);
      var r3 := r2.0.UpdateStimulation(0.02);
      var r4 := r3.0.UpdateStimulation(0.025);
      !r1.1 && r1.0.stimulationStartTime == 0.0
      && !r2.1 && r2.0.stimulationStartTime == 0.0125 && r2.0.CurrentStateValue() == 0.0
      && !r3.1 && r3.0.CurrentStateValue() == 0.0
      && r4.1 && r4.0.CurrentStateValue() == 1.0
  {
    FortyHertzStates();
    var s0 := Stimulation40Hz();
    var r1 := s0.UpdateStimulation(0.0);
    assert r1.0.elapsedStimulationDuration == 0.0 && !r1.1;
    var r2 := r1.0.UpdateStimulation(0.0125);
    assert r2.0.elapsedStimulationDuration == 0.0 && !r2.1;
    var r3 := r2.0.UpdateStimulation(0.02);
    assert r3.0.elapsedStimulationDuration == 0.0075 && !r3.1;
    var r4 := r3.0.UpdateStimulation(0.025);
    assert r4.0.elapsedStimulationDuration == 0.0125 && r4.1;
  }

  /** The missed-transition counter as written compares whole cycles with
      state changes. Polls at 1 s, 12.5 ms later (HIGH) and 30 ms later
      (LOW, 5 ms into the second cycle, well clear of any boundary) see
      every change, yet the counter reports -1; the intended count
      reports 0. */
  lemma AsWrittenMissedCountNegative()
    ensures var r := Replay(Stimulation40Hz(), [1.0, 1.0125, 1.03]);
      r.observedTransitions == 2
      && r.NumberMissedTransitions() == -1
      && r.IntendedMissedTransitions() == 0
  {
    FortyHertzStates();
    var s0 := Stimulation40Hz();
    var r1 := s0.UpdateStimulation(1.0).0;
    var r2 := r1.UpdateStimulation(1.0125).0;
    assert r2.elapsedStimulationDuration == 0.0125 && r2.observedTransitions == 1;
    var r3 := r2.UpdateStimulation(1.03).0;
    assert r3.elapsedStimulationDuration == 0.03 && r3.observedTransitions == 2;
    assert Replay(s0, [1.0, 1.0125, 1.03]) == r3 by {
      assert [1.0, 1.0125, 1.03][1..] == [1.0125, 1.03];
      assert [1.0125, 1.03][1..] == [1.03];
      assert [1.03][1..] == [];
    }
    var w := s0.wave;
    CompletedCyclesUnique(w, 0.03, 1);
  }
}
