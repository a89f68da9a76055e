/** The square-wave stimulation object the host constructs once per
    session and polls every frame. Its fields are those of the abstract
    waveform helper (start time, elapsed time) and of the square-wave helper
    (geometry, state, bookkeeping); the 40 Hz profile is a second
    constructor. Each method is specified by the matching function on the
    `Tracker` value its fields make up. */
module Stimulation {
  import opened SquareWave
  import opened Tracking

  class SquareWaveHelper {
    var stimulationStartTime: real
    var elapsedStimulationDuration: real
    var highDuration: real
    var lowDuration: real
    var highValue: real
    var lowValue: real
    var currentState: SquareWaveState
    var lastTransitionTime: real
    var observedTransitions: int

    /** The configured geometry and levels. */
    function Wave(): Waveform
      reads this
    {
      Waveform(highDuration, lowDuration, highValue, lowValue)
    }

    /** The fields of this object as one value. */
    function Snapshot(): Tracker
      reads this
    {
      Tracker(Wave(), stimulationStartTime, elapsedStimulationDuration, currentState,
              lastTransitionTime, observedTransitions)
    }

    /** A helper whose HIGH state lasts `onDuration` and LOW state lasts
        `offDuration`; the durations are stored unchecked. */
    constructor (onDuration: real, offDuration: real)
      ensures Snapshot() == Initial(onDuration, offDuration)
    {
      stimulationStartTime := 0.0;
      elapsedStimulationDuration := 0.0;
      highValue := 1.0;
      lowValue := 0.0;
      currentState := LOW;
      observedTransitions := 0;
      highDuration := onDuration;
      lowDuration := offDuration;
      lastTransitionTime := 0.0;
    }

    /** The 40 Hz helper: 12.5 ms on, then 12.5 ms off. It starts out
        consistent, so every property of a session applies to it. */
    constructor Make40Hz()
      ensures Snapshot() == Stimulation40Hz()
      ensures Snapshot().Consistent()
    {
      stimulationStartTime := 0.0;
      elapsedStimulationDuration := 0.0;
      highValue := 1.0;
      lowValue := 0.0;
      currentState := LOW;
      observedTransitions := 0;
      highDuration := 12.5 / 1000.0;
      lowDuration := 12.5 / 1000.0;
      lastTransitionTime := 0.0;
      InitialConsistent(0.0125, 0.0125);
    }

    /** The level to emit now: the value of the stored state. Nothing is
        changed and the time is not used. */
    method UpdateStimulationLevel(currentTime: real) returns (level: real)
      ensures currentState == HIGH ==> level == highValue
      ensures currentState == LOW ==> level == lowValue
      ensures level == Snapshot().CurrentStateValue()
    {
      level := Wave().ValueOf(currentState);
    }

    /** Poll at `currentTime`; returns whether the state changed. The new
        fields are those `Tracker.UpdateStimulation` computes, and a
        consistent helper polled at a time not before its last poll stays
        consistent. */
    method UpdateStimulation(currentTime: real) returns (changed: bool)
      requires Wave().WellFormed()
      modifies this
      ensures (Snapshot(), changed) == old(Snapshot()).UpdateStimulation(currentTime)
      ensures old(Snapshot()).Consistent() && old(Snapshot()).NotBeforeLastSample(currentTime)
              ==> Snapshot().Consistent()
    {
      ghost var before := Snapshot();
      if stimulationStartTime == 0.0 {
        stimulationStartTime := currentTime;
      }
      elapsedStimulationDuration := currentTime - stimulationStartTime;
      var numElapsedCycles := elapsedStimulationDuration / Wave().TotalCycleDuration();
      var numFullElapsedCycles := TruncateToInt(numElapsedCycles);
      var fraction := numElapsedCycles - numFullElapsedCycles as real;
      var desiredState := Wave().GetState(fraction);
      changed := currentState != desiredState;
      if changed {
        currentState := desiredState;
        lastTransitionTime := currentTime;
        observedTransitions := observedTransitions + 1;
      }
      if before.Consistent() && before.NotBeforeLastSample(currentTime) {
        UpdatePreservesConsistent(before, currentTime);
      }
    }
  }
}
