# Square-wave stimulation tracker

A Dafny model of the square-wave stimulation helper of PhoUnityAudioVisualStimulator
(`Assets/Scripts/CriticalityStimulator.cs`): the abstract `StimulationWaveformHelper`,
its square-wave subclass `StimulationWaveformHelper_SquareWave` and the 40 Hz profile
`StimulationFunction_40Hz`.

The host pushes in the current time on every frame through `updateStimulation(current_time)`.
On the first poll the helper latches a start time; 0 means "not started yet". It then
computes the elapsed time and the fraction of the current LOW+HIGH cycle that has passed,
cutting off whole cycles with C#'s `(int)` cast, which truncates toward zero. It maps that
fraction to LOW or HIGH with `getState`, where the boundary at the LOW duration belongs to
HIGH. When the state differs from the stored one, it switches, stamps the transition time,
counts the transition and returns `true`; otherwise it returns `false` and changes nothing
more. Read-only views give the cycle length, the current state's duration and level, the
number of completed cycles ("expected transitions") and the missed-transition counter.

Layout:

- `waveform.dfy`, module `SquareWave`: the two states, the waveform geometry, `(int)`
  truncation, the fraction of the cycle, `getState`, and the state at an elapsed time. It
  also holds an independent description of the LOW windows `[k*T, k*T + LOW)`, periodicity,
  and the ideal count of state changes.
- `tracker.dfy`, module `Tracking`: the helper's fields as one `Tracker` value, the views,
  the poll as a function `UpdateStimulation`, replay of a session of polls, and the invariant
  `Consistent` that every session with non-decreasing times keeps.
- `helper.dfy`, module `Stimulation`: the class `SquareWaveHelper` with the source's fields.
  It has the two constructors (durations given; 40 Hz) and the methods `UpdateStimulation`
  and `UpdateStimulationLevel`. Each method is proved against the `Tracking` function of its
  `Snapshot()`.
- `scenarios.dfy`, module `Scenarios`: concrete 40 Hz sessions.

Arithmetic is over `real`. A time of 0 is the "not started" marker, as in the code. A session
whose first poll is at time 0 therefore latches its start only at the second poll
(`Scenarios.ZeroStartRelatches`). An explicit "unset" marker in place of the 0 sentinel
would report the change at 12.5 ms in that session. The model follows the code.

## Model

| member | source | states |
|---|---|---|
| `SquareWave.TruncateToInt` | Assets/Scripts/CriticalityStimulator.cs:129 | `(int)` keeps the integer part: for x >= 0 it is the largest integer not above x; for x < 0 it is the smallest integer not below x (toward zero, not floor) |
| `SquareWave.Waveform.TotalCycleDuration` | Assets/Scripts/CriticalityStimulator.cs:33-37 | with positive durations the cycle is positive and longer than either state |
| `SquareWave.Waveform.DurationOf` | Assets/Scripts/CriticalityStimulator.cs:40-56 | a state's duration is one of the two configured durations, and it is positive and shorter than the cycle |
| `SquareWave.Waveform.ValueOf` | Assets/Scripts/CriticalityStimulator.cs:58-74 | a state's level is always one of the two configured levels, never anything else |
| `SquareWave.Waveform.ElapsedCycles` | Assets/Scripts/CriticalityStimulator.cs:128 | the elapsed cycle count times the cycle length gives back the elapsed time; it is non-negative exactly when the elapsed time is |
| `SquareWave.Waveform.FractionalCycleOffset` | Assets/Scripts/CriticalityStimulator.cs:128-131 | the fraction of the cycle lies in [0, 1) for a non-negative elapsed time and in (-1, 0] for a negative one |
| `SquareWave.Waveform.CompletedCycles` | Assets/Scripts/CriticalityStimulator.cs:77-82 | for t >= 0, n*T <= t < (n+1)*T with n >= 0; for t < 0, (n-1)*T < t <= n*T with n <= 0 |
| `SquareWave.Waveform.GetState` | Assets/Scripts/CriticalityStimulator.cs:91-102 | with positive durations, the state is LOW exactly when the cycle fraction is below the LOW share of the cycle (LOW duration / total), and HIGH from that share on |
| `SquareWave.Waveform.StateAt` | Assets/Scripts/CriticalityStimulator.cs:126-133 | for a non-negative elapsed time, the state is LOW exactly when less than the LOW duration has passed since the start of the current cycle |
| `SquareWave.GetStateHalfOpen` | Assets/Scripts/CriticalityStimulator.cs:91-102 | LOW exactly on cycle offsets in [0, LOW), HIGH exactly on [LOW, total); a cycle starts LOW and the LOW/HIGH boundary itself is HIGH |
| `SquareWave.CycleTimeOffset` | Assets/Scripts/CriticalityStimulator.cs:94 | the cycle time offset is the elapsed time minus the start time of the current cycle (completed cycles times the cycle length), and lies in [0, total) |
| `SquareWave.CompletedCyclesUnique` | Assets/Scripts/CriticalityStimulator.cs:77-82 | if t lies in [k*T, (k+1)*T), then k is the completed-cycle count |
| `SquareWave.CompletedCyclesMonotone` | Assets/Scripts/CriticalityStimulator.cs:77-82 | a later non-negative time has completed at least as many cycles |
| `SquareWave.CompletedCyclesShift` | Assets/Scripts/CriticalityStimulator.cs:77-82 | a delay of k whole cycles adds exactly k to the completed-cycle count |
| `SquareWave.StateInCycle` | Assets/Scripts/CriticalityStimulator.cs:126-133 | inside cycle k the wave is LOW exactly while less than the LOW duration has passed since the cycle began |
| `SquareWave.SameCycleStaysHigh` | Assets/Scripts/CriticalityStimulator.cs:91-102 | within one cycle, a wave that has turned HIGH is still HIGH at any later time |
| `SquareWave.StateAtLowWindows` | Assets/Scripts/CriticalityStimulator.cs:126-133 | the computed state is LOW exactly when the elapsed time lies in the LOW window [k*T, k*T + LOW) of some cycle k, and HIGH otherwise |
| `SquareWave.StateAtPeriodic` | Assets/Scripts/CriticalityStimulator.cs:126-133 | one cycle later the state is the same |
| `SquareWave.StateAtShiftStep` | Assets/Scripts/CriticalityStimulator.cs:126-133 | delaying by k cycles gives the same state as delaying by k-1 |
| `SquareWave.StateAtShift` | Assets/Scripts/CriticalityStimulator.cs:126-133 | delaying by any whole number of cycles gives the same state |
| `SquareWave.BoundariesCrossed` | Assets/Scripts/CriticalityStimulator.cs:84-90 | the ideal number of state changes is non-negative, and it is even exactly when the wave is LOW |
| `SquareWave.BoundariesMonotone` | Assets/Scripts/CriticalityStimulator.cs:84-90 | a later time has crossed at least as many state changes |
| `Tracking.Tracker.CurrentStateDuration` | Assets/Scripts/CriticalityStimulator.cs:40-56 | LOW duration when LOW, HIGH duration when HIGH; positive and shorter than the cycle |
| `Tracking.Tracker.CurrentStateValue` | Assets/Scripts/CriticalityStimulator.cs:58-74 | LOW value when LOW, HIGH value when HIGH |
| `Tracking.Tracker.NumberExpectedTransitions` | Assets/Scripts/CriticalityStimulator.cs:77-82 | for a non-negative elapsed time, the number of whole cycles elapsed |
| `Tracking.Tracker.NumberMissedTransitions` | Assets/Scripts/CriticalityStimulator.cs:86-90 | expected minus observed transitions, as written, with no floor at zero |
| `Tracking.Tracker.UpdateStimulation` | Assets/Scripts/CriticalityStimulator.cs:118-146 | a latched start time never changes and an unlatched one becomes the poll time; elapsed = time - start; the stored state is the state of the computed phase; the result is true iff the state changed; on true the counter rises by one and the transition time is the poll time; on false the state, counter and transition time are unchanged; the geometry never changes |
| `Tracking.Tracker.IntendedMissedTransitions` | Assets/Scripts/CriticalityStimulator.cs:86-90 | the corrected counter: ideal state changes minus observed ones; non-negative and even on every consistent tracker |
| `Tracking.Initial` | Assets/Scripts/CriticalityStimulator.cs:105-109 | HIGH duration = on, LOW duration = off, levels 1 and 0, start and elapsed 0, state LOW, transition time 0, nothing observed |
| `Tracking.Stimulation40Hz` | Assets/Scripts/CriticalityStimulator.cs:164 | both durations are 0.0125 s, so the cycle is 0.025 s (40 Hz) |
| `Tracking.Replay` | Assets/Scripts/CriticalityStimulator.cs:118-146 | a session of polls never changes the geometry |
| `Tracking.InitialConsistent` | Assets/Scripts/CriticalityStimulator.cs:105-109 | a fresh helper with positive durations satisfies the invariant |
| `Tracking.UpdatePreservesConsistent` | Assets/Scripts/CriticalityStimulator.cs:118-146 | a poll not earlier than the last one keeps the invariant: the stored state is the phase-correct one, and the observed count never exceeds the ideal count and has the same parity |
| `Tracking.ReplayConsistent` | Assets/Scripts/CriticalityStimulator.cs:118-146 | a session of non-decreasing polls keeps the invariant |
| `Tracking.SessionKeepsPhaseAndCounts` | Assets/Scripts/CriticalityStimulator.cs:118-146 | from construction, after any non-decreasing session, the state is the phase-correct one, the elapsed time is non-negative and the corrected missed count is non-negative and even |
| `Tracking.AsWrittenMissedUndercounts` | Assets/Scripts/CriticalityStimulator.cs:77-90 | the counter as written equals the corrected one minus the completed cycles, minus one in the HIGH half; so it is negative whenever every change was seen and at least one happened |
| `Tracking.SameStateNoChange` | Assets/Scripts/CriticalityStimulator.cs:121-146 | two polls whose elapsed times, measured from the start the first one leaves latched (its own time on a fresh tracker), map to the same state: the second returns false and the emitted level is the same after both |
| `Tracking.SparsePollPhaseCorrect` | Assets/Scripts/CriticalityStimulator.cs:126-133 | a poll any whole number of cycles late lands on the phase-correct state and level; there is no drift from skipped polls |
| `Tracking.SparsePollCounts` | Assets/Scripts/CriticalityStimulator.cs:77-146 | a poll exactly k whole cycles after the last one reports no change; the counter as written grows by k and the corrected counter by 2k, so a gap shows up as missed transitions |
| `Stimulation.SquareWaveHelper.constructor` | Assets/Scripts/CriticalityStimulator.cs:105-109 | the new object's fields are the fresh tracker for the given on/off durations |
| `Stimulation.SquareWaveHelper.Make40Hz` | Assets/Scripts/CriticalityStimulator.cs:161-164 | the new object is the 40 Hz profile and satisfies the invariant |
| `Stimulation.SquareWaveHelper.UpdateStimulationLevel` | Assets/Scripts/CriticalityStimulator.cs:112-116 | returns the HIGH value when HIGH and the LOW value when LOW, and modifies nothing |
| `Stimulation.SquareWaveHelper.UpdateStimulation` | Assets/Scripts/CriticalityStimulator.cs:118-146 | the new fields and the result are those of `Tracking.Tracker.UpdateStimulation`; a consistent object polled at a time not before its last poll stays consistent |
| `Scenarios.FortyHertzStates` | Assets/Scripts/CriticalityStimulator.cs:161-164 | the 40 Hz wave is LOW at 0 and 7.5 ms, HIGH at 12.5 and 20 ms, and LOW again at 25 and 30 ms |
| `Scenarios.FortyHertzSession` | Assets/Scripts/CriticalityStimulator.cs:118-146 | 40 Hz, polls at 1.0, 1.0125, 1.02 and 1.025 s: no change at level 0, change to level 1, no change, change to level 0; two transitions observed |
| `Scenarios.ZeroStartRelatches` | Assets/Scripts/CriticalityStimulator.cs:121-123 | 40 Hz, polls at 0, 0.0125, 0.02 and 0.025 s: the start is latched at 0.0125, so there are three polls without change at level 0, then a change to level 1 |
| `Scenarios.AsWrittenMissedCountNegative` | Assets/Scripts/CriticalityStimulator.cs:77-90 | 40 Hz polls at 1.0, 1.0125 and 1.03 s see both changes of the first cycle; the counter as written then reads -1 and the corrected one reads 0 |

## Findings

| source | as written | input that shows it | evidently intended | confidence | as-written member | corrected member |
|---|---|---|---|---|---|---|
| Assets/Scripts/CriticalityStimulator.cs:77-90 | `number_expected_transitions` is `(int)(elapsed / total)`, the number of whole cycles. It is compared with the number of observed state changes, and a square wave changes state twice per cycle | 40 Hz helper polled at 1.0, 1.0125 and 1.03 s (the last poll 5 ms into the second cycle, far from any boundary even in `float`): both changes are seen, yet `number_missed_transitions` reads -1 | expected transitions = two per completed cycle, plus one once the cycle is in its HIGH half; the missed count is then never negative under non-decreasing polls | medium; not executed | `Scenarios.AsWrittenMissedCountNegative` | `Tracking.Tracker.IntendedMissedTransitions` |

## Left out

- Floating point: durations, times and levels are `real`. IEEE `float` rounding near cycle boundaries is not modelled.
- Non-positive durations: the constructor stores them unchecked, as in the code. Every member that divides by the cycle length requires both durations to be positive. With a zero cycle, C# `float` division gives infinity or NaN, which `real` cannot express.
- Integer width: `(int)` of a cycle count beyond the 32-bit range, and wrap-around of the transition counter, are not modelled; both are unbounded integers here.
- The class hierarchy is flattened. The abstract base's two fields (start time, elapsed time) are fields of `SquareWaveHelper`. The 40 Hz subclass is its second constructor `Make40Hz`.
- The read-only views (cycle length, current state duration and value, expected and missed counts) are members of the `Tracker` value that `SquareWaveHelper.Snapshot()` returns. They are not repeated as members of the class.
- The `default:` branches of the two switches, with `Debug.LogError`: the two-valued state type cannot reach them.
- The commented-out incremental logic at the end of `updateStimulation`.
- The empty `StimulationTracker` class, the `CriticalityStimulator` MonoBehaviour with its UI, colours, text, `Time.time` and audio toggles, and the `FadeCanvas`/`FadeThenShowButtons` coroutines: host and UI plumbing. The host's clock is the `currentTime` parameter.
- Tracking.ReplayConsistent: proved only for non-decreasing poll times. The code accepts any time, and the model computes the same (possibly negative) elapsed time and phase for it, but the counting invariant is not claimed for time that goes backwards.
