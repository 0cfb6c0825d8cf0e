# Sensor daemons: protocols and arithmetic, modelled and proved

The repository is a set of single-threaded reactor daemons that publish sensors on D-Bus. This
project models the parts of them that are protocols or arithmetic: threshold alarms with delayed
low events, the re-entrant value and availability setters, two leak detectors, the reaper of
external sensors, fan airflow and exit-air averaging, a TCP port forwarder, the configuration
fetch, device names, the SDR repository walk and fan redundancy.

How the models are built:

- Each object whose methods change its fields is a class. Its methods keep the branches, the order
  of assignments and the loops of the C++ code. The `ensures` clause of each method equates the new
  state with a function of the old state, and the theorems are about runs of those functions over
  every sequence of events.
- The event loop is the environment. A timer is the list of waits or handlers that are still owed
  a call; cancelling one does not remove a handler that is already queued. D-Bus replies, readings,
  clocks and error codes are parameters of the events.
- `set_property` on a property with a registered setter is a call of that setter.
- A `double` is a real number or NaN; comparisons with NaN are false. Fixed-width counters wrap
  where the source's do.

## What is proved

**Thresholds** (`Thresholds.dfy`, `SchmittTrigger.dfy`, `TimerPool.dfy`, `ThresholdRuns.dfy`,
`ThresholdSteps.dfy`). The
undelayed check is a Schmitt trigger with a closed form, and it cannot chatter: the hysteresis
bands of its signals fit into the total variation of the readings. The engine that delays low
alarms by five seconds agrees with it on every clean run once its timers have drained, and it can
always drain. The timer list is a sound pool whose length is the peak of simultaneous waits, for any
thresholds, times and handler order. What one reading, one handler and a power loss do to one alarm,
its waits and its signals is stated step by step. A reading is what the sensor remembers at the
moment of the check.

**Sensor value** (`SensorValue.dfy`, `SensorEffects.dfy`). `updateValue`, `markAvailable`, the Available setter and
`markFunctional` call each other; they terminate and each equals a one-pass function. The
published value never drifts from the reading by more than the publish hysteresis (not negative when
the maximum is at least the minimum, `src/sensor.hpp:90`). It stands for the reading in all cases
but one: a NaN reading leaves the old number published when a threshold was written while that number
was published and no value has been stored since. What every operation leaves of the alarms, the
availability, the functional state and the error count is stated in terms of the value and the
thresholds' lines.

**Leak shutdown** (`DiscreteLeak.dfy`, `LeakShutdownSafety.dfy`, `LeakShutdownEffects.dfy`). Over every interleaving at most
one handler carries the current generation, every transition request is demanded by a present leak
and a loaded policy, and each arming issues at most one. The other half holds as well: an arming
requests the transition its policy names, at once or when its wait has run for the policy's whole
seconds. The generation is a 64-bit counter, so this
is not true of every run: a run is safe in all its states if and only if no outstanding handler
ever lags the number of advances by a positive multiple of 2^64, which takes at least 2^64 steps.
In a run of any length, a transition that no leak demands is requested exactly when such a handler,
having succeeded, runs while the level is normal and the policy triggers. `WrapRevivesStaleHandler`
gives such a run: a handler whose wait expired before it was cancelled stays queued until its
generation comes round. The run exists only because queued handlers run in any order in the model; an
event queue that is first in, first out runs this handler before anything queued later.

**Debounced leak detector** (`LeakDetect.dfy`). LEAKAGE is reported exactly when three
below-threshold values in a row have been evaluated while healthy. The comment at
`src/LeakDetectSensor.cpp:285-286` speaks of three consecutive readings; the code does not
evaluate a reading that equals the previous one, and the model follows the code.
`ConsecutiveLeakReadings` gives the exact condition and `SteadyLeakIsMissed` the input.

**Reaper** (`Reaper.dfy`, `ReaperRuns.dfy`). While a live perishable sensor exists, the shared timer
is armed no later than its deadline or a handler is already queued. A sweep is exact: none
expires early and none survives its deadline. A wait that ends with an error other than its
cancellation is not re-armed (`src/external/ExternalSensorMain.cpp:128-138`); the model says exactly
when that leaves a sensor unwatched.

**Airflow and exit air** (`Airflow.dfy`, `AirflowCap.dfy`, `AirflowCurve.dfy`, `ExitAir.dfy`,
`ExitAirLaws.dfy`). The curve and the exit temperature are pinned by their end points and the straight
lines between them. The duty search inverts
the interpolated fan curve unless `TachMinPercent` equals `TachMaxPercent` at an integer duty, where
the curve is 0/0. Keeping to its answer honours the airflow limit for any number of tachs if and only
if the two percentages differ, or are both 0, or are above the answer (or there are no tachs);
`LimitIsExceeded` gives a fan below the answer that exceeds the limit fourfold. The exponential
average stays between two readings averaged since the object was last replaced, at every moment of a
run with any number of replacements, if and only if the first reading averaged after each
replacement is 0 or has weight 1: `firstRead` is static while the average is a member, so a replaced
object starts from 0. `ReplacementLeavesHull` gives a run. A NaN airflow passes every check and
makes the average NaN until the object is replaced; a fan exactly on the 0/0 of the curve is enough.

**Forwarder** (`Relay.dfy`, `Forwarder.dfy`, `PortList.dfy`). The relay loses, repeats and reorders
nothing; the shutdown loop ends because every listed session is tracked and not stopped; the port
list has a canonical form.

**Configuration fetch** (`ConfigFetch.dfy`, `ConfigFetchRuns.dfy`). The callback runs exactly once
with precisely the answered pairs. In the mapper's reply an object without owners ends the scan of
the whole reply (`src/Utils.hpp:371-374`). A mapper retry passes names that already carry the
configuration prefix to `getConfiguration`, which prefixes them again (`src/Utils.hpp:331-336`,
`src/Utils.hpp:361-364`): what the caller asked for is requested if and only if no mapper retry has
run. The fan daemon asks for such retries (`src/fan/FanMain.cpp:719-720`).

**SDR walk** (`SdrFetch.dfy`). Records are read with Get SDR (section 33.12 of the IPMI v2.0
specification). The 8-bit offset never wraps, and a record count of 0 makes the walk read 65536
records. The length test counts the two id bytes that every response repeats, so a record can be
closed before all of it has been read; `RecordFromDevice` says exactly when.

**Names and redundancy** (`Digits.dfy`, `DeviceNames.dfy`, `Redundancy.dfy`). Names round-trip. The
redundancy state is decided by the latest reports despite the early exit.

## Model

| member | source | states |
|---|---|---|
| Thresholds.CollectChanges | src/Thresholds.cpp:253-336 | the loop produces one change per threshold that has a verdict on the reading, in threshold order |
| Thresholds.ChangesAreVerdicts | src/Thresholds.cpp:253-336 | a change is listed for a threshold exactly when the reading crosses it or passes back beyond the hysteresis band, never in between |
| Thresholds.ThresholdEngine.HasActiveTimer | src/Thresholds.hpp:78-93 | true exactly when some used slot records this level, direction and assertion |
| Thresholds.ThresholdEngine.StartWait | src/Thresholds.cpp:338-365 | the first free slot, or a new one at the end, takes the event; one wait of five seconds is added |
| Thresholds.ThresholdEngine.AssertThresholds | src/Thresholds.cpp:457-494 | only a registered alarm whose value differs changes, and it signals once |
| Thresholds.ThresholdEngine.CheckThresholds | src/Thresholds.cpp:392-408 | all changes are applied at once; false exactly when a critical threshold is crossed |
| Thresholds.ThresholdEngine.CheckThresholdsPowerDelay | src/Thresholds.cpp:411-455 | low asserts wait, low de-asserts wait only behind a pending assert; false exactly when a critical high threshold is crossed |
| Thresholds.ThresholdEngine.OnTimer | src/Thresholds.cpp:364-389 | the slot is freed in any case; the alarm moves only on a clean expiry while power is good |
| SchmittTrigger.AlarmClosedForm | src/Thresholds.cpp:253-336 | after any run the alarm is up exactly when some reading crossed the threshold and no later one passed back beyond the band |
| SchmittTrigger.ChatterBound | src/Thresholds.cpp:253-336 | with k change signals, (k-1) times the hysteresis is at most the total variation of the readings |
| SchmittTrigger.ImmediateReading | src/Thresholds.cpp:392-408 | one undelayed check moves each alarm to its own verdict and signals exactly if it changed |
| SchmittTrigger.ImmediateRunIsTrigger | src/Thresholds.cpp:392-408 | over a whole run every alarm is its own trigger, with one signal per change |
| TimerPool.StartTimerKeepsPool | src/Thresholds.cpp:338-365 | starting a wait keeps the pool sound, leaves every live wait its slot, and grows the list only when all slots are in use |
| TimerPool.ExpireKeepsPool | src/Thresholds.cpp:364-389 | a handler frees its own slot, no other, and the pool stays sound |
| TimerPool.HasActiveIsOutstanding | src/Thresholds.hpp:63-93 | the lookup answers exactly for the outstanding waits |
| ThresholdRuns.PoolOverRuns | src/Thresholds.cpp:338-390 | for any thresholds, reading times and handler order, slots and waits correspond one to one in every state, and the list length is the peak number of simultaneous waits so far |
| ThresholdRuns.ApplyMovesEventual | src/Thresholds.cpp:424-453 | a change moves where its own alarm ends up, and no other: an immediate de-assert can overtake only pending de-asserts |
| ThresholdRuns.DelayedAgrees | src/Thresholds.cpp:411-455 | at any moment of a clean run, the alarm that will show once the waits are handled is the undelayed trigger's |
| ThresholdRuns.DrainedAgrees | src/Thresholds.cpp:411-455 | once the timers have drained, every alarm equals the one of the undelayed engine fed with the same readings |
| ThresholdRuns.CanDrain | src/Thresholds.cpp:338-390 | from every state with a sound pool the event loop can drain the waits, each when it is due, with one handler per wait |
| ThresholdRuns.WaitsAreCaused | src/Thresholds.cpp:411-455 | every outstanding wait comes from a reading exactly five seconds before its deadline that had that verdict |
| ThresholdRuns.LowAlarmsAreOldEnough | src/Thresholds.cpp:424-446 | a low alarm goes up only in a clean handler while power is good, at least five seconds after a reading at or below the threshold |
| ThresholdSteps.ReadingAnswers | src/Thresholds.cpp:411-455 | what one reading does to one alarm: between the lines nothing; a high alarm moves at once; a crossed low alarm starts a wait of five seconds; a low alarm passed back beyond its band comes down at once, unless an assert wait is outstanding, when it stays and a de-assert wait is started; each change is signalled once with the reading |
| ThresholdSteps.ReadingInRun | src/Thresholds.cpp:411-455 | the same at every moment of every run |
| ThresholdSteps.HandlerAnswers | src/Thresholds.cpp:364-389 | a handler takes its own wait away and sets its own alarm on a clean expiry with power good; every other alarm stays |
| ThresholdSteps.PowerLossAnswers | src/sensor.hpp:506-513 | losing power takes every alarm of a threshold down, signals each change and leaves the waits alone |
| SensorValue.SensorObject.SetSensorValue | src/sensor.hpp:240-267 | an external set overrides, checks thresholds and then calls the hook once; an internal one publishes unless overridden; a forbidden one changes nothing |
| SensorValue.SensorObject.ThresholdSetter | src/sensor.hpp:318-336 | the new limit is kept, and the remembered value is forgotten while the published one stays |
| SensorValue.SensorObject.AvailableSetter | src/sensor.hpp:376-388 | an unchanged value does nothing; becoming unavailable re-enters the update with NaN; terminates |
| SensorValue.SensorObject.MarkAvailable | src/sensor.hpp:463-470 | sets the property through its setter and resets the error count |
| SensorValue.SensorObject.MarkFunctional | src/sensor.hpp:447-461 | functional resets the error count, not functional updates the value to NaN |
| SensorValue.SensorObject.IncrementError | src/sensor.hpp:472-491 | in bad power errors make the sensor unavailable; the fifth error in good power makes it not functional |
| SensorValue.SensorObject.UpdateValue | src/sensor.hpp:498-546 | the mutual recursion terminates and has the effect of one pass: update, check and mark, or in bad power clear all alarms and forget the value |
| SensorValue.SensorObject.UpdateValueProperty | src/sensor.hpp:548-574 | remembers and publishes the value exactly when it differs by more than the publish hysteresis or in being NaN |
| SensorValue.ClearedStays | src/sensor.hpp:506-516 | clearing the alarms again, as the re-entrant path does, changes no alarm and sends no signal |
| SensorValue.BadUpdateReentered | src/sensor.hpp:506-516 | after the update has re-entered itself through the Available setter, its remaining steps add nothing |
| SensorValue.RunsStaySound | src/sensor.hpp:320-336 | over every run the remembered value is the published one or forgotten, and the error count stays at most five |
| SensorValue.PublishedRepresentsReading | src/sensor.hpp:498-574 | after any run, an update in good power leaves the published value NaN exactly when the reading is and otherwise within the hysteresis of it, if and only if it is not a NaN reading after a threshold write over a published number with nothing stored since |
| SensorValue.StaleIffThresholdWrittenLast | src/sensor.hpp:320-336 | the histories after which the remembered value is gone and a number is still published are exactly those with such a threshold write |
| SensorValue.StaleNumberStaysPublished | src/sensor.hpp:320-336 | the three steps that leave a number published for a NaN reading |
| SensorValue.UpdateInBadPower | src/sensor.hpp:506-516 | the sensor becomes unavailable, every alarm is down, and a second such update changes nothing |
| SensorEffects.GoodUpdateEffect | src/sensor.hpp:518-531 | after an update in good power each registered alarm is up if the remembered value crosses its threshold, down beyond the band, and otherwise as before; the value is stored exactly when it differs enough |
| SensorEffects.GoodUpdateMarks | src/sensor.hpp:527-531 | a number makes the sensor functional and available and forgets its errors; NaN leaves all three |
| SensorEffects.BadUpdateMarks | src/sensor.hpp:506-516 | in bad power nothing is remembered or published and the sensor is unavailable; the functional state stays |
| SensorEffects.ReadingsAreTrigger | src/sensor.hpp:518-526 | over any run of readings each alarm is the trigger of the remembered values |
| SensorEffects.FifthError | src/sensor.hpp:472-491 | four consecutive errors only count, the fifth makes the sensor not functional and forgets its value, more change nothing |
| SensorEffects.ErrorInBadPower | src/sensor.hpp:474-478 | in bad power the first error makes the sensor unavailable and none is counted |
| SensorEffects.MarkedAvailableEffect | src/sensor.hpp:463-470 | marking available sets the property and forgets errors, and nothing else |
| SensorEffects.MarkedUnavailableEffect | src/sensor.hpp:463-470 | marking unavailable forgets the value unless it was unavailable or is overridden |
| SensorEffects.MarkedFunctionalEffect | src/sensor.hpp:447-461 | functional forgets errors, not functional forgets the value |
| SensorEffects.ExternalSetEffect | src/sensor.hpp:240-261 | a client's value is stored as it is, overrides, and decides each alarm |
| SensorEffects.OverrideHolds | src/sensor.hpp:500-504 | while overridden no update reaches the value, the alarms or the marks |
| SensorEffects.ThresholdWrittenEffect | src/sensor.hpp:320-329 | a written limit replaces the old one alone, and the value is forgotten |
| DiscreteLeak.DiscreteLeakDetectSensor.GetLeakInfo | src/DiscreteLeakDetectSensor.cpp:211-252 | the level follows the reading; only a change cancels or arms a shutdown |
| DiscreteLeak.DiscreteLeakDetectSensor.CancelTimer | src/DiscreteLeakDetectSensor.cpp:402-416 | a running wait completes as aborted; a handler that is already queued keeps its outcome |
| DiscreteLeak.DiscreteLeakDetectSensor.CancelPendingShutdown | src/DiscreteLeakDetectSensor.cpp:402-407 | a new generation, the timer no longer counts as started, running waits aborted and queued handlers kept |
| DiscreteLeak.DiscreteLeakDetectSensor.BeginShutdown | src/DiscreteLeakDetectSensor.cpp:409-470 | a new generation with either one handler after the effective delay or an immediate request |
| DiscreteLeak.DiscreteLeakDetectSensor.OnShutdownTimer | src/DiscreteLeakDetectSensor.cpp:430-460 | a handler of an old generation does nothing; the current one ends the wait and requests a transition only on success |
| DiscreteLeak.DiscreteLeakDetectSensor.ExecuteShutdown | src/DiscreteLeakDetectSensor.cpp:472-525 | requests host or chassis off by the reaction type, and nothing unless the policy asks for it |
| DiscreteLeak.DiscreteLeakDetectSensor.BindLeakPolicy | src/DiscreteLeakDetectSensor.cpp:596-607 | a new binding cancels the pending shutdown and forgets that properties were loaded |
| DiscreteLeak.DiscreteLeakDetectSensor.ApplyPolicyConfigMap | src/DiscreteLeakDetectSensor.cpp:638-702 | missing fields keep their value, a bad delay becomes 0; then a shutdown is armed or cancelled |
| DiscreteLeak.DiscreteLeakDetectSensor.EffectiveShutdownDelaySeconds | src/DiscreteLeakDetectSensor.cpp:742-760 | 0 without policy or for a bad delay, else whole seconds capped at the largest unsigned int |
| DiscreteLeak.LeakPolicyScan | src/DiscreteLeakDetectSensor.cpp:554-594 | binds the first row with a service that answers with this detector's name, and none if no row does |
| LeakShutdownSafety.SafeUnlessLagging | src/DiscreteLeakDetectSensor.cpp:402-470 | in every state of a run at most one handler carries the current generation, one does exactly while the timer counts as started, and then a shutdown is demanded: if and only if no outstanding handler ever lags by a positive multiple of 2^64 |
| LeakShutdownSafety.ShortRunsNeverLag | src/DiscreteLeakDetectSensor.cpp:417-442 | in fewer than 2^64 steps no handler lags |
| LeakShutdownSafety.AlwaysSafe | src/DiscreteLeakDetectSensor.cpp:402-470 | every run of fewer than 2^64 steps is safe throughout |
| LeakShutdownSafety.ShutdownsAreDemanded | src/DiscreteLeakDetectSensor.cpp:409-525 | every requested transition happens with a leak present and a loaded policy that asks for it, immediately or in the current handler after its deadline |
| LeakShutdownSafety.UndemandedIffLagging | src/DiscreteLeakDetectSensor.cpp:430-525 | in a run of any length a transition that no leak demands is requested exactly when a lagging handler that succeeded runs while the level is normal and the policy triggers |
| LeakShutdownSafety.OneShutdownPerArming | src/DiscreteLeakDetectSensor.cpp:409-470 | requests issued plus the one pending never exceed the armings |
| LeakShutdownSafety.TimedShutdownSawLeakThroughout | src/DiscreteLeakDetectSensor.cpp:409-470 | a timed shutdown was armed at least the effective delay before, and was demanded at every moment since |
| LeakShutdownSafety.WrapRevivesStaleHandler | src/DiscreteLeakDetectSensor.cpp:417-442 | a run of 2^64 + 3 steps in which a handler that expired before it was cancelled carries the current generation again and shuts the host down without a leak |
| LeakShutdownEffects.LeakAppears | src/DiscreteLeakDetectSensor.cpp:243-247 | a leak that appears under a policy that asks for a shutdown requests the named transition at once if the delay is bad or below one second, and otherwise leaves one running wait for the whole seconds of the delay |
| LeakShutdownEffects.OtherPolls | src/DiscreteLeakDetectSensor.cpp:211-252 | a leak that goes away ends the pending shutdown; any other poll changes nothing but the level |
| LeakShutdownEffects.ReplyEffect | src/DiscreteLeakDetectSensor.cpp:638-702 | a reply takes over the fields it has; with a leak present and a reaction asked for it arms anew, otherwise it ends the pending shutdown |
| LeakShutdownEffects.BindingEffect | src/DiscreteLeakDetectSensor.cpp:596-607 | a new binding ends the pending shutdown and unloads the policy |
| LeakShutdownEffects.HandlerEffect | src/DiscreteLeakDetectSensor.cpp:430-460 | a handler of an old generation does nothing; the current one ends the wait and requests exactly one transition if it succeeded while the policy asks |
| LeakShutdownEffects.CurrentHandlerShuts | src/DiscreteLeakDetectSensor.cpp:439-460 | in a run that never lags the current handler that succeeded requests exactly one transition, with a leak present |
| LeakShutdownEffects.ArmedHandlerIsCurrent | src/DiscreteLeakDetectSensor.cpp:416-442 | the handler of an armed wait is the one and only current one |
| LeakShutdownEffects.ArmedTimerShuts | src/DiscreteLeakDetectSensor.cpp:409-460 | when an armed wait expires and its handler runs, the transition of its policy is requested once |
| LeakDetect.LeakDetectSensor.constructor | src/LeakDetectSensor.cpp:218-229 | without a device the detector starts in the fault state and logs it |
| LeakDetect.LeakDetectSensor.SetDetectorState | src/LeakDetectSensor.cpp:399-436 | only a change acts: leakage logs and may start a shutdown, a fault logs |
| LeakDetect.LeakDetectSensor.DetermineDetectorState | src/LeakDetectSensor.cpp:273-314 | the debounced state change for one evaluated value |
| LeakDetect.LeakDetectSensor.ValueSetter | src/LeakDetectSensor.cpp:88-102 | a client's write overrides the sensor for good; the held value is evaluated in any case |
| LeakDetect.LeakDetectSensor.HandleResponse | src/LeakDetectSensor.cpp:377-384 | a reading equal to the held value is not evaluated; NaN always is |
| LeakDetect.LeakIsThreeInARow | src/LeakDetectSensor.cpp:273-314 | over any run LEAKAGE is entered exactly when three in-range values below the threshold were evaluated in a row while healthy, faults neither counting nor resetting; log and shutdown happen once |
| LeakDetect.LeakIsLatched | src/LeakDetectSensor.cpp:306-310 | LEAKAGE is never left and is not logged again |
| LeakDetect.LogsAreEntries | src/LeakDetectSensor.cpp:399-436 | a fault or a leak is logged exactly when its state is entered, and a shutdown started with the leak if configured |
| LeakDetect.NaNIsEvaluated | src/LeakDetectSensor.cpp:377-384 | a healthy sensor is at fault after its first NaN, also if the value already was NaN |
| LeakDetect.ClientValueHolds | src/LeakDetectSensor.cpp:88-102 | a value written by a client holds for good; without one the held value follows the readings |
| LeakDetect.ConsecutiveLeakReadings | src/LeakDetectSensor.cpp:285-290 | readings that all show a leak lead to LEAKAGE exactly when enough of them differ from their predecessor |
| LeakDetect.SteadyLeakIsMissed | src/LeakDetectSensor.cpp:377-384 | any number of identical leaking readings never reports the leak |
| Reaper.ExternalSensor.IsAliveAndFresh | src/external/ExternalSensor.cpp:128-140 | alive, perishable and before its deadline |
| Reaper.ExternalSensor.AgeRemaining | src/external/ExternalSensor.cpp:180-185 | the time from now to the deadline |
| Reaper.ExternalSensor.WriteBegin | src/external/ExternalSensor.cpp:142-154 | the write time is renewed and the sensor is alive |
| Reaper.ExternalSensor.WriteInvalidate | src/external/ExternalSensor.cpp:156-171 | dead, no longer overridden, and the inherited part updated to NaN with its publishing, alarms and availability |
| Reaper.ExternalSensor.ExternalSetTrigger | src/external/ExternalSensor.cpp:187-199 | a finite value marks the sensor available; then the write time is renewed |
| Reaper.ExternalDaemon.ReapStale | src/external/ExternalSensorMain.cpp:68-86 | the first pass reaps every stale sensor and leaves the others as they are |
| Reaper.ExternalDaemon.NextCheck | src/external/ExternalSensorMain.cpp:88-116 | finds the interval to the earliest deadline exactly when a live perishable sensor exists |
| Reaper.ExternalDaemon.Update | src/external/ExternalSensorMain.cpp:62-141 | both passes and the re-arming of the shared timer |
| Reaper.ExternalDaemon.WaitFails | src/external/ExternalSensorMain.cpp:128-138 | a wait that ends with an error is not re-armed and sweeps nothing |
| Reaper.ExternalDaemon.ExternalSet | src/external/ExternalSensor.cpp:187-203 | the client's value is set, the sensor marked available and renewed before the sweep this triggers |
| Reaper.ExternalDaemon.Replace | src/external/ExternalSensorMain.cpp:306-318 | the new object is not alive, the timer is not touched |
| ReaperRuns.SweepIsExact | src/external/ExternalSensorMain.cpp:62-141 | a sweep invalidates precisely the live perishable sensors whose age has reached the timeout, forgetting their value and override, leaves all others as they are, and arms the timer for exactly the earliest remaining deadline |
| ReaperRuns.AlwaysWatched | src/external/ExternalSensorMain.cpp:62-141 | over every run each live perishable sensor has the timer armed no later than its deadline or a handler queued, if and only if not the wait has failed since the last sweep with nothing queued and such a sensor present |
| ReaperRuns.LostTimerKeepsDeadAlive | src/external/ExternalSensorMain.cpp:128-138 | after a failed wait any time can pass with the sensor still alive |
| ReaperRuns.NoneOutlivesItsDeadline | src/external/ExternalSensorMain.cpp:125-141 | whenever the event loop has caught up and no wait has failed since the last sweep, no live perishable sensor is past its deadline |
| ReaperRuns.SweepsCatchEverything | src/external/ExternalSensorMain.cpp:62-141 | no sweep of any run leaves a sensor past its deadline, and the timer is then armed exactly at the earliest |
| ReaperRuns.NoneExpiresEarly | src/external/ExternalSensorMain.cpp:68-86 | a step leaves a live sensor dead exactly when it sweeps at or after the last write plus the timeout |
| ReaperRuns.SetByClientEffect | src/external/ExternalSensor.cpp:187-199 | a client's write stands and overrides, a finite one makes the sensor available and forgets its errors, and each alarm is what the value says |
| ReaperRuns.WriteEffect | src/external/ExternalSensor.cpp:187-203 | after a write the sensor is alive with the time and value of the write |
| ReaperRuns.ReplaceEffect | src/external/ExternalSensorMain.cpp:306-318 | a replaced sensor is not alive, has no value and no alarm up; timer and other sensors stay |
| Airflow.CFMSensor.GetMaxRpm | src/exit-air/ExitAirTempSensor.cpp:357-411 | the search comes down from 100 to the first duty that is not over the limit |
| Airflow.CFMSensor.Calculate | src/exit-air/ExitAirTempSensor.cpp:413-489 | the summed airflow of the tachs that have a reading; no result if one lacks a usable range |
| AirflowCap.FlowMonotone | src/exit-air/ExitAirTempSensor.cpp:453-477 | on a rising curve a fan at a lower duty never moves more air |
| AirflowCap.SearchIsMaximal | src/exit-air/ExitAirTempSensor.cpp:357-411 | for any curve every duty above the result is over the limit and the result is not |
| AirflowCap.CapInvertsCurve | src/exit-air/ExitAirTempSensor.cpp:357-411 | each duty is within the limit exactly when it is at most the result, for every duty if and only if no duty is degenerate |
| AirflowCap.DegenerateExample | src/exit-air/ExitAirTempSensor.cpp:391-395 | a flat curve on which 50 percent is returned for a limit of 100 although 40 percent moves 400 |
| AirflowCap.CapIsHonoured | src/exit-air/ExitAirTempSensor.cpp:357-489 | on a rising curve, whatever the readings, tachs at or below the returned percentage make the calculated airflow at most the limit: if and only if TachMinPercent and TachMaxPercent differ, or are 0, or are above the returned percentage, or there are no tachs |
| AirflowCap.LimitIsExceeded | src/exit-air/ExitAirTempSensor.cpp:391-395 | on the flat curve 50 percent is returned for a limit of 100 and one fan at 40 percent makes the calculation 400 |
| AirflowCap.FlatCurveReportsNaN | src/exit-air/ExitAirTempSensor.cpp:469-477 | one fan at exactly 50 percent makes the calculation NaN |
| AirflowCurve.EndsAreC1AndC2 | src/exit-air/ExitAirTempSensor.cpp:382-395 | the coefficient is C1 at TachMin and C2 at TachMax |
| AirflowCurve.MidpointIsMean | src/exit-air/ExitAirTempSensor.cpp:391-395 | midway between two duties inside the range it is the mean of theirs |
| AirflowCurve.CoefficientIs | src/exit-air/ExitAirTempSensor.cpp:456-473 | 0 at 0, C1 below the range, C2 above it, and on the straight line between |
| AirflowCurve.OneFanReports | src/exit-air/ExitAirTempSensor.cpp:413-489 | what is reported for one fan is its coefficient on the curve times MaxCFM times its percentage over 100 |
| AirflowCurve.PercentIs | src/exit-air/ExitAirTempSensor.cpp:436-449 | a tach counts in percent of the upper end of its range |
| AirflowCurve.FailsWithoutRange | src/exit-air/ExitAirTempSensor.cpp:424-442 | the calculation fails exactly when a named tach has a reading but no range or one that ends at zero |
| AirflowCurve.ListsAdd | src/exit-air/ExitAirTempSensor.cpp:416-483 | the tachs of two lists together move what each list moves |
| AirflowCurve.LookupIsFirst | src/exit-air/ExitAirTempSensor.cpp:418-423 | the first entry whose path ends with the name is taken |
| AirflowCurve.EqualDutyIsTotalFlow | src/exit-air/ExitAirTempSensor.cpp:378-402 | when every tach reads p percent the calculation reports the very airflow the search compares with the limit |
| AirflowCurve.RisingExample | src/exit-air/ExitAirTempSensor.cpp:357-411 | on a worked curve one fan at 50 percent moves 37.5, and a limit of 30 allows 43 percent |
| ExitAir.ExitAirTempSensor.GetTotalCFM | src/exit-air/ExitAirTempSensor.cpp:651-665 | the sum over all zones, -1 if one of them fails |
| ExitAir.ExitAirTempSensor.Calculate | src/exit-air/ExitAirTempSensor.cpp:667-817 | the failure cases, the inlet temperature while power is off, and the averaged exit temperature, NaN if the airflow or the stored average is NaN |
| ExitAir.ExitAirTempSensor.Recreate | src/exit-air/ExitAirTempSensor.cpp:670-670 | the members start over, the static flag does not |
| ExitAir.WeightInUnit | src/exit-air/ExitAirTempSensor.cpp:774-804 | the smoothing weight stays in 0 to 1 for non-negative alphas and time that does not run backwards |
| ExitAir.AverageInHull | src/exit-air/ExitAirTempSensor.cpp:788-814 | after every run a stored average that is a number lies between two of its sources, re-created objects contributing a 0 |
| ExitAir.NaNStays | src/exit-air/ExitAirTempSensor.cpp:788-814 | the stored average is NaN exactly when a NaN has been averaged since the object was last re-created |
| ExitAir.ReadingIsNaN | src/exit-air/ExitAirTempSensor.cpp:673-766 | the instantaneous reading is NaN exactly when the airflow is NaN, the inlet temperature is a number and power is on |
| ExitAir.FlatCurveMakesNaN | src/exit-air/ExitAirTempSensor.cpp:651-816 | a zone whose one fan stands on the 0/0 of its curve makes the stored average NaN |
| ExitAir.AverageBetweenReadings | src/exit-air/ExitAirTempSensor.cpp:788-814 | without re-creation and NaN airflow it lies between two instantaneous readings of the run |
| ExitAir.HullIffFullWeight | src/exit-air/ExitAirTempSensor.cpp:788-814 | over every run with any number of re-creations the stored average lies at every moment between two readings averaged since the last re-creation, if and only if the first reading averaged after each re-creation is 0 or has weight 1 |
| ExitAir.RecreatedStartsFromZero | src/exit-air/ExitAirTempSensor.cpp:789-808 | the first step: the first reading after a re-creation is reported unchanged exactly when it is 0 or its weight is 1 |
| ExitAir.ReplacementLeavesHull | src/exit-air/ExitAirTempSensor.cpp:789-808 | two readings of 30 with a re-creation in between leave an average of 6 |
| ExitAirLaws.ReadingLaw | src/exit-air/ExitAirTempSensor.cpp:726-766 | the reading exceeds the inlet temperature by 1.76 times the altitude factor times the corrected power over the airflow, with the least factor up to qMin, the greatest from qMax and the straight line between; and exactly when there is no reading |
| ExitAirLaws.MidpointsAreMeans | src/exit-air/ExitAirTempSensor.cpp:729-786 | midway between two airflows inside the range the factor and the smoothing are the means of theirs |
| ExitAirLaws.AlphaLaw | src/exit-air/ExitAirTempSensor.cpp:774-786 | the smoothing per second at, below and above the range and on the straight line between |
| ExitAirLaws.WeightLaw | src/exit-air/ExitAirTempSensor.cpp:795-804 | the weight is the whole seconds passed times the smoothing, capped at 1 |
| ExitAirLaws.AverageLaw | src/exit-air/ExitAirTempSensor.cpp:789-813 | the average moves toward the reading by its weighted difference; the first reading is stored as it is |
| ExitAirLaws.CallLaw | src/exit-air/ExitAirTempSensor.cpp:673-817 | what a call reports and stores in each case |
| ExitAirLaws.PowersAdd | src/exit-air/ExitAirTempSensor.cpp:716-724 | every power that is not NaN counts once |
| ExitAirLaws.ZonesAdd | src/exit-air/ExitAirTempSensor.cpp:651-665 | zones add up, and one that fails makes the airflow -1 |
| Relay.PipeObject.OnReadData | src/OpenOCDPortForwardMain.cpp:181-194 | the data is placed at the front of the buffer in place and exactly these bytes are written |
| Relay.ProxyRelay.OnRemoteConnect | src/OpenOCDPortForwardMain.cpp:156-169 | both directions start reading, or the session stops |
| Relay.ProxyRelay.OnClientRead | src/OpenOCDPortForwardMain.cpp:181-194 | a successful read is answered by the write of its bytes, an error stops the session |
| Relay.ProxyRelay.OnClientWriteDone | src/OpenOCDPortForwardMain.cpp:196-204 | the next read starts only after the write is done |
| Relay.ProxyRelay.OnRemoteRead | src/OpenOCDPortForwardMain.cpp:216-229 | the same for the other direction |
| Relay.ProxyRelay.OnRemoteWriteDone | src/OpenOCDPortForwardMain.cpp:231-239 | the same for the other direction |
| Relay.SessionAlwaysOk | src/OpenOCDPortForwardMain.cpp:156-239 | over every run the bytes received but not delivered are exactly those the outstanding write still holds in the buffer |
| Relay.RelayIsFaithful | src/OpenOCDPortForwardMain.cpp:171-239 | in each direction the bytes out are a prefix of the bytes in, at most one buffer behind, and no buffer is refilled while it is being written |
| Relay.RelayKeepsGoing | src/OpenOCDPortForwardMain.cpp:156-239 | while a connected session runs, each direction has its next read or its write outstanding |
| Relay.CompletionEffect | src/OpenOCDPortForwardMain.cpp:181-239 | a read is followed by the write of exactly its bytes, a write by a read, an error by a stop; the other direction is untouched |
| Relay.ConnectEffect | src/OpenOCDPortForwardMain.cpp:156-169 | a connection starts both reads, a failed one stops |
| Relay.NothingAfterStop | src/OpenOCDPortForwardMain.cpp:138-153 | after a stop nothing more goes out in either direction |
| Forwarder.ProxySession.Start | src/OpenOCDPortForwardMain.cpp:108-136 | the session is tracked, and listed unless the remote host does not resolve |
| Forwarder.ProxySession.Stop | src/OpenOCDPortForwardMain.cpp:138-153 | idempotent; a tracked session leaves the list and nobody else does |
| Forwarder.Listener.Start | src/OpenOCDPortForwardMain.cpp:291-300 | the listener is open and a fresh session waits for its first connection |
| Forwarder.Listener.OnAccept | src/OpenOCDPortForwardMain.cpp:331-360 | a session is started exactly when fewer than 16 are listed; the next accept begins exactly when the listener is open |
| Forwarder.ForwardService.RemoveSession | src/OpenOCDPortForwardMain.cpp:439-445 | the session is gone, the rest of the list is as it was |
| Forwarder.ForwardService.StartListeners | src/OpenOCDPortForwardMain.cpp:456-470 | each port gets an open listener with its own waiting session, up to the one that fails |
| Forwarder.ForwardService.StartForwarding | src/OpenOCDPortForwardMain.cpp:447-482 | all listeners or none are listed; after a failed start the sessions are stopped, the listeners that did start are not |
| Forwarder.ForwardService.StopForwarding | src/OpenOCDPortForwardMain.cpp:484-497 | the loop ends and leaves the list empty: exactly the active sessions were stopped and every listener closed |
| Forwarder.AnyHistory | src/OpenOCDPortForwardMain.cpp:320-497 | over any history of accepts, failures and switching a session is listed exactly when tracked and not stopped, without duplicates, never more than 16 |
| Forwarder.WithoutKeepsNoDuplicates | src/OpenOCDPortForwardMain.cpp:439-445 | removal keeps the list free of duplicates |
| PortList.TrimString | src/OpenOCDPortForwardPorts.cpp:18-26 | both in-place scans cut exactly the leading and trailing white space |
| PortList.ReadToken | src/OpenOCDPortForwardPorts.cpp:39-60 | a token is blank, bad, or a port from 1 to 65535 |
| PortList.ParsePorts | src/OpenOCDPortForwardPorts.cpp:28-73 | the token loop, its early exits and the sort with removal of repeats |
| PortList.PortsAreCanonical | src/OpenOCDPortForwardPorts.cpp:28-73 | the result is strictly increasing, within 1 to 65535, and holds exactly the ports of the tokens, or is empty if one is bad |
| PortList.PortsOfJoin | src/OpenOCDPortForwardPorts.cpp:32-37 | a list joined by any separator parses to the ports of its parts |
| PortList.OnlyTokensMatter | src/OpenOCDPortForwardPorts.cpp:28-73 | two lists whose tokens read as the same set of ports and bad tokens parse to the same result |
| PortList.ReorderedParts | src/OpenOCDPortForwardPorts.cpp:69-70 | three parts in another order with other separators parse to the same result |
| PortList.OrderAndRepeatsDoNotMatter | src/OpenOCDPortForwardPorts.cpp:69-70 | exchanging two parts, changing the separator and repeating a list change nothing |
| PortList.BlanksDoNotMatter | src/OpenOCDPortForwardPorts.cpp:39-43 | surrounding blanks do not matter |
| PortList.CharactersAre | src/OpenOCDPortForwardPorts.cpp:20-33 | the white space and the three separators |
| PortList.NormalizeIs | src/OpenOCDPortForwardPorts.cpp:31-33 | commas and semicolons become colons, everything else stays |
| PortList.TokensAreParts | src/OpenOCDPortForwardPorts.cpp:35-37 | the tokens have no colon and make up the string again, up to one final colon |
| PortList.TrimKeeps | src/OpenOCDPortForwardPorts.cpp:18-26 | a string without white space at its ends is not changed |
| PortList.ClassifyIs | src/OpenOCDPortForwardPorts.cpp:39-60 | a token is blank, a port if it trims to decimal digits with a value from 1 to 65535, and bad otherwise |
| PortList.PortListRoundTrip | src/OpenOCDPortForwardPorts.cpp:28-73 | printing a strictly increasing list and parsing it returns the list |
| ConfigFetch.GetSensorConfiguration.GetConfiguration | src/Utils.hpp:323-336 | the retries are capped and every given name is prefixed |
| ConfigFetch.GetSensorConfiguration.OnMapperReply | src/Utils.hpp:369-391 | one request per interface that starts with one of the prefixed names; an object without owners ends the scan |
| ConfigFetch.GetSensorConfiguration.OnMapperError | src/Utils.hpp:342-368 | a retry is scheduled while some are left |
| ConfigFetch.GetSensorConfiguration.OnMapperTimer | src/Utils.hpp:353-365 | the query is made again with one retry less and the names prefixed once more, or given up on a timer error |
| ConfigFetch.GetSensorConfiguration.OnPathReply | src/Utils.hpp:317-317 | the data is stored under its path and interface |
| ConfigFetch.GetSensorConfiguration.OnPathError | src/Utils.hpp:290-315 | the request pauses for a retry or gives up when none is left |
| ConfigFetch.GetSensorConfiguration.OnPathTimer | src/Utils.hpp:304-313 | the request is sent again with one retry less, or dropped on a timer error |
| ConfigFetch.GetSensorConfiguration.DropReference | src/Utils.hpp:397-400 | the callback gets the data when the last reference is gone, and not before |
| ConfigFetchRuns.CallbackExactlyOnce | src/Utils.hpp:397-400 | in every run the callback has run once if the caller has let go and everything has settled, never otherwise, with precisely the answered pairs |
| ConfigFetchRuns.SixCallsPerRequest | src/Utils.hpp:278-321 | no request is sent more than six times; one that gave up was sent six times |
| ConfigFetchRuns.FetchTerminates | src/Utils.hpp:278-395 | at most 12 completions for caller and mapper and 11 per request; until the callback has run some completion is still to come |
| ConfigFetchRuns.FirstQuery | src/Utils.hpp:323-329 | the fetch begins with one query and at most five retries |
| ConfigFetchRuns.MapperErrorEffect | src/Utils.hpp:342-368 | an error pauses while retries are left, and the pause is followed by a query with one less |
| ConfigFetchRuns.MapperRetriesBounded | src/Utils.hpp:326-364 | at most five mapper retries run, and never more than the caller allowed |
| ConfigFetchRuns.RowsAdd | src/Utils.hpp:369-391 | objects with owners add their own requests |
| ConfigFetchRuns.OwnerlessEndsScan | src/Utils.hpp:371-374 | nothing behind an object without owners is requested |
| ConfigFetchRuns.ObjectAdds | src/Utils.hpp:377-390 | the interfaces of an object are looked at one by one |
| ConfigFetchRuns.OneObject | src/Utils.hpp:375-389 | an interface is requested from the first owner exactly if it is wanted |
| ConfigFetchRuns.WantedIsPrefix | src/Utils.hpp:381-385 | wanted means starting with one of the names |
| ConfigFetchRuns.RetryForgetsTypes | src/Utils.hpp:331-364 | what the caller asked for is requested, whatever the mapper replies, if and only if no mapper retry has run (or nothing was asked for) |
| ConfigFetchRuns.LostAfterRetry | src/Utils.hpp:331-364 | after one mapper error the configuration asked for is not requested and the callback gets nothing; without the error it is requested |
| DeviceNames.GetDeviceBusAddr | src/Utils.hpp:419-446 | the result and both out-parameters, which may be written even on failure |
| DeviceNames.NameRoundTrip | src/DeviceMgmt.cpp:62-68 | every 64-bit bus and address are read back from the printed name |
| DeviceNames.NamesAreInjective | src/DeviceMgmt.cpp:62-68 | different devices have different names |
| DeviceNames.ReadNameIsPrinted | src/Utils.hpp:419-446 | a name that reads back is the printed name of what was read exactly when it has the printed shape |
| DeviceNames.ReadsIff | src/Utils.hpp:419-446 | a name is read exactly when it is a 64-bit decimal number, a hyphen and a 64-bit hexadecimal number |
| DeviceNames.BadPartsWrite | src/Utils.hpp:431-443 | what a bad bus or address leaves in the out-parameters |
| DeviceNames.NoHyphenReadsNothing | src/Utils.hpp:422-427 | without a hyphen nothing is read or written |
| DeviceNames.NameExample | src/DeviceMgmt.cpp:62-68 | bus 3, address 0x4c is 3-004c |
| Digits.PrintRoundTrip | src/DeviceMgmt.cpp:64-67 | the printed digits have the value they were printed from, in both radices |
| Digits.MinimalIsPrinted | src/DeviceMgmt.cpp:64-67 | a lower-case numeral without superfluous zero is what its value prints as |
| Digits.ValueLaw | src/Utils.hpp:432-438 | decimal digits count by tens, hexadecimal ones in either case by sixteens |
| Digits.FromCharsStops | src/Utils.hpp:432-438 | the leading digits are read, unless there are none or they do not fit |
| SdrFetch.IpmbSDRDevice.OnSDRResponse | src/ipmb/IpmbSDRSensor.cpp:140-166 | a failed or short response ends the walk, any other is handled |
| SdrFetch.IpmbSDRDevice.HandleSDRData | src/ipmb/IpmbSDRSensor.cpp:172-214 | the chunk is appended; then the next chunk or the next record is requested, or the walk ends |
| SdrFetch.RequestsAreConsecutive | src/ipmb/IpmbSDRSensor.cpp:130-214 | over every response stream requests go on 16 bytes at a time or start a record under the id the record before announced; the chunk index stays at most 14 so the offset never wraps |
| SdrFetch.ResponsesPerRecord | src/ipmb/IpmbSDRSensor.cpp:172-214 | while the walk goes on every record has taken at most 15 responses |
| SdrFetch.WalkFinishes | src/ipmb/IpmbSDRSensor.cpp:203-212 | accepted responses bring the walk to its end with exactly recordCount records closed by the length test, 65536 if recordCount is 0 |
| SdrFetch.RecordFromDevice | src/ipmb/IpmbSDRSensor.cpp:130-213 | a record read from a device that answers what it is asked is closed after the least n with 18n at least its length byte plus 7 (modulo 256), with its first 16n bytes: all of it if and only if 16n reaches its length; then the announced record is asked for, or the walk is over |
| SdrFetch.LastByteIsMissed | src/ipmb/IpmbSDRSensor.cpp:179-184 | every record of 49 bytes is closed with its first 48 |
| SdrFetch.BadResponseStops | src/ipmb/IpmbSDRSensor.cpp:149-163 | after a failed or short response nothing is asked for or stored any more |
| Redundancy.RedundancySensor.CountFailures | src/fan/TachSensor.cpp:265-283 | the loop that stops early still classifies by the full count |
| Redundancy.RedundancySensor.UpdateStatus | src/fan/TachSensor.cpp:262-297 | the new status, the classified state and the log its change calls for |
| Redundancy.StatusesAreLatest | src/fan/TachSensor.cpp:262-264 | a name counts as failed exactly when its latest report says so |
| Redundancy.StateIsByLatestFailures | src/fan/TachSensor.cpp:262-297 | after any run the state is Full for no name last reported failed, Degraded for one to count of them, Failed for more |
| Redundancy.LogsAlternate | src/fan/TachSensor.cpp:284-296 | Lost and Regained logs strictly alternate, starting with Lost |

## Left out

- ThresholdRuns.DrainedAgrees: asks for one threshold per level and direction, strictly advancing reading times, power good and no timer errors; thresholds do not change during the run. Two thresholds of one key would fight over one alarm property.
- PortList.ParsePorts: `std::sort`, `std::unique` and `erase` are one function on values; their in-place steps are library code.
- Reaper.ExternalSensor.WriteInvalidate: the inherited fields are one value on which the functions that SensorValue.SensorObject's methods are proved to compute are called; sharing of that part between objects does not arise.
- Redundancy.RedundancySensor.CountFailures: visits the names in any order, the source in key order; the result does not depend on it.
- SensorValue.SensorObject.UpdateValue: the virtual `checkThresholds` is the undelayed overload; its result and the instrumentation and telemetry calls are not part of this model.
- SensorValue.SensorObject.SetSensorValue: counts the calls of the external set hook; what the hook of an external sensor does is in `Reaper.ExternalSensor.ExternalSetTrigger`.
- SensorValue.SensorObject.ThresholdSetter: the persisting of the new limit is D-Bus traffic and is not part of this model.
- SdrFetch.RecordFromDevice: the device answers every request with 16 bytes, zeros behind the record's end.
- `ThresholdTimer::stopTimer`: nothing in the repository calls it.
- Floating-point rounding, infinities and overflow: arithmetic is over reals. In the leak policy NaN stands for every non-finite delay, which the source treats alike.
- D-Bus transport, object and association creation, LEDs, event log contents, shared-memory telemetry: library I/O.
- sysfs, hwmon, I2C, GPIO, PECI and MCTP access, file watching and power-state matching: foreign calls; their results are event parameters.
- The `createSensors` configuration walks and `main` functions of the daemons: long but shallow.
- The destruction of a sensor while handlers are queued: the weak-pointer checks make such a handler do nothing.
- Policy replies of an earlier binding are not told apart from those of the current one: any reply may arrive at any time. `WarningReactionType` has no effect on the shutdown and is not part of this model.
- The delay and the D-Bus call of `LeakDetectSensor::startShutdown`: only that it is started.
- That no session starts after forwarding is switched off: an accept that is already queued may still start one.
- The conversion of SDR records to sensors and of raw readings to values, and the names in them.
- PSU redundancy, GPIO presence, write protection, watchdog, cable monitor and chassis intrusion: they would add only easy members.
