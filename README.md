# Drone edge node: a verified model of its control logic

This project models the edge node of a three-tier telemetry pipeline
(sensors → drone edge node → central collector). The edge node receives
newline-delimited sensor readings, flags out-of-range readings as
anomalies, and batches readings into reports. A battery model switches
the node between *active* and *returning* modes. Reports the collector
cannot take are stored in an `unsent` directory and re-sent later.
Three source files are modelled:

- `battery.py`: the early drain-only battery (module `DrainOnlyBattery`).
- `common/battery.py`: the hysteretic battery (module `CommonBattery`).
  A tick charges (capped at 100) or drains (floored at 0). `returning`
  is raised below the low threshold and lowered only at 90 or above.
- `drone_edge/drone.py`, split into several modules:
  - `Analytics`: anomaly classification and report aggregation.
    Averages use exact `real` arithmetic.
  - `Framing`: the session handler's frame-splitting loop.
  - `StoreForward`: delivery, storing on failure, and the retry pass.
    The unsent directory is a map from file name to bytes.
  - `Edge`: the node's state as a value (`EdgeState`), one specification
    function per operation, and the `DroneEdge` class. Each class method
    is proved to follow its specification function.
  - `EdgeProperties`: lemmas about those functions.

Threads, sockets, queues and the clock become explicit inputs to each
step (`StepInput`):
- whether a battery tick is due;
- the reading dequeued in this iteration, if any;
- whether the collector is reachable;
- the current timestamp;
- a fresh name for an unsent-report file.

The report encoding (`DroneReport.to_bytes`) is a function held by the
node (`DroneEdge.encode`). Reading decoding is a function passed to
`Framing.ReceiveChunk`. Neither JSON codec is modelled.

Behaviour the model follows from the code:
- `set_low_battery_threshold` never stores the new threshold, although
  its docstring says it updates it. It may only raise `returning` (and
  start the travel countdown). It returns `False` on rejection and `None`
  otherwise (`Edge.SetThresholdSpec`, `EdgeProperties.SetThresholdEffect`,
  `EdgeProperties.NewThresholdIgnoredByTick`).
- The retry pass never parses a stored file, so its "corrupt file" branch
  cannot run. Stored files are only deleted after a successful resend.
- Every `SensorReading` has both a temperature and a humidity, so the
  "valid readings" filter of `_send_report` keeps the whole batch.
- Reports are only built while the node is active. Every report from the
  forward loop therefore says `"active"` (`EdgeProperties.StepReportsActive`).
- Anomalies recorded while returning stay with the batch they belong to.
  The anomaly list is always exactly the anomaly events of the current
  batch (`EdgeProperties.Settled`).
- An operator command can raise `returning` between loop iterations and
  set the travel countdown to 2. If the next iteration has a tick due, it
  uses one travel tick and then resets the countdown to 2, so that trip
  drains for three ticks rather than two
  (`EdgeProperties.OperatorReturnRestartsCountdown`). If that iteration has
  no tick due, the countdown simply stays at 2.

## Model

| member | source | states |
|---|---|---|
| DrainOnlyBattery.Drained | battery.py:12 | a tick leaves `level - drain_rate` floored at 0: never negative, never above the old level when both level and rate are non-negative |
| DrainOnlyBattery.AfterTicksClosedForm | battery.py:11-13 | from a non-negative level and for any rate, `n` ticks leave `max(0, level - n * drain_rate)` |
| DrainOnlyBattery.Battery.constructor | battery.py:7-9 | `start` and `drain_rate` are stored verbatim, defaulting to 100 and 1 |
| DrainOnlyBattery.Battery.Tick | battery.py:11-13 | the level becomes the drained level, is returned, and `drain_rate` is unchanged |
| CommonBattery.TickedLevel | common/battery.py:28-31 | charging gives `min(100, level + recharge_rate)`, draining gives `max(0, level - drain_rate)` |
| CommonBattery.Reevaluated | common/battery.py:32-35 | `returning` rises only below the low threshold, falls only at 90 or more, and holds in between |
| CommonBattery.Ticked | common/battery.py:20-36 | a tick never changes the rates or the low threshold, and keeps the level in [0,100] with non-negative rates |
| CommonBattery.TickHysteresis | common/battery.py:32-35 | hysteresis of a full tick, in both directions: below low while active raises the flag, at 90 or more while returning lowers it, in between it is unchanged |
| CommonBattery.DefaultDrainSchedule | common/battery.py:9-35 | with defaults (100, drain 3, low 20), the level is 100 - 3k and the node stays active for 26 ticks; tick 27 gives 19 and is the first to raise `returning` |
| CommonBattery.Battery.constructor | common/battery.py:13-18 | stores start, rates and low threshold verbatim, not returning |
| CommonBattery.Battery.Tick | common/battery.py:20-36 | the new level and flag are those of `Ticked`, and the new level is returned |
| Analytics.IsAnomaly | drone_edge/drone.py:46-55 | anomalous iff temperature is outside [0,40] or humidity is outside [10,90], bounds inclusive |
| Analytics.AnomalyLog | drone_edge/drone.py:233-239 | the anomaly events of a batch's anomalous readings, in batch order; its properties are `AnomalyLogAppend` and `AnomalyLogSound` |
| Analytics.AnomalyOf | drone_edge/drone.py:234-238 | the anomaly event carries the reading's sensor id, `[temperature, humidity]` and timestamp |
| Analytics.AnomalyLogAppend | drone_edge/drone.py:233-239 | appending a reading adds its anomaly event exactly when it is anomalous |
| Analytics.AnomalyLogSound | drone_edge/drone.py:233-239 | every recorded anomaly comes from an anomalous reading of the batch, and there are at most as many as readings |
| Analytics.Mean | drone_edge/drone.py:269-270 | the average times the count is the sum |
| Analytics.MeanBounds | drone_edge/drone.py:269-270 | the average of values in [lo,hi] lies in [lo,hi] |
| Analytics.SensorIds | drone_edge/drone.py:279 | the set of distinct sensor ids of a batch; its size is bounded by `SensorCountBounds` |
| Analytics.SensorCountBounds | drone_edge/drone.py:279 | a non-empty batch has between 1 and its length distinct sensor ids |
| Analytics.BuildReport | drone_edge/drone.py:262-281 | no report for no readings; otherwise the current level, "returning" iff returning, averages that are the means, the distinct sensor count, the given anomalies |
| Analytics.ReportWithinBatch | drone_edge/drone.py:264-281 | a report's averages lie within its readings' ranges and its sensor count within [1, batch size] |
| Framing.FirstDelim | drone_edge/drone.py:108-111 | the split point is the first delimiter in the buffer |
| Framing.Split | drone_edge/drone.py:108-111 | repeated `split(DELIM, 1)`: the frames before each delimiter in order, and the incomplete rest; its properties are `SplitSound`, `SplitJoined` and `ChunkedSplit` |
| Framing.SplitSound | drone_edge/drone.py:107-111 | the frames, each followed by the delimiter, then the leftover, are exactly the input; no frame or leftover holds a delimiter |
| Framing.SplitJoined | drone_edge/drone.py:108-111 | splitting recovers delimiter-free frames in order, so the decomposition is unique |
| Framing.ChunkedSplit | drone_edge/drone.py:93-111 | the frames do not depend on where the stream was cut into chunks |
| Framing.DecodeAll | drone_edge/drone.py:112-126 | the readings queued for a list of frames: empty frames skipped, undecodable frames dropped; its properties are `DecodeAllAppend` and `DecodeErrorIsolated` |
| Framing.DecodeAllAppend | drone_edge/drone.py:112-126 | frames are decoded independently and in order |
| Framing.DecodeErrorIsolated | drone_edge/drone.py:114-126 | a frame that fails to decode is dropped and later frames are still queued |
| Framing.ReceiveChunk | drone_edge/drone.py:107-128 | with stop clear, the buffer ends without a delimiter, frames plus leftover equal old buffer + chunk, and the queued readings are the decoded non-empty frames in order; with stop set, the buffer only grows |
| Framing.TwoFramesThreeChunks | drone_edge/drone.py:107-113 | two frames cut into three arbitrary chunks give exactly those two frames, in order, with nothing left over |
| StoreForward.Delivered | drone_edge/drone.py:286-293 | a successful send appends the bytes to what the collector received and stores nothing; a failed one writes exactly those bytes under the new name and keeps all other files |
| StoreForward.FailedSendStoresOne | drone_edge/drone.py:290-293 | a failed send under a fresh name adds exactly one file |
| StoreForward.RetryOne | drone_edge/drone.py:305-323 | one listed file: a vanished file is skipped; otherwise its exact bytes are sent, and it is deleted only if the collector was reachable |
| StoreForward.RetryPass | drone_edge/drone.py:304-323 | a pass over the listed names in order with per-attempt reachability; its properties are `RetryPassSound`, `RetryUnreachableIdle` and `RetryReachableDrains` |
| StoreForward.RetryPassSound | drone_edge/drone.py:304-323 | a retry pass keeps the remaining files byte-identical and only extends what the collector received; a file is removed only after its bytes were sent, with one send per removed file |
| StoreForward.RetryUnreachableIdle | drone_edge/drone.py:322-323 | with the collector unreachable, a pass changes nothing |
| StoreForward.RetryReachableDrains | drone_edge/drone.py:313-316 | a pass that lists every file and reaches the collector each time empties the directory |
| StoreForward.StoredThenResent | drone_edge/drone.py:286-316 | a report stored on failure is delivered by a later successful pass and no copy of it remains |
| Edge.SendReportSpec | drone_edge/drone.py:258-295 | no change for no readings; otherwise one report on the GUI queue and its bytes delivered or stored (`Delivered`) |
| Edge.Flushed | drone_edge/drone.py:251-254 | report the batch with its anomalies, hand the batch off, and clear both (shape stated by `EdgeProperties.FlushedShape`) |
| Edge.TickPhase | drone_edge/drone.py:186-207 | the battery tick: travel decrement, charging only at base, and stop at 0% or less; stated by `TickChargesOnlyAtBase`, `TravelCountdown`, `ZeroLevelStops` |
| Edge.TransitionPhase | drone_edge/drone.py:209-228 | flush on returning to active, countdown start on leaving active; stated by `ReturnToActiveFlushes`, `ActiveToReturning`, `TransitionReports` |
| Edge.FlushIfFull | drone_edge/drone.py:251-254 | flush a batch of 5 or more while active, otherwise no change; stated by `ActiveBatching` |
| Edge.BatchPhase | drone_edge/drone.py:230-256 | queue the reading and its anomaly event, flush if full only while active; stated by `ActiveBatching`, `ReturningDefersFlush`, `BatchKeepsSettled` |
| Edge.ForwardStep | drone_edge/drone.py:183-256 | one loop iteration, nothing once stopped; stated by `StepKeepsSettled`, `StepConservesReadings`, `StepReportsActive`, `StoppedIsFinal` |
| Edge.RetrySpec | drone_edge/drone.py:297-325 | a retry pass, nothing when stopped or the directory is empty; stated by `RetryTouchesOnlyOutbox` |
| Edge.StopSpec | drone_edge/drone.py:363-368 | stop() raises the stop flag and changes nothing else |
| Edge.ManualDrainSpec | drone_edge/drone.py:327-345 | manual drain; stated by `ManualDrainEffect` |
| Edge.SetThresholdSpec | drone_edge/drone.py:381-406 | threshold command and reply; stated by `SetThresholdEffect` and `NewThresholdIgnoredByTick` |
| Edge.DroneEdge.constructor | drone_edge/drone.py:64-78 | default battery, no travel, nothing batched, not stopped, the given unsent directory |
| Edge.DroneEdge.SendReport | drone_edge/drone.py:258-295 | the node's new state is that of `SendReportSpec` |
| Edge.DroneEdge.Flush | drone_edge/drone.py:251-254 | reports the batch with its anomalies, then clears both |
| Edge.DroneEdge.ForwardIteration | drone_edge/drone.py:183-256 | one loop iteration moves the node to `ForwardStep` of its old state |
| Edge.DroneEdge.TickBattery | drone_edge/drone.py:186-207 | the battery-tick section moves the node to `TickPhase` of its old state |
| Edge.DroneEdge.HandleModeTransition | drone_edge/drone.py:209-228 | the status-change section moves the node to `TransitionPhase` of its old state |
| Edge.DroneEdge.QueueReading | drone_edge/drone.py:230-256 | the queue-reading section moves the node to `BatchPhase` of its old state |
| Edge.DroneEdge.RetryUnsent | drone_edge/drone.py:297-325 | one retry pass moves the node to `RetrySpec` of its old state |
| Edge.DroneEdge.Stop | drone_edge/drone.py:363-368 | the node's new state is that of `StopSpec`: only the stop flag is raised |
| Edge.DroneEdge.ManualDrainBattery | drone_edge/drone.py:327-345 | the node's new state is that of `ManualDrainSpec` |
| Edge.DroneEdge.SetLowBatteryThreshold | drone_edge/drone.py:381-406 | the new state and the return value are those of `SetThresholdSpec` |
| EdgeProperties.TickChargesOnlyAtBase | drone_edge/drone.py:186-200 | a due tick charges exactly when returning with the travel countdown at 0 |
| EdgeProperties.TravelCountdown | drone_edge/drone.py:189-193 | while returning and travelling, a tick drains and lowers the countdown by exactly 1 |
| EdgeProperties.OperatorReturnRestartsCountdown | drone_edge/drone.py:222-226 | if an operator command raised `returning` since the last iteration, the countdown is 2 again after the tick |
| EdgeProperties.ZeroLevelStops | drone_edge/drone.py:203-207 | the node stops exactly when a due tick leaves the level at 0 or below, and nothing is batched or sent then |
| EdgeProperties.StoppedIsFinal | drone_edge/drone.py:183 | once stopped, an iteration changes nothing |
| EdgeProperties.ActiveToReturning | drone_edge/drone.py:222-226 | active to returning sets the countdown to 2 and clears the charging-started flag |
| EdgeProperties.ReturningDefersFlush | drone_edge/drone.py:242-245 | while returning nothing is sent; the reading and its anomaly event are queued |
| EdgeProperties.ReturnToActiveFlushes | drone_edge/drone.py:213-220 | returning to active sends one report of a non-empty batch of any size, then starts a new batch |
| EdgeProperties.ActiveBatching | drone_edge/drone.py:231-254 | while active, a batch reaching 5 is reported and cleared with its anomalies; a smaller batch is kept and nothing is sent |
| EdgeProperties.StepConservesReadings | drone_edge/drone.py:213-254 | each dequeued reading ends up exactly once in the batch or in a batch handed to the report builder |
| EdgeProperties.StepReportsActive | drone_edge/drone.py:213-254 | an iteration builds at most one report, one per batch handed off, and each says "active" |
| EdgeProperties.Settled | drone_edge/drone.py:179-256 | the forward loop's invariant between iterations: the anomaly list is exactly the batch's anomaly events, and the batch is below 5 while the loop last saw the node active |
| EdgeProperties.InitialSettled | drone_edge/drone.py:179-181 | the loop starts with an empty batch and anomaly list |
| EdgeProperties.StepKeepsSettled | drone_edge/drone.py:209-254 | each iteration keeps the anomaly list equal to the batch's anomaly events and a batch below 5 while active |
| EdgeProperties.OperatorsKeepSettled | drone_edge/drone.py:327-406 | the operator commands and the retry pass do not disturb that invariant |
| EdgeProperties.ManualDrainEffect | drone_edge/drone.py:327-345 | no change for amount <= 0; else the level is `max(0, level - amount)` and `returning` is re-evaluated with the battery's hysteresis (raised below the low threshold while active, lowered at 90 or more while returning, otherwise kept). The countdown starts only when a raise finds none running. A kept flag leaves the countdown and the charging flag alone. Nothing outside the level, the flag and the travel bookkeeping changes |
| EdgeProperties.SetThresholdEffect | drone_edge/drone.py:389-406 | outside [5,80]: `False` and no change; inside: `None`, with `returning` raised exactly when active and below the new value. Only `returning`, the countdown and the charging flag may change: the batch, anomalies, outbox, level, rates and stored threshold are kept |
| EdgeProperties.NewThresholdIgnoredByTick | drone_edge/drone.py:389-406 | since the threshold is not stored, the next tick still judges the level against the old one |
| EdgeProperties.RetryTouchesOnlyOutbox | drone_edge/drone.py:297-325 | a retry pass changes only the unsent directory and the collector, and nothing once stopped |
| EdgeProperties.StopHaltsLoops | drone_edge/drone.py:363-368 | after stop(), a forward iteration and a retry pass change nothing, and the loop invariant still holds |
| EdgeProperties.IdleActivePhase | drone_edge/drone.py:183-207 | the default node left idle stays active at 100 - 3k for 26 ticks |
| EdgeProperties.DefaultReturnTrip | drone_edge/drone.py:186-226 | tick 27 gives 19, returning, countdown 2; ticks 28 and 29 drain to 16 and 13; tick 30 charges to 23 |

## Left out

- Threads, sockets and the acceptor are not modelled: `_run_server`, `stop()`'s socket shutdown, `recv`/`accept` timeouts and connection errors. Their effects arrive as step inputs. `stop()` itself is modelled only as raising the stop flag between operations (`Edge.DroneEdge.Stop`).
- The blocking reading queue is replaced by the optional reading in each `StepInput`.
- The clock is replaced by the `tickDue` input. `time.sleep` and the retry interval are left out.
- Timestamps (`utcnow`) and unsent file names (`time.time()`) are supplied by the caller.
- `_monitor_battery` only logs, so it is left out, as is all logging.
- The GUI queue of readings is left out; the reports put on it are kept as `guiReports`.
- JSON encoding and decoding (common/messages.py) are not modelled. They are the `encode` and `decode` function parameters.
- Floating point is not modelled: temperatures, humidities and averages are exact reals.
- The outer `while not stop` loops of the session handler and the retry loop are left out. One received chunk and one retry pass are modelled.
- Framing.ReceiveChunk: the stop flag holds one value for the whole call. A stop raised by another thread partway through the split loop is not modelled.
- Edge.DroneEdge.RetryUnsent: the stop flag holds one value for the whole pass. The caller supplies the directory listing and the collector's reachability for each attempt.
- The catch-all `except Exception` branches of `_send_report` and the retry loop are not modelled. A file that vanished before resending (`FileNotFoundError`) is a listed name missing from the map and is skipped.
- StoreForward.Delivered: writing the unsent file is assumed to succeed. In the code, an `OSError` from `write_bytes` (drone_edge/drone.py:293) is raised inside the `except OSError` handler, so the sibling `except Exception` does not catch it. It escapes `_send_report` and ends `_forward_loop`, and the report is lost. `FailedSendStoresOne` and the forward-loop lemmas rely on this assumption.
- StoreForward.RetryOne: deleting a resent file is assumed to succeed. In the code, a failing `unlink()` (drone_edge/drone.py:316) is caught by the `except OSError` branch (322-323). The file is kept and sent again on a later pass. For the program, `RetryPassSound`'s "one send per removed file" is therefore only "at least one send per removed file".
- The retry loop's `JSONDecodeError` branch is left out because it cannot run: the file is never parsed.
- Readings with ill-typed fields are not modelled: a non-numeric temperature or humidity, or an unhashable `sensor_id`. In the code they raise `TypeError` at drone_edge/drone.py:53 or :279 and end the forward loop. A decoded reading here always has a string sensor id and real temperature and humidity.
- The forward loop's local `batch`, `anomalies` and last-seen mode are node fields, set up by the constructor.
- The central server, the sensor simulators, both GUIs and the logging setup are not part of this model.
