/**
 * The edge node's sequential control logic (drone_edge/drone.py, DroneEdge).
 *
 * Threads, sockets, queues and the clock become step inputs: whether a
 * battery tick is due, the reading dequeued in this iteration (if any),
 * whether the collector is reachable, the current timestamp and a fresh name
 * for an unsent-report file. Each operation is specified by a function on
 * `EdgeState`; the `DroneEdge` class holds the same state in fields and its
 * methods are proved to follow those functions.
 */
module Edge {
  import opened Wrappers
  import opened Messages
  import opened CommonBattery
  import opened Analytics
  import opened StoreForward

  /** FORWARD_BATCH: readings per report while active. */
  const FORWARD_BATCH: nat := 5
  /** Ticks of transit back to base before charging starts. */
  const TRAVEL_TICKS: nat := 2
  /** Accepted range of an operator-supplied low threshold. */
  const THRESHOLD_MIN: int := 5
  const THRESHOLD_MAX: int := 80

  /**
   * Everything the node's control logic reads or writes. `batch`,
   * `anomalies` and `lastKnownReturning` are the forward loop's own state;
   * `outbox` is the unsent directory plus what the collector has received;
   * `guiReports` is every report built (each is also put on the GUI queue);
   * `handedOff` is every batch handed to the report builder, in order.
   */
  datatype EdgeState = EdgeState(
    battery: Charge,
    travelTicksRemaining: nat,
    chargingStartedLogSent: bool,
    batch: seq<Reading>,
    anomalies: seq<Anomaly>,
    lastKnownReturning: bool,
    stopped: bool,
    outbox: Outbox,
    guiReports: seq<Report>,
    handedOff: seq<seq<Reading>>)

  /** What the environment supplies to one iteration of the forward loop. */
  datatype StepInput = StepInput(tickDue: bool, reading: Option<Reading>, reachable: bool, now: string, key: string)

  /** A freshly constructed node whose unsent directory already holds `persisted`. */
  function Initial(persisted: map<string, seq<byte>>): EdgeState
  {
    EdgeState(
      Fresh(DEFAULT_START, DRAIN_RATE, RECHARGE_RATE, DEFAULT_LOW_THRESHOLD),
      0, false, [], [], false, false, Outbox(persisted, []), [], [])
  }

  /** _send_report: build the report (none for an empty list) and deliver or store its bytes. */
  function SendReportSpec(s: EdgeState, readings: seq<Reading>, anomalies: seq<Anomaly>,
                          reachable: bool, now: string, key: string, encode: Report -> seq<byte>): EdgeState
  {
    match BuildReport(readings, anomalies, s.battery.level, s.battery.returning, now)
    case None => s
    case Some(rpt) => s.(guiReports := s.guiReports + [rpt], outbox := Delivered(s.outbox, encode(rpt), reachable, key))
  }

  /** Report the current batch and its anomalies, then clear both. */
  function Flushed(s: EdgeState, input: StepInput, encode: Report -> seq<byte>): EdgeState
  {
    SendReportSpec(s, s.batch, s.anomalies, input.reachable, input.now, input.key, encode)
      .(batch := [], anomalies := [], handedOff := s.handedOff + [s.batch])
  }

  /** Whether the due tick charges: only once returning and the travel countdown is over. */
  function ChargesThisTick(s: EdgeState): bool
  {
    s.battery.returning && s.travelTicksRemaining == 0
  }

  /** The battery-tick part of an iteration; a level of 0 or less stops the node. */
  function TickPhase(s: EdgeState): EdgeState
  {
    var charging := ChargesThisTick(s);
    var b := Ticked(s.battery, charging);
    s.(battery := b,
       travelTicksRemaining :=
         if s.battery.returning && s.travelTicksRemaining > 0 then s.travelTicksRemaining - 1
         else s.travelTicksRemaining,
       chargingStartedLogSent := s.chargingStartedLogSent || charging,
       stopped := b.level <= 0)
  }

  function AfterTick(s: EdgeState, input: StepInput): EdgeState
  {
    if input.tickDue then TickPhase(s) else s
  }

  /** Mode-transition handling against the last observed `returning` flag. */
  function TransitionPhase(s: EdgeState, input: StepInput, encode: Report -> seq<byte>): EdgeState
  {
    var current := s.battery.returning;
    var s1 :=
      if s.lastKnownReturning && !current then
        var t := s.(chargingStartedLogSent := false);
        if t.batch != [] then Flushed(t, input, encode) else t
      else s;
    var s2 :=
      if !s.lastKnownReturning && current then s1.(travelTicksRemaining := TRAVEL_TICKS, chargingStartedLogSent := false)
      else s1;
    s2.(lastKnownReturning := current)
  }

  /** Flush a full batch while active. */
  function FlushIfFull(s: EdgeState, input: StepInput, encode: Report -> seq<byte>): EdgeState
  {
    if |s.batch| >= FORWARD_BATCH && !s.battery.returning then Flushed(s, input, encode) else s
  }

  /** Queue the dequeued reading (and its anomaly), then flush if full; returning skips the flush check. */
  function BatchPhase(s: EdgeState, input: StepInput, encode: Report -> seq<byte>): EdgeState
  {
    match input.reading
    case None => FlushIfFull(s, input, encode)
    case Some(r) =>
      var s1 := s.(batch := s.batch + [r],
                   anomalies := if IsAnomaly(r) then s.anomalies + [AnomalyOf(r)] else s.anomalies);
      if s.battery.returning then s1 else FlushIfFull(s1, input, encode)
  }

  /** One iteration of _forward_loop; a stopped node does nothing. */
  function ForwardStep(s: EdgeState, input: StepInput, encode: Report -> seq<byte>): EdgeState
  {
    if s.stopped then s
    else
      var t := AfterTick(s, input);
      if t.stopped then t else BatchPhase(TransitionPhase(t, input, encode), input, encode)
  }

  /** One pass of _retry_unsent_reports_loop over the listed files. */
  function RetrySpec(s: EdgeState, names: seq<string>, reachable: seq<bool>): EdgeState
    requires |names| == |reachable|
  {
    if s.stopped || s.outbox.unsent == map[] then s
    else s.(outbox := RetryPass(s.outbox, names, reachable))
  }

  /** stop(): raise the stop flag; nothing else of the control state changes. */
  function StopSpec(s: EdgeState): (r: EdgeState)
    ensures r.stopped && r.(stopped := s.stopped) == s
  {
    s.(stopped := true)
  }

  /** manual_drain_battery. */
  function ManualDrainSpec(s: EdgeState, amount: int): EdgeState
  {
    if amount <= 0 then s
    else
      var level := if s.battery.level - amount < 0 then 0 else s.battery.level - amount;
      var b := s.battery.(level := level);
      if level < b.lowThreshold && !b.returning then
        var s1 := s.(battery := b.(returning := true));
        if s.travelTicksRemaining == 0 then s1.(travelTicksRemaining := TRAVEL_TICKS, chargingStartedLogSent := false)
        else s1
      else if level >= CRITICAL_BATTERY_THRESHOLD && b.returning then
        s.(battery := b.(returning := false), travelTicksRemaining := 0)
      else s.(battery := b)
  }

  /**
   * set_low_battery_threshold: the new state and the return value, which is
   * Some(false) for `False` and None for `None`. The threshold itself is
   * never stored.
   */
  function SetThresholdSpec(s: EdgeState, newThreshold: int): (EdgeState, Option<bool>)
  {
    if !(THRESHOLD_MIN <= newThreshold <= THRESHOLD_MAX) then (s, Some(false))
    else if !s.battery.returning && s.battery.level < newThreshold then
      var s1 := s.(battery := s.battery.(returning := true));
      (if s.travelTicksRemaining == 0 then s1.(travelTicksRemaining := TRAVEL_TICKS, chargingStartedLogSent := false) else s1,
       None)
    else (s, None)
  }

  class DroneEdge {
    const battery: Battery
    /** DroneReport.to_bytes. */
    const encode: Report -> seq<byte>
    var travelTicksRemaining: nat
    var chargingStartedLogSent: bool
    var batch: seq<Reading>
    var anomalies: seq<Anomaly>
    var lastKnownReturning: bool
    var stopped: bool
    /** The unsent directory: file name to stored bytes. */
    var unsent: map<string, seq<byte>>
    /** The byte strings the collector has received from this node. */
    var collector: seq<seq<byte>>
    /** Reports put on the GUI queue. */
    var guiReports: seq<Report>
    ghost var handedOff: seq<seq<Reading>>

    ghost function State(): EdgeState
      reads this, battery
    {
      EdgeState(battery.Snapshot(), travelTicksRemaining, chargingStartedLogSent, batch, anomalies,
                lastKnownReturning, stopped, Outbox(unsent, collector), guiReports, handedOff)
    }

    /** A node with the default battery, nothing batched, and `persisted` already in its unsent directory. */
    constructor (persisted: map<string, seq<byte>>, encode: Report -> seq<byte>)
      ensures State() == Initial(persisted) && this.encode == encode
    {
      battery := new Battery(DEFAULT_START, DRAIN_RATE, RECHARGE_RATE, DEFAULT_LOW_THRESHOLD);
      this.encode := encode;
      travelTicksRemaining := 0;
      chargingStartedLogSent := false;
      batch := [];
      anomalies := [];
      lastKnownReturning := false;
      stopped := false;
      unsent := persisted;
      collector := [];
      guiReports := [];
      handedOff := [];
    }

    method SendReport(readings: seq<Reading>, anomaliesList: seq<Anomaly>, reachable: bool, now: string, key: string)
      modifies this
      ensures State() == SendReportSpec(old(State()), readings, anomaliesList, reachable, now, key, encode)
    {
      if readings == [] {
        return;
      }
      var rpt := BuildReport(readings, anomaliesList, battery.level, battery.returning, now).value;
      guiReports := guiReports + [rpt];
      var bytes := encode(rpt);
      if reachable {
        collector := collector + [bytes];
      } else {
        unsent := unsent[key := bytes];
      }
    }

    method Flush(input: StepInput)
      modifies this
      ensures State() == Flushed(old(State()), input, encode)
    {
      SendReport(batch, anomalies, input.reachable, input.now, input.key);
      handedOff := handedOff + [batch];
      batch := [];
      anomalies := [];
    }

    /** One iteration of the forward loop. */
    method ForwardIteration(input: StepInput)
      modifies this, battery
      ensures State() == ForwardStep(old(State()), input, encode)
    {
      if stopped {
        return;
      }
      if input.tickDue {
        TickBattery();
        if stopped {
          return;
        }
      }
      HandleModeTransition(input);
      QueueReading(input);
    }

    /** The battery-tick section: charge only after arriving at base; stop at 0%. */
    method TickBattery()
      requires !stopped
      modifies this, battery
      ensures State() == TickPhase(old(State()))
    {
      var charge := false;
      if battery.returning {
        if travelTicksRemaining > 0 {
          travelTicksRemaining := travelTicksRemaining - 1;
        } else {
          if !chargingStartedLogSent {
            chargingStartedLogSent := true;
          }
          charge := true;
        }
      }
      var level := battery.Tick(charge);
      if battery.level <= 0 && !stopped {
        stopped := true;
      }
    }

    /** The status-change section: flush on returning to active, start travel on leaving active. */
    method HandleModeTransition(input: StepInput)
      modifies this
      ensures State() == TransitionPhase(old(State()), input, encode)
    {
      var current := battery.returning;
      if lastKnownReturning && !current {
        chargingStartedLogSent := false;
        if batch != [] {
          Flush(input);
        }
      }
      if !lastKnownReturning && current {
        travelTicksRemaining := TRAVEL_TICKS;
        chargingStartedLogSent := false;
      }
      lastKnownReturning := current;
    }

    /** The queue-reading section: batch the dequeued reading, flush a full batch while active. */
    method QueueReading(input: StepInput)
      modifies this
      ensures State() == BatchPhase(old(State()), input, encode)
    {
      match input.reading {
        case Some(r) =>
          if IsAnomaly(r) {
            anomalies := anomalies + [AnomalyOf(r)];
          }
          if battery.returning {
            batch := batch + [r];
            return;
          }
          batch := batch + [r];
        case None =>
      }
      if |batch| >= FORWARD_BATCH && !battery.returning {
        Flush(input);
      }
    }

    /** One pass of the retry loop over the listed files, with the collector's reachability per attempt. */
    method RetryUnsent(names: seq<string>, reachable: seq<bool>)
      requires |names| == |reachable|
      modifies this
      ensures State() == RetrySpec(old(State()), names, reachable)
    {
      if unsent == map[] {
        return;
      }
      var i := 0;
      while i < |names|
        invariant 0 <= i <= |names|
        invariant State() == old(State()).(outbox := Outbox(unsent, collector))
        invariant RetryPass(Outbox(unsent, collector), names[i..], reachable[i..]) == RetryPass(old(State()).outbox, names, reachable)
        invariant stopped ==> i == 0 && unsent == old(unsent) && collector == old(collector)
      {
        if stopped {
          break;
        }
        var name := names[i];
        assert names[i..][1..] == names[i + 1..] && reachable[i..][1..] == reachable[i + 1..];
        if name in unsent {
          var bytes := unsent[name];
          if reachable[i] {
            collector := collector + [bytes];
            unsent := unsent - {name};
          }
        }
        i := i + 1;
      }
    }

    /** stop(): sets the stop flag; shutting down the listening socket is not modelled. */
    method Stop()
      modifies this
      ensures State() == StopSpec(old(State()))
    {
      stopped := true;
    }

    method ManualDrainBattery(amount: int)
      modifies this, battery
      ensures State() == ManualDrainSpec(old(State()), amount)
    {
      if amount <= 0 {
        return;
      }
      battery.level := if battery.level - amount < 0 then 0 else battery.level - amount;
      if battery.level < battery.lowThreshold && !battery.returning {
        battery.returning := true;
        if travelTicksRemaining == 0 {
          travelTicksRemaining := TRAVEL_TICKS;
          chargingStartedLogSent := false;
        }
      } else if battery.level >= CRITICAL_BATTERY_THRESHOLD && battery.returning {
        battery.returning := false;
        travelTicksRemaining := 0;
      }
    }

    /** Returns Some(false) where the source returns False, None where it returns None. */
    method SetLowBatteryThreshold(newThreshold: int) returns (reply: Option<bool>)
      modifies this, battery
      ensures (State(), reply) == SetThresholdSpec(old(State()), newThreshold)
    {
      if !(THRESHOLD_MIN <= newThreshold <= THRESHOLD_MAX) {
        return Some(false);
      }
      var currentLevel := battery.level;
      var currentlyReturning := battery.returning;
      if !currentlyReturning && currentLevel < newThreshold {
        battery.returning := true;
        if travelTicksRemaining == 0 {
          travelTicksRemaining := TRAVEL_TICKS;
          chargingStartedLogSent := false;
        }
      }
      reply := None;
    }
  }
}
