/**
 * What the forward loop, the operator commands and the retry pass of the
 * edge node (drone_edge/drone.py) guarantee, stated over the specification
 * functions of module Edge.
 */
module EdgeProperties {
  import opened Wrappers
  import opened Messages
  import opened CommonBattery
  import opened Analytics
  import opened StoreForward
  import opened Edge

  /** The readings an iteration takes off the queue: none once the node has stopped. */
  function Dequeued(s: EdgeState, input: StepInput): seq<Reading>
  {
    if s.stopped || AfterTick(s, input).stopped then []
    else match input.reading case Some(r) => [r] case None => []
  }

  /** The batches handed to the report builder, concatenated. */
  function Flatten(batches: seq<seq<Reading>>): seq<Reading>
  {
    if batches == [] then [] else Flatten(batches[..|batches| - 1]) + batches[|batches| - 1]
  }

  /**
   * The forward loop's invariant between iterations: the anomaly list is
   * exactly the anomaly events of the batch, and while the loop last saw the
   * node active the batch is below the flush size.
   */
  predicate Settled(s: EdgeState)
  {
    s.anomalies == AnomalyLog(s.batch) && (!s.lastKnownReturning ==> |s.batch| < FORWARD_BATCH)
  }

  lemma AnomalyLogOfDequeued(s: EdgeState, input: StepInput)
    ensures AnomalyLog(Dequeued(s, input)) ==
      match input.reading
      case Some(r) => if Dequeued(s, input) != [] && IsAnomaly(r) then [AnomalyOf(r)] else []
      case None => []
  {
    var d := Dequeued(s, input);
    if d != [] {
      assert d[1..] == [];
    }
  }

  /** Flushing a non-empty batch: one report of it, delivered or stored, and an empty batch. */
  lemma FlushedShape(s: EdgeState, input: StepInput, encode: Report -> seq<byte>)
    requires s.batch != []
    ensures var rpt := BuildReport(s.batch, s.anomalies, s.battery.level, s.battery.returning, input.now).value;
      Flushed(s, input, encode) == s.(batch := [], anomalies := [], handedOff := s.handedOff + [s.batch],
                                       guiReports := s.guiReports + [rpt],
                                       outbox := Delivered(s.outbox, encode(rpt), input.reachable, input.key))
  {
  }

  /** Mode-transition handling builds at most one report, an "active" one, and leaves the batch empty when it does. */
  lemma TransitionReports(t: EdgeState, input: StepInput, encode: Report -> seq<byte>)
    ensures var u := TransitionPhase(t, input, encode);
      && u.battery == t.battery && u.stopped == t.stopped
      && ((u.guiReports == t.guiReports && u.handedOff == t.handedOff && u.batch == t.batch && u.anomalies == t.anomalies)
          || (u.batch == [] && u.anomalies == [] && !u.battery.returning && t.batch != []
              && u.handedOff == t.handedOff + [t.batch]
              && |u.guiReports| == |t.guiReports| + 1 && u.guiReports[..|t.guiReports|] == t.guiReports
              && u.guiReports[|t.guiReports|].status == Active))
  {
    if t.lastKnownReturning && !t.battery.returning && t.batch != [] {
      FlushedShape(t.(chargingStartedLogSent := false), input, encode);
    }
  }

  /** Queueing builds at most one report, an "active" one, and none when it starts from an empty batch. */
  lemma BatchReports(u: EdgeState, input: StepInput, encode: Report -> seq<byte>)
    ensures var v := BatchPhase(u, input, encode);
      && ((v.guiReports == u.guiReports && v.handedOff == u.handedOff)
          || (u.batch != [] && !u.battery.returning
              && |v.handedOff| == |u.handedOff| + 1 && v.handedOff[..|u.handedOff|] == u.handedOff
              && |v.guiReports| == |u.guiReports| + 1 && v.guiReports[..|u.guiReports|] == u.guiReports
              && v.guiReports[|u.guiReports|].status == Active))
  {
    var w := match input.reading
      case Some(r) => u.(batch := u.batch + [r], anomalies := if IsAnomaly(r) then u.anomalies + [AnomalyOf(r)] else u.anomalies)
      case None => u;
    if |w.batch| >= FORWARD_BATCH && !w.battery.returning {
      FlushedShape(w, input, encode);
    }
  }

  /** The tick charges exactly when the node is returning and has arrived; nothing after the tick touches the battery. */
  lemma TickChargesOnlyAtBase(s: EdgeState, input: StepInput, encode: Report -> seq<byte>)
    requires !s.stopped && input.tickDue
    ensures ForwardStep(s, input, encode).battery == Ticked(s.battery, s.battery.returning && s.travelTicksRemaining == 0)
  {
  }

  /**
   * While returning and still travelling (with the loop already aware of
   * it), a due tick drains the battery and takes exactly one tick off the
   * countdown.
   */
  lemma TravelCountdown(s: EdgeState, input: StepInput, encode: Report -> seq<byte>)
    requires !s.stopped && input.tickDue
    requires s.battery.returning && s.travelTicksRemaining > 0 && s.lastKnownReturning
    ensures var r := ForwardStep(s, input, encode);
      && r.battery.level == TickedLevel(s.battery, false)
      && r.travelTicksRemaining == s.travelTicksRemaining - 1
  {
  }

  /**
   * When an operator command has raised `returning` (and set the countdown)
   * since the loop last looked, the loop's own active-to-returning handling
   * restarts the countdown at 2 after this tick has already used one of it.
   */
  lemma OperatorReturnRestartsCountdown(s: EdgeState, input: StepInput, encode: Report -> seq<byte>)
    requires !s.stopped && input.tickDue && s.battery.returning && !s.lastKnownReturning
    ensures var r := ForwardStep(s, input, encode);
      !r.stopped && r.battery.returning ==> r.travelTicksRemaining == TRAVEL_TICKS
  {
  }

  /**
   * The node stops exactly when a due tick leaves the level at 0 or below,
   * and then leaves the loop before touching the batch or sending anything.
   */
  lemma ZeroLevelStops(s: EdgeState, input: StepInput, encode: Report -> seq<byte>)
    requires !s.stopped
    ensures var r := ForwardStep(s, input, encode);
      && (r.stopped <==> input.tickDue && TickedLevel(s.battery, ChargesThisTick(s)) <= 0)
      && (r.stopped ==> r.batch == s.batch && r.anomalies == s.anomalies && r.outbox == s.outbox
                        && r.guiReports == s.guiReports && r.handedOff == s.handedOff
                        && r.lastKnownReturning == s.lastKnownReturning)
  {
  }

  /** A stopped node's loop has ended: an iteration changes nothing. */
  lemma StoppedIsFinal(s: EdgeState, input: StepInput, encode: Report -> seq<byte>)
    requires s.stopped
    ensures ForwardStep(s, input, encode) == s
  {
  }

  /**
   * Active to returning: the travel countdown starts at 2, the
   * charging-started flag is cleared, and the change is recorded.
   */
  lemma ActiveToReturning(s: EdgeState, input: StepInput, encode: Report -> seq<byte>)
    requires !s.stopped && !AfterTick(s, input).stopped
    requires !s.lastKnownReturning && AfterTick(s, input).battery.returning
    ensures var r := ForwardStep(s, input, encode);
      r.travelTicksRemaining == TRAVEL_TICKS && !r.chargingStartedLogSent && r.lastKnownReturning
  {
  }

  /**
   * While returning nothing is flushed: the dequeued reading and its anomaly
   * event are queued behind the batch, whatever its size.
   */
  lemma ReturningDefersFlush(s: EdgeState, input: StepInput, encode: Report -> seq<byte>)
    requires !s.stopped && !AfterTick(s, input).stopped && AfterTick(s, input).battery.returning
    ensures var r := ForwardStep(s, input, encode);
      && r.outbox == s.outbox && r.guiReports == s.guiReports && r.handedOff == s.handedOff
      && r.batch == s.batch + Dequeued(s, input)
      && r.anomalies == s.anomalies + AnomalyLog(Dequeued(s, input))
  {
    AnomalyLogOfDequeued(s, input);
  }

  /**
   * Returning to active flushes a non-empty batch as one report, however
   * small it is, then starts a new batch with the dequeued reading.
   */
  lemma ReturnToActiveFlushes(s: EdgeState, input: StepInput, encode: Report -> seq<byte>)
    requires !s.stopped && !AfterTick(s, input).stopped
    requires s.lastKnownReturning && !AfterTick(s, input).battery.returning && s.batch != []
    ensures var t := AfterTick(s, input);
      var rpt := BuildReport(s.batch, s.anomalies, t.battery.level, false, input.now).value;
      var r := ForwardStep(s, input, encode);
      && r.guiReports == s.guiReports + [rpt]
      && r.outbox == Delivered(s.outbox, encode(rpt), input.reachable, input.key)
      && r.handedOff == s.handedOff + [s.batch]
      && r.batch == Dequeued(s, input)
      && r.anomalies == AnomalyLog(Dequeued(s, input))
      && !r.chargingStartedLogSent && !r.lastKnownReturning
  {
    AnomalyLogOfDequeued(s, input);
  }

  /**
   * Active batching: the dequeued reading joins the batch; a batch that
   * reaches 5 is reported and cleared together with its anomalies, a smaller
   * one is kept and nothing is sent.
   */
  lemma ActiveBatching(s: EdgeState, input: StepInput, encode: Report -> seq<byte>)
    requires !s.stopped && !AfterTick(s, input).stopped
    requires !s.lastKnownReturning && !AfterTick(s, input).battery.returning
    ensures var t := AfterTick(s, input);
      var b := s.batch + Dequeued(s, input);
      var a := s.anomalies + AnomalyLog(Dequeued(s, input));
      var r := ForwardStep(s, input, encode);
      if |b| >= FORWARD_BATCH then
        && r.batch == [] && r.anomalies == []
        && r.handedOff == s.handedOff + [b]
        && r.guiReports == s.guiReports + [BuildReport(b, a, t.battery.level, false, input.now).value]
        && r.outbox == Delivered(s.outbox, encode(BuildReport(b, a, t.battery.level, false, input.now).value),
                                 input.reachable, input.key)
      else
        && r.batch == b && r.anomalies == a
        && r.handedOff == s.handedOff && r.guiReports == s.guiReports && r.outbox == s.outbox
  {
    AnomalyLogOfDequeued(s, input);
    var t := AfterTick(s, input);
    var b := s.batch + Dequeued(s, input);
    var a := s.anomalies + AnomalyLog(Dequeued(s, input));
    assert TransitionPhase(t, input, encode) == t;
    var v := t.(batch := b, anomalies := a);
    match input.reading {
      case None =>
        assert b == s.batch && a == s.anomalies;
        assert v == t;
      case Some(r) =>
        assert Dequeued(s, input) == [r];
        assert a == if IsAnomaly(r) then s.anomalies + [AnomalyOf(r)] else s.anomalies;
        assert BatchPhase(t, input, encode) == FlushIfFull(v, input, encode);
    }
    assert ForwardStep(s, input, encode) == FlushIfFull(v, input, encode);
    if |b| >= FORWARD_BATCH {
      FlushedShape(v, input, encode);
    }
  }

  lemma FlattenAppend(batches: seq<seq<Reading>>, b: seq<Reading>)
    ensures Flatten(batches + [b]) == Flatten(batches) + b
  {
    assert (batches + [b])[..|batches|] == batches;
  }

  /**
   * No reading is lost or duplicated: the readings ever handed to the report
   * builder followed by the current batch grow by exactly the reading this
   * iteration dequeued.
   */
  lemma StepConservesReadings(s: EdgeState, input: StepInput, encode: Report -> seq<byte>)
    ensures var r := ForwardStep(s, input, encode);
      Flatten(r.handedOff) + r.batch == Flatten(s.handedOff) + s.batch + Dequeued(s, input)
  {
    var d := Dequeued(s, input);
    if !s.stopped && !AfterTick(s, input).stopped {
      var t := AfterTick(s, input);
      var u := TransitionPhase(t, input, encode);
      assert Flatten(u.handedOff) + u.batch == Flatten(s.handedOff) + s.batch by {
        if s.lastKnownReturning && !t.battery.returning && t.batch != [] {
          FlattenAppend(s.handedOff, s.batch);
        }
      }
      var v := u.(batch := u.batch + d);
      assert Flatten(v.handedOff) + v.batch == Flatten(s.handedOff) + s.batch + d;
      if |v.batch| >= FORWARD_BATCH && !v.battery.returning {
        FlattenAppend(v.handedOff, v.batch);
      }
    }
  }

  /**
   * An iteration builds at most one report, one per batch handed off, and
   * every report the forward loop builds says "active".
   */
  lemma StepReportsActive(s: EdgeState, input: StepInput, encode: Report -> seq<byte>)
    ensures var r := ForwardStep(s, input, encode);
      && s.guiReports <= r.guiReports && s.handedOff <= r.handedOff
      && |r.guiReports| - |s.guiReports| == |r.handedOff| - |s.handedOff| <= 1
      && forall i :: |s.guiReports| <= i < |r.guiReports| ==> r.guiReports[i].status == Active
  {
    if !s.stopped && !AfterTick(s, input).stopped {
      var t := AfterTick(s, input);
      var u := TransitionPhase(t, input, encode);
      TransitionReports(t, input, encode);
      BatchReports(u, input, encode);
      assert ForwardStep(s, input, encode) == BatchPhase(u, input, encode);
    }
  }

  /** A fresh node is settled. */
  lemma InitialSettled(persisted: map<string, seq<byte>>)
    ensures Settled(Initial(persisted))
  {
  }

  /**
   * Each iteration keeps the loop's invariant, and afterwards (unless the
   * node stopped) the loop's view of the mode is the battery's.
   */
  lemma StepKeepsSettled(s: EdgeState, input: StepInput, encode: Report -> seq<byte>)
    requires Settled(s)
    ensures var r := ForwardStep(s, input, encode);
      && Settled(r)
      && (!s.stopped && !r.stopped ==> r.lastKnownReturning == r.battery.returning)
  {
    if !s.stopped && !AfterTick(s, input).stopped {
      var t := AfterTick(s, input);
      var u := TransitionPhase(t, input, encode);
      TransitionReports(t, input, encode);
      assert Settled(u) && u.lastKnownReturning == u.battery.returning;
      BatchKeepsSettled(u, input, encode);
    }
  }

  /** Queueing keeps the invariant once the loop's view of the mode is current. */
  lemma BatchKeepsSettled(u: EdgeState, input: StepInput, encode: Report -> seq<byte>)
    requires Settled(u) && u.lastKnownReturning == u.battery.returning
    ensures var v := BatchPhase(u, input, encode);
      Settled(v) && v.lastKnownReturning == v.battery.returning && v.stopped == u.stopped
  {
    match input.reading {
      case Some(rd) => AnomalyLogAppend(u.batch, rd);
      case None =>
    }
  }

  /** The operator commands and the retry pass leave the batch, its anomalies and the loop's view alone. */
  lemma OperatorsKeepSettled(s: EdgeState, amount: int, threshold: int, names: seq<string>, reachable: seq<bool>)
    requires Settled(s) && |names| == |reachable|
    ensures Settled(ManualDrainSpec(s, amount))
    ensures Settled(SetThresholdSpec(s, threshold).0)
    ensures Settled(RetrySpec(s, names, reachable))
  {
  }

  /**
   * manual_drain_battery: a non-positive amount changes nothing; otherwise
   * the level drops by the amount, floored at 0; crossing below the low
   * threshold while active starts returning (and the countdown only if none
   * is running); reaching 90 or more while returning ends returning and the
   * countdown; nothing but the battery level, its flag, the countdown and
   * the charging-started flag changes.
   */
  lemma ManualDrainEffect(s: EdgeState, amount: int)
    ensures amount <= 0 ==> ManualDrainSpec(s, amount) == s
    ensures var r := ManualDrainSpec(s, amount);
      amount > 0 ==>
        && r.battery.level >= 0
        && (r.battery.level == s.battery.level - amount || 0 == r.battery.level > s.battery.level - amount)
        && (r.battery.level < s.battery.lowThreshold && !s.battery.returning ==>
              r.battery.returning
              && (s.travelTicksRemaining == 0 ==> r.travelTicksRemaining == TRAVEL_TICKS && !r.chargingStartedLogSent)
              && (s.travelTicksRemaining != 0 ==> r.travelTicksRemaining == s.travelTicksRemaining))
        && (r.battery.level >= CRITICAL_BATTERY_THRESHOLD && s.battery.returning ==>
              !r.battery.returning && r.travelTicksRemaining == 0)
        && (s.battery.lowThreshold <= r.battery.level < CRITICAL_BATTERY_THRESHOLD ==>
              r.battery.returning == s.battery.returning && r.travelTicksRemaining == s.travelTicksRemaining)
    ensures var r := ManualDrainSpec(s, amount);
      r == s.(battery := r.battery, travelTicksRemaining := r.travelTicksRemaining,
              chargingStartedLogSent := r.chargingStartedLogSent)
      && r.battery == s.battery.(level := r.battery.level, returning := r.battery.returning)
    ensures var r := ManualDrainSpec(s, amount);
      amount > 0 ==>
        && r.battery.returning == Reevaluated(s.battery.returning, r.battery.level, s.battery.lowThreshold)
        && (r.battery.returning == s.battery.returning ==>
              r.travelTicksRemaining == s.travelTicksRemaining && r.chargingStartedLogSent == s.chargingStartedLogSent)
  {
  }

  /**
   * set_low_battery_threshold: a value outside [5, 80] is rejected with
   * False and no change; any other value returns None and never changes the
   * stored low threshold or the level; it raises `returning` exactly when
   * the node is active with a level below the new value (starting the
   * countdown only if none is running), and otherwise changes nothing.
   */
  lemma SetThresholdEffect(s: EdgeState, t: int)
    ensures !(THRESHOLD_MIN <= t <= THRESHOLD_MAX) ==> SetThresholdSpec(s, t) == (s, Some(false))
    ensures var (r, reply) := SetThresholdSpec(s, t);
      THRESHOLD_MIN <= t <= THRESHOLD_MAX ==>
        && reply == None
        && r.battery.lowThreshold == s.battery.lowThreshold
        && r.battery.level == s.battery.level
        && (r.battery.returning <==> s.battery.returning || s.battery.level < t)
        && (r != s ==> !s.battery.returning && s.battery.level < t)
        && (!s.battery.returning && s.battery.level < t ==>
              (s.travelTicksRemaining == 0 ==> r.travelTicksRemaining == TRAVEL_TICKS && !r.chargingStartedLogSent)
              && (s.travelTicksRemaining != 0 ==> r.travelTicksRemaining == s.travelTicksRemaining))
    ensures var r := SetThresholdSpec(s, t).0;
      r == s.(battery := s.battery.(returning := r.battery.returning),
              travelTicksRemaining := r.travelTicksRemaining,
              chargingStartedLogSent := r.chargingStartedLogSent)
  {
  }

  /**
   * Because the threshold is never stored, the next tick still judges the
   * level against the old threshold: a node that a new threshold did not
   * send home stays active on a drain tick that keeps the level at or above
   * the old threshold, even if it is below the new one.
   */
  lemma NewThresholdIgnoredByTick(s: EdgeState, t: int)
    requires THRESHOLD_MIN <= t <= THRESHOLD_MAX
    requires !s.battery.returning && s.battery.level >= t
    requires s.battery.level - s.battery.drainRate >= s.battery.lowThreshold
    ensures var r := SetThresholdSpec(s, t).0;
      !Ticked(r.battery, false).returning
  {
  }

  /** A retry pass touches only the unsent directory and the collector, and does nothing once stopped. */
  lemma RetryTouchesOnlyOutbox(s: EdgeState, names: seq<string>, reachable: seq<bool>)
    requires |names| == |reachable|
    ensures var r := RetrySpec(s, names, reachable);
      && r == s.(outbox := r.outbox)
      && (s.stopped ==> r == s)
      && Retained(s.outbox.unsent, r.outbox.unsent)
      && s.outbox.collector <= r.outbox.collector
  {
    if !s.stopped && s.outbox.unsent != map[] {
      RetryPassSound(s.outbox, names, reachable);
    }
  }

  /**
   * stop(): once the stop flag is raised, neither the forward loop nor the
   * retry pass does anything more, and the loop's invariant still holds.
   */
  lemma StopHaltsLoops(s: EdgeState, input: StepInput, names: seq<string>, reachable: seq<bool>,
                       encode: Report -> seq<byte>)
    requires |names| == |reachable|
    ensures var r := StopSpec(s);
      && ForwardStep(r, input, encode) == r
      && RetrySpec(r, names, reachable) == r
      && (Settled(s) ==> Settled(r))
  {
  }

  /** An iteration with a tick due and nothing to dequeue. */
  const IDLE: StepInput := StepInput(true, None, false, "", "")

  /** `n` idle iterations. */
  function Idle(s: EdgeState, n: nat, encode: Report -> seq<byte>): EdgeState
  {
    if n == 0 then s else ForwardStep(Idle(s, n - 1, encode), IDLE, encode)
  }

  lemma {:induction false} IdleActivePhase(persisted: map<string, seq<byte>>, encode: Report -> seq<byte>, k: nat)
    requires k <= 26
    ensures Idle(Initial(persisted), k, encode) == Initial(persisted).(battery := Charge(100 - 3 * k, 3, 10, 20, false))
  {
    if k > 0 {
      IdleActivePhase(persisted, encode, k - 1);
    }
  }

  /**
   * The default node, left idle: active at 100 - 3k for 26 ticks; tick 27
   * takes the level to 19, starts returning and the 2-tick countdown; ticks
   * 28 and 29 still drain while travelling; tick 30 charges by 10.
   */
  lemma DefaultReturnTrip(persisted: map<string, seq<byte>>, encode: Report -> seq<byte>)
    ensures forall k :: 0 <= k <= 26 ==> !Idle(Initial(persisted), k, encode).battery.returning
    ensures var s := Idle(Initial(persisted), 27, encode);
      s.battery == Charge(19, 3, 10, 20, true) && s.travelTicksRemaining == 2 && !s.stopped
    ensures var s := Idle(Initial(persisted), 28, encode);
      s.battery.level == 16 && s.travelTicksRemaining == 1
    ensures var s := Idle(Initial(persisted), 29, encode);
      s.battery.level == 13 && s.travelTicksRemaining == 0
    ensures var s := Idle(Initial(persisted), 30, encode);
      s.battery.level == 23 && s.battery.returning && s.chargingStartedLogSent
  {
    forall k | 0 <= k <= 26 ensures !Idle(Initial(persisted), k, encode).battery.returning {
      IdleActivePhase(persisted, encode, k);
    }
    IdleActivePhase(persisted, encode, 26);
  }
}
