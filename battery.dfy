/**
 * The hysteretic battery (common/battery.py). A tick charges or drains the
 * level inside [0, 100]; the `returning` flag is raised when the level falls
 * below the low threshold and lowered only once the level is back at the
 * critical threshold (90), so it does not oscillate near either boundary.
 */
module CommonBattery {
  const CRITICAL_BATTERY_THRESHOLD: int := 90
  const RECHARGE_RATE: int := 10
  const DRAIN_RATE: int := 3
  const DEFAULT_START: int := 100
  const DEFAULT_LOW_THRESHOLD: int := 20
  const MAX_LEVEL: int := 100

  /** The battery's state as a value. */
  datatype Charge = Charge(level: int, drainRate: int, rechargeRate: int, lowThreshold: int, returning: bool)

  /** The battery a fresh constructor call builds. */
  function Fresh(start: int, drain: int, recharge: int, low: int): Charge
  {
    Charge(start, drain, recharge, low, false)
  }

  /** A level in [0, 100] and non-negative rates: the state every tick keeps. */
  predicate InBounds(c: Charge)
  {
    0 <= c.level <= MAX_LEVEL && c.drainRate >= 0 && c.rechargeRate >= 0
  }

  /** The level a tick produces, before `returning` is re-evaluated. */
  function TickedLevel(c: Charge, charging: bool): (r: int)
    ensures charging ==> r <= MAX_LEVEL && (r == c.level + c.rechargeRate || MAX_LEVEL == r < c.level + c.rechargeRate)
    ensures !charging ==> r >= 0 && (r == c.level - c.drainRate || 0 == r > c.level - c.drainRate)
  {
    if charging then
      (if c.level + c.rechargeRate > MAX_LEVEL then MAX_LEVEL else c.level + c.rechargeRate)
    else
      (if c.level - c.drainRate < 0 then 0 else c.level - c.drainRate)
  }

  /** The `returning` flag re-evaluated against a new level. */
  function Reevaluated(returning: bool, level: int, low: int): (r: bool)
    ensures !returning && r ==> level < low
    ensures returning && !r ==> level >= CRITICAL_BATTERY_THRESHOLD
    ensures low <= level < CRITICAL_BATTERY_THRESHOLD ==> r == returning
  {
    if !returning && level < low then true
    else if returning && level >= CRITICAL_BATTERY_THRESHOLD then false
    else returning
  }

  /** One tick of the battery as a state transition. */
  function Ticked(c: Charge, charging: bool): (r: Charge)
    ensures r.drainRate == c.drainRate && r.rechargeRate == c.rechargeRate && r.lowThreshold == c.lowThreshold
    ensures InBounds(c) ==> InBounds(r)
  {
    var level := TickedLevel(c, charging);
    c.(level := level, returning := Reevaluated(c.returning, level, c.lowThreshold))
  }

  /** `n` ticks without charging. */
  function DrainTicks(c: Charge, n: nat): Charge
  {
    if n == 0 then c else Ticked(DrainTicks(c, n - 1), false)
  }

  /**
   * Hysteresis: `returning` rises only below the low threshold, falls only at
   * or above the critical threshold, and holds in between.
   */
  lemma TickHysteresis(c: Charge, charging: bool)
    ensures var r := Ticked(c, charging);
      && (!c.returning && r.returning ==> r.level < c.lowThreshold)
      && (c.returning && !r.returning ==> r.level >= CRITICAL_BATTERY_THRESHOLD)
      && (c.lowThreshold <= r.level < CRITICAL_BATTERY_THRESHOLD ==> r.returning == c.returning)
      && (!c.returning && r.level < c.lowThreshold ==> r.returning)
      && (c.returning && r.level >= CRITICAL_BATTERY_THRESHOLD ==> !r.returning)
  {
  }

  /**
   * With the defaults (start 100, drain 3, low 20) and no charging, the node
   * stays active for 26 ticks at level 100 - 3k, and tick 27 brings the level
   * to 19 and raises `returning` for the first time.
   */
  lemma {:induction false} DefaultDrainSchedule(k: nat)
    requires k <= 26
    ensures DrainTicks(Fresh(DEFAULT_START, DRAIN_RATE, RECHARGE_RATE, DEFAULT_LOW_THRESHOLD), k)
         == Charge(100 - 3 * k, 3, 10, 20, false)
    ensures DrainTicks(Fresh(DEFAULT_START, DRAIN_RATE, RECHARGE_RATE, DEFAULT_LOW_THRESHOLD), 27)
         == Charge(19, 3, 10, 20, true)
  {
    if k > 0 {
      DefaultDrainSchedule(k - 1);
    } else {
      DefaultDrainSchedule26();
    }
  }

  /** The 26-tick prefix of the default schedule, stepped one tick at a time. */
  lemma {:induction false} DefaultDrainSchedule26()
    ensures DrainTicks(Fresh(DEFAULT_START, DRAIN_RATE, RECHARGE_RATE, DEFAULT_LOW_THRESHOLD), 26)
         == Charge(22, 3, 10, 20, false)
  {
    var c0 := Fresh(DEFAULT_START, DRAIN_RATE, RECHARGE_RATE, DEFAULT_LOW_THRESHOLD);
    var k := 0;
    while k < 26
      invariant k <= 26
      invariant DrainTicks(c0, k) == Charge(100 - 3 * k, 3, 10, 20, false)
    {
      k := k + 1;
    }
  }

  class Battery {
    var level: int
    var drainRate: int
    var rechargeRate: int
    var lowThreshold: int
    var returning: bool

    /** The state as a value. */
    function Snapshot(): Charge
      reads this
    {
      Charge(level, drainRate, rechargeRate, lowThreshold, returning)
    }

    /**
     * Stores the arguments verbatim and starts active (the defaults are
     * start 100, drain 3, recharge 10, low threshold 20).
     */
    constructor (start: int, drain: int, recharge: int, low: int)
      ensures Snapshot() == Fresh(start, drain, recharge, low)
    {
      level := start;
      drainRate := drain;
      rechargeRate := recharge;
      lowThreshold := low;
      returning := false;
    }

    /** One time unit: charge or drain, then re-evaluate `returning`; returns the new level. */
    method Tick(charging: bool) returns (r: int)
      modifies this`level, this`returning
      ensures Snapshot() == Ticked(old(Snapshot()), charging)
      ensures r == level
    {
      if charging {
        level := if level + rechargeRate > MAX_LEVEL then MAX_LEVEL else level + rechargeRate;
      } else {
        level := if level - drainRate < 0 then 0 else level - drainRate;
      }
      if !returning && level < lowThreshold {
        returning := true;
      } else if returning && level >= CRITICAL_BATTERY_THRESHOLD {
        returning := false;
      }
      r := level;
    }
  }
}
