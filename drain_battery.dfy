/**
 * The drain-only battery of the early prototype (battery.py): a level that
 * loses `drainRate` percent per tick and never goes below zero.
 */
module DrainOnlyBattery {
  const DEFAULT_START: int := 100
  const DEFAULT_DRAIN_RATE: int := 1

  /** The level one tick leaves behind: `level - rate`, floored at 0. */
  function Drained(level: int, rate: int): (r: int)
    ensures r >= 0 && r >= level - rate
    ensures r == 0 || r == level - rate
    ensures rate >= 0 && level >= 0 ==> r <= level
  {
    if level - rate < 0 then 0 else level - rate
  }

  /** The level after `n` ticks. */
  function AfterTicks(level: int, rate: int, n: nat): int
  {
    if n == 0 then level else Drained(AfterTicks(level, rate, n - 1), rate)
  }

  /**
   * From a non-negative level, `n` ticks take `n * rate` off the level,
   * floored at 0 (a negative rate only ever raises the level).
   */
  lemma {:induction false} AfterTicksClosedForm(level: int, rate: int, n: nat)
    requires level >= 0
    ensures AfterTicks(level, rate, n) == if level - n * rate < 0 then 0 else level - n * rate
  {
    if n > 0 {
      AfterTicksClosedForm(level, rate, n - 1);
      var before := level - (n - 1) * rate;
      assert level - n * rate == before - rate by {
        assert n * rate == (n - 1) * rate + rate;
      }
      if before < 0 {
        assert AfterTicks(level, rate, n) == Drained(0, rate) == 0;
      } else {
        assert AfterTicks(level, rate, n) == Drained(before, rate);
      }
    }
  }

  class Battery {
    var level: int
    var drainRate: int

    /** Stores `start` and `drainRate` verbatim; they default to 100 and 1. */
    constructor (start: int := DEFAULT_START, drainRate: int := DEFAULT_DRAIN_RATE)
      ensures level == start && this.drainRate == drainRate
    {
      level := start;
      this.drainRate := drainRate;
    }

    /** One tick: drains the level, returns the new level. */
    method Tick() returns (r: int)
      modifies this`level
      ensures level == Drained(old(level), drainRate)
      ensures r == level
      ensures drainRate == old(drainRate)
    {
      level := if level - drainRate < 0 then 0 else level - drainRate;
      r := level;
    }
  }
}
