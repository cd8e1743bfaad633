/**
 * A server's monotonic clock: virtual time elapsed since the last reset,
 * scaled by the server's drift, plus the value the time model chose at reset.
 * Global virtual time is passed in as `globalNow`; it never goes backwards,
 * so it is never earlier than the time of the last reset.
 */
module MonotonicClocks {

  /**
   * The clock's drift, fixed when the clock is made. Its definition is not
   * part of this model: it is two uninterpreted functions, one scaling an
   * elapsed duration and one scaling a requested sleep or timeout.
   */
  datatype Drift = Drift(elapsed: nat -> nat, sleepOrTimeout: nat -> nat)

  /** A drift that never runs backwards: a longer real duration is never shorter on the clock. */
  ghost predicate NonDecreasing(drift: Drift) {
    forall d, e :: d <= e ==> drift.elapsed(d) <= drift.elapsed(e)
  }

  class MonotonicClock {
    const drift: Drift
    var lastReset: nat
    var init: nat

    /** `init` is the value the time model hands out for a fresh clock. */
    constructor (drift: Drift, globalNow: nat, init: nat)
      ensures this.drift == drift
      ensures lastReset == globalNow && this.init == init
      ensures Now(globalNow) == drift.elapsed(0) + init
    {
      this.drift := drift;
      lastReset := globalNow;
      this.init := init;
    }

    /** Restarts the clock: it reads drift(0) + init again right away, and the drift is kept. */
    method Reset(globalNow: nat, init: nat)
      modifies this
      ensures lastReset == globalNow && this.init == init
      ensures Now(globalNow) == drift.elapsed(0) + init
    {
      this.init := init;
      lastReset := globalNow;
    }

    function ElapsedSinceLastReset(globalNow: nat): (d: nat)
      reads this
      requires lastReset <= globalNow
      ensures lastReset + d == globalNow
    {
      globalNow - lastReset
    }

    /**
     * The clock's reading: never below the reset value, and exactly the
     * drift's reading of no elapsed time at the moment of the reset.
     */
    function Now(globalNow: nat): (n: nat)
      reads this
      requires lastReset <= globalNow
      ensures n >= init
      ensures globalNow == lastReset ==> n == drift.elapsed(0) + init
    {
      drift.elapsed(ElapsedSinceLastReset(globalNow)) + init
    }

    /** The clock's length of a sleep or timeout of `d`; it reads no variable state of the clock. */
    function SleepOrTimeout(d: nat): nat {
      drift.sleepOrTimeout(d)
    }

    /** The global time at which a sleep or timeout of `d` started at `globalNow` fires. */
    function AfterGlobalTime(globalNow: nat, d: nat): (deadline: nat)
      ensures deadline >= globalNow
      ensures deadline == globalNow + drift.sleepOrTimeout(d)
    {
      globalNow + SleepOrTimeout(d)
    }
  }

  /** With a drift that never runs backwards, the clock never goes backwards between resets. */
  lemma NowNeverRegresses(clock: MonotonicClock, g1: nat, g2: nat)
    requires NonDecreasing(clock.drift)
    requires clock.lastReset <= g1 <= g2
    ensures clock.Now(g1) <= clock.Now(g2)
  {
    assert clock.drift.elapsed(g1 - clock.lastReset) <= clock.drift.elapsed(g2 - clock.lastReset);
  }

  /** Two clocks with the same drift agree on every sleep, whatever their reset history. */
  lemma SleepDependsOnlyOnDrift(a: MonotonicClock, b: MonotonicClock, d: nat)
    requires a.drift == b.drift
    ensures a.SleepOrTimeout(d) == b.SleepOrTimeout(d)
  {
  }
}
