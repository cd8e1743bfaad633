/**
 * TrueTime, after the Spanner paper: the service reports an interval
 * [earliest, latest] that brackets true time, and answers whether a time has
 * definitely passed (After) or definitely not arrived yet (Before).
 * The service's own Now() is not modelled: its interval is a parameter.
 */
module TrueTime {

  datatype TTInterval = TTInterval(earliest: nat, latest: nat)

  ghost predicate WellFormed(now: TTInterval) {
    now.earliest <= now.latest
  }

  /** `t` has definitely passed. */
  predicate After(now: TTInterval, t: nat) {
    now.earliest > t
  }

  /** `t` has definitely not arrived. */
  predicate Before(now: TTInterval, t: nat) {
    now.latest < t
  }

  /** A time cannot both have definitely passed and definitely not arrived. */
  lemma NotBothAfterAndBefore(now: TTInterval, t: nat)
    requires WellFormed(now)
    ensures !(After(now, t) && Before(now, t))
  {
  }

  /** When the interval brackets true time, After and Before are sound. */
  lemma AnswersAreSound(now: TTInterval, trueTime: nat, t: nat)
    requires now.earliest <= trueTime <= now.latest
    ensures After(now, t) ==> t < trueTime
    ensures Before(now, t) ==> trueTime < t
  {
  }

  /** What has passed stays passed for every earlier time; what has not arrived, for every later one. */
  lemma AnswersAreMonotone(now: TTInterval, t: nat, u: nat)
    requires u <= t
    ensures After(now, t) ==> After(now, u)
    ensures Before(now, u) ==> Before(now, t)
  {
  }
}
