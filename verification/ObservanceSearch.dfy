/**
 The search for the least day on or after a start among the observances of a
 date, for any schedule of observances: year and choice of Adar give a day, if any.
 */
module ObservanceSearch {

  datatype Option<T> = None | Some(value: T)

  /** Days on which a date is kept, by Hebrew year and choice of Adar. */
  type Schedule = (int, int) -> Option<int>

  const ADAR2ADARB := 0
  const ADAR2ADARA := 1
  const ADAR2BOTH := 2

  predicate IsFlag(flag: int, adarbehave: int) {
    if adarbehave == ADAR2BOTH then flag in {ADAR2ADARA, ADAR2ADARB} else flag == adarbehave
  }

  /** Later years come later, and Adar A does not come after Adar B. */
  ghost predicate Ordered(obs: Schedule) {
    && (forall y, z, f, g :: y < z && obs(y, f).Some? && obs(z, g).Some? ==> obs(y, f).value < obs(z, g).value)
    && (forall y :: obs(y, ADAR2ADARA).Some? && obs(y, ADAR2ADARB).Some? ==>
          obs(y, ADAR2ADARA).value <= obs(y, ADAR2ADARB).value)
  }

  /** The schedule does not depend on the choice of Adar. */
  ghost predicate FlagFree(obs: Schedule) {
    forall y, f, g :: obs(y, f) == obs(y, g)
  }

  /** `o` is an observance of the date in some year. */
  ghost predicate Observance(o: int, obs: Schedule, adarbehave: int) {
    exists hy, flag | IsFlag(flag, adarbehave) :: obs(hy, flag) == Some(o)
  }

  /** Some observance on or after `start` lies in a year up to `last`. */
  ghost predicate KeptBy(last: int, start: int, obs: Schedule, adarbehave: int) {
    exists hy, flag | hy <= last && IsFlag(flag, adarbehave) :: obs(hy, flag).Some? && obs(hy, flag).value >= start
  }

  /** Adar A of a year is tried before its Adar B if both are wanted; else there is one try a year. */
  function NextTry(both: bool, y: int, flag: int): (int, int) {
    if both && flag == ADAR2ADARA then (y, ADAR2ADARB)
    else if both then (y + 1, ADAR2ADARA)
    else (y + 1, flag)
  }

  /** What the search knows: all tries so far were too early, and year `kept` will end it. */
  ghost predicate Searching(y: int, flag: int, kept: int, start: int, obs: Schedule, adarbehave: int, isAdar: bool) {
    && y <= kept && Ordered(obs) && (!isAdar ==> FlagFree(obs))
    && flag in {ADAR2ADARA, ADAR2ADARB} && IsFlag(flag, adarbehave)
    && (adarbehave == ADAR2BOTH && !isAdar ==> flag == ADAR2ADARA)
    && TriedBefore(y, start, obs, adarbehave)
    && (adarbehave == ADAR2BOTH && flag == ADAR2ADARB ==>
          (obs(y, ADAR2ADARA).Some? ==> obs(y, ADAR2ADARA).value < start))
    && forall f :: obs(kept, f).Some? && start <= obs(kept, f).value
  }

  /** Every observance in a year before `y` comes before `start`. */
  ghost predicate TriedBefore(y: int, start: int, obs: Schedule, adarbehave: int) {
    forall hy, flag | hy < y && IsFlag(flag, adarbehave) :: obs(hy, flag).Some? ==> obs(hy, flag).value < start
  }

  lemma SearchStep(y: int, flag: int, kept: int, start: int, obs: Schedule, adarbehave: int, isAdar: bool)
    requires Searching(y, flag, kept, start, obs, adarbehave, isAdar)
    requires obs(y, flag).Some? ==> obs(y, flag).value < start
    ensures var (y', flag') := NextTry(adarbehave == ADAR2BOTH && isAdar, y, flag);
            && Searching(y', flag', kept, start, obs, adarbehave, isAdar)
            && (y' > y || flag' < flag)
  {
    assert obs(kept, flag).Some? && y < kept;
    var (y', flag') := NextTry(adarbehave == ADAR2BOTH && isAdar, y, flag);
    forall hy, f | hy < y' && IsFlag(f, adarbehave)
      ensures obs(hy, f).Some? ==> obs(hy, f).value < start
    {
      assert hy < y || hy == y;
      if hy == y && !isAdar {
        assert obs(y, f) == obs(y, flag);
      }
    }
  }

  /** When the years run out, no observance in range was in time. */
  lemma SearchOver(y: int, flag: int, kept: int, start: int, obs: Schedule, adarbehave: int, isAdar: bool, last: int)
    requires Searching(y, flag, kept, start, obs, adarbehave, isAdar)
    requires last < y
    ensures !KeptBy(last, start, obs, adarbehave)
  {
  }

  /** An observance reached after all earlier ones proved too early is the least in time. */
  lemma SearchFound(y: int, flag: int, kept: int, start: int, obs: Schedule, adarbehave: int, isAdar: bool, last: int)
    requires Searching(y, flag, kept, start, obs, adarbehave, isAdar)
    requires obs(y, flag).Some? && start <= obs(y, flag).value
    ensures Observance(obs(y, flag).value, obs, adarbehave)
    ensures y <= last ==> KeptBy(last, start, obs, adarbehave)
    ensures forall o | Observance(o, obs, adarbehave) && start <= o :: obs(y, flag).value <= o
  {
    forall o | Observance(o, obs, adarbehave) && start <= o
      ensures obs(y, flag).value <= o
    {
      var hy, f :| IsFlag(f, adarbehave) && obs(hy, f) == Some(o);
      if y == hy && !isAdar {
        assert obs(y, f) == obs(y, flag);
      }
    }
  }
}
