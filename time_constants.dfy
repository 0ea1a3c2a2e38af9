/** The time units of `TimeConstants`, each as its number of milliseconds. */
module TimeConstants {

  const MSEC: int := 1
  const SEC: int := 1000
  const MIN: int := 60000
  const HOUR: int := 3600000
  const DAY: int := 86400000

  /** `@Unit`: the five values a unit parameter is declared to take. */
  type Unit = u: int | u == MSEC || u == SEC || u == MIN || u == HOUR || u == DAY witness MSEC

  /** Each constant is the previous one times the number of such units in the next. */
  lemma UnitLadder()
    ensures MSEC == 1
    ensures SEC == 1000 * MSEC
    ensures MIN == 60 * SEC
    ensures HOUR == 60 * MIN
    ensures DAY == 24 * HOUR
  {
  }

  /** Every unit is a positive number of milliseconds, so dividing by one is defined. */
  lemma UnitPositive(u: Unit)
    ensures u >= 1
    ensures u == MSEC || u == SEC || u == MIN || u == HOUR || u == DAY
  {
  }
}
