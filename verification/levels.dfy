/** The per-level LED timing table of the reaction tester. */
module Levels {
  /** On-time used for any level missing from the table. */
  const DefaultLedTime: nat := 1000

  /** `LEVEL_TIMINGS`: level number to LED on-time in milliseconds. */
  const LevelTimings: map<int, nat> := map[1 := 1000, 2 := 900, 3 := 800, 4 := 500, 5 := 300]

  /** `LEVEL_TIMINGS.get(level, 1000)`: how long an LED stays lit, and how long
      the pause before the next one is, on the given level. */
  function LedTime(level: int): (ms: nat)
    ensures 300 <= ms <= 1000
    ensures level < 1 || level > 5 ==> ms == DefaultLedTime
  {
    if level in LevelTimings then LevelTimings[level] else DefaultLedTime
  }

  /** The table's five entries. */
  lemma LedTimeTable()
    ensures LedTime(1) == 1000 && LedTime(2) == 900 && LedTime(3) == 800
    ensures LedTime(4) == 500 && LedTime(5) == 300
  {
  }

  /** A higher level never gives a longer on-time. */
  lemma HigherLevelIsFaster(a: int, b: int)
    requires 1 <= a <= b <= 5
    ensures LedTime(b) <= LedTime(a)
  {
  }
}
