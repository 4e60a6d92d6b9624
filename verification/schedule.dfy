/**
  The waiting time of the daily reset task, over whole seconds (the hourly
  task's fixed sleep is not modelled). A time of day is the number of seconds
  since midnight in West Africa Time (UTC+1).
 */
module Schedule {

  const DayInSeconds: int := 86400
  /** The daily reset fires at 00:59 WAT. */
  const DailyResetTime: int := 59 * 60

  /**
    The wait computed by the daily reset task at time of day `now`: until 00:59
    today, or until 00:59 tomorrow when that instant has been reached or passed.
   */
  function SecondsUntilDailyReset(now: int): (wait: int)
    requires 0 <= now < DayInSeconds
    ensures 0 < wait <= DayInSeconds
    ensures (now + wait) % DayInSeconds == DailyResetTime
  {
    if now >= DailyResetTime then DailyResetTime + DayInSeconds - now
    else DailyResetTime - now
  }

  /** No earlier instant is a reset instant: the daily reset wakes at the next 00:59, never a later one. */
  lemma DailyResetIsNext(now: int, earlier: int)
    requires 0 <= now < DayInSeconds
    requires 0 < earlier < SecondsUntilDailyReset(now)
    ensures (now + earlier) % DayInSeconds != DailyResetTime
  {
    var t := now + earlier;
    assert 0 < t < 2 * DayInSeconds;
    if t < DayInSeconds {
      assert t % DayInSeconds == t;
    } else {
      assert t % DayInSeconds == t - DayInSeconds;
    }
  }
}
