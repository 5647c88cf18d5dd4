/**
 * The `TimerChallenge` component: a countdown in milliseconds, decremented by
 * an interval every 10 ms and reset to the full time once it runs out.
 * The interval is modelled by whether it is registered; each firing is an
 * explicit `Tick` step and each render-time expiry check a `Render` step.
 */
module TimerChallenge {

  /** Milliseconds per second. */
  const MillisPerSecond := 1000

  /** How much one firing of the interval removes, in milliseconds. */
  const TickMillis := 10

  /** The full countdown for a challenge of `targetTime` seconds. */
  function FullTime(targetTime: int): int {
    targetTime * MillisPerSecond
  }

  /**
   * `timerIsActive`: some time has elapsed and some is left. Only a challenge
   * with a target of at least one second can ever be active.
   */
  predicate IsActive(timeRemaining: int, targetTime: int)
    ensures IsActive(timeRemaining, targetTime) ==> targetTime >= 1 && timeRemaining < FullTime(targetTime)
  {
    0 < timeRemaining < FullTime(targetTime)
  }

  /** The button's verb: "Stop" while the timer is active, "Start" otherwise. */
  function ButtonLabel(timeRemaining: int, targetTime: int): (r: string)
    ensures r == "Stop" <==> IsActive(timeRemaining, targetTime)
    ensures r == "Start" <==> !IsActive(timeRemaining, targetTime)
  {
    if IsActive(timeRemaining, targetTime) then "Stop" else "Start"
  }

  /** The unit after the target time: plural exactly when the target is above one second. */
  function UnitLabel(targetTime: int): (r: string)
    ensures r == "seconds" <==> targetTime > 1
    ensures r == "second" <==> targetTime <= 1
  {
    "second" + (if targetTime > 1 then "s" else "")
  }

  /** The time left after `ticks` firings of the interval from a full timer. */
  function TimeAfterTicks(targetTime: int, ticks: nat): int {
    FullTime(targetTime) - ticks * TickMillis
  }

  /**
   * From a full timer the challenge stays active for every tick before the
   * `targetTime * 100`-th, and runs out exactly at that tick.
   */
  lemma ActiveUntilExpiry(targetTime: int, ticks: nat)
    requires targetTime >= 1
    ensures IsActive(TimeAfterTicks(targetTime, ticks), targetTime) <==> 0 < ticks < targetTime * 100
    ensures TimeAfterTicks(targetTime, ticks) <= 0 <==> ticks >= targetTime * 100
  {
  }

  class Timer {
    const targetTime: int
    var timeRemaining: int
    /** Whether `timer.current` holds an interval that has not been cleared. */
    var intervalSet: bool

    /** The countdown never exceeds the full time. */
    ghost predicate Valid()
      reads this
    {
      timeRemaining <= FullTime(targetTime)
    }

    /** `useState(targetTime * 1000)`, with no interval registered yet. */
    constructor (targetTime: int)
      ensures this.targetTime == targetTime
      ensures timeRemaining == FullTime(targetTime) && !intervalSet
      ensures Valid() && !IsActive(timeRemaining, targetTime)
    {
      this.targetTime := targetTime;
      timeRemaining := targetTime * 1000;
      intervalSet := false;
    }

    /** The render-time check: a timer that has run out is cleared and refilled. */
    method Render()
      requires Valid()
      modifies this
      ensures Valid()
      ensures old(timeRemaining) <= 0 ==> timeRemaining == FullTime(targetTime) && !intervalSet
      ensures old(timeRemaining) > 0 ==> timeRemaining == old(timeRemaining) && intervalSet == old(intervalSet)
    {
      if timeRemaining <= 0 {
        intervalSet := false;
        timeRemaining := targetTime * 1000;
      }
    }

    /** `handleStart`: an interval is registered; the countdown itself is untouched. */
    method HandleStart()
      requires Valid()
      modifies this
      ensures Valid()
      ensures intervalSet && timeRemaining == old(timeRemaining)
    {
      intervalSet := true;
    }

    /**
     * `handleStop`: the interval is cleared; the time left stays as it is. So
     * a timer stopped while active stays active by the `timerIsActive` rule,
     * and its button still reads "Stop".
     */
    method HandleStop()
      requires Valid()
      modifies this
      ensures Valid()
      ensures !intervalSet && timeRemaining == old(timeRemaining)
      ensures IsActive(old(timeRemaining), targetTime) ==>
        IsActive(timeRemaining, targetTime) && ButtonLabel(timeRemaining, targetTime) == "Stop"
    {
      intervalSet := false;
    }

    /** One firing of the registered interval: `prevTimeRemaining - 10`. */
    method Tick()
      requires Valid() && intervalSet
      modifies this
      ensures Valid() && intervalSet
      ensures timeRemaining == old(timeRemaining) - TickMillis
    {
      timeRemaining := timeRemaining - 10;
    }

    /**
     * A started challenge left to run: the interval fires, each firing
     * followed by a render, until the render finds the time used up. It takes
     * `targetTime * 100` firings, the timer is active after every firing but
     * the last, and it ends full again with the interval cleared.
     */
    method RunToExpiry() returns (ticks: nat)
      requires targetTime >= 1 && timeRemaining == FullTime(targetTime) && intervalSet
      modifies this
      ensures ticks == targetTime * 100
      ensures timeRemaining == FullTime(targetTime) && !intervalSet
    {
      ticks := 0;
      while intervalSet
        invariant Valid()
        invariant ticks <= targetTime * 100
        invariant intervalSet ==> timeRemaining == TimeAfterTicks(targetTime, ticks) && ticks < targetTime * 100
        invariant intervalSet ==> ticks == 0 || IsActive(timeRemaining, targetTime)
        invariant !intervalSet ==> ticks == targetTime * 100 && timeRemaining == FullTime(targetTime)
        decreases targetTime * 100 - ticks, intervalSet
      {
        Tick();
        ticks := ticks + 1;
        ActiveUntilExpiry(targetTime, ticks);
        Render();
      }
    }
  }
}
