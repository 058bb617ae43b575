/**
 * The shared game-check scheduler of Cooldowns.Domain/Timer/CooldownTimer.cs:
 * it holds at most one `System.Threading.Timer`, first due after
 * `firstCheckDelay` and then every `buttonCheckInterval`, and raises `Ticked`
 * on every callback.
 */
module GameTimer {
  import opened Wrappers
  import opened ThreadingTimer

  /** The default of the constructor's `firstCheckDelay`. */
  const DefaultFirstCheckDelay: int := 1000

  class CooldownTimer {
    const firstCheckDelay: int
    const buttonCheckInterval: int
    var timer: Option<Held>
    /**
     * How many timers this scheduler created and has not disposed: one more on
     * each creation, one less each time an undisposed timer is disposed.
     */
    ghost var live: nat
    /** How many timers this scheduler created. */
    ghost var created: nat
    /** How often `Ticked` was raised. */
    ghost var ticks: nat

    /**
     * No created timer is leaked: every one except the held one was disposed,
     * and a held timer was created with this scheduler's arguments.
     */
    ghost predicate Valid()
      reads this
    {
      live == (if timer.Some? && !timer.value.disposed then 1 else 0) &&
      (timer.Some? ==> timer.value.timer == Timer(firstCheckDelay, buttonCheckInterval))
    }

    constructor (buttonCheckInterval: int, firstCheckDelay: int)
      ensures this.buttonCheckInterval == buttonCheckInterval && this.firstCheckDelay == firstCheckDelay
      ensures timer.None? && live == 0 && created == 0 && ticks == 0 && Valid()
    {
      this.buttonCheckInterval := buttonCheckInterval;
      this.firstCheckDelay := firstCheckDelay;
      timer := None;
      live := 0;
      created := 0;
      ticks := 0;
    }

    /** `new System.Threading.Timer(OnTicked, null, firstCheckDelay, buttonCheckInterval)`, assigned to `timer`. */
    method CreateTimer()
      modifies this`timer, this`live, this`created
      ensures timer == Some(Held(Timer(firstCheckDelay, buttonCheckInterval), false))
      ensures live == old(live) + 1 && created == old(created) + 1
    {
      timer := Some(Held(Timer(firstCheckDelay, buttonCheckInterval), false));
      live := live + 1;
      created := created + 1;
    }

    /** Stops a running timer first, so a restart never leaves two timers live. */
    method Start()
      requires Valid()
      modifies this`timer, this`live, this`created
      ensures Valid() && live == 1 && created == old(created) + 1
      ensures timer == Some(Held(Timer(firstCheckDelay, buttonCheckInterval), false))
    {
      if timer.Some? {
        Stop();
      }
      CreateTimer();
    }

    /** Harmless when nothing is running. */
    method Stop()
      requires Valid()
      modifies this`timer, this`live
      ensures Valid() && timer.None? && live == 0
    {
      ReleaseHeld();
      timer := None;
    }

    /** `timer?.Dispose()`; disposing a disposed timer does nothing. */
    method ReleaseHeld()
      requires Valid()
      modifies this`timer, this`live
      ensures Valid() && live == 0
      ensures timer == if old(timer).Some? then Some(old(timer).value.(disposed := true)) else None
    {
      if timer.Some? {
        if !timer.value.disposed {
          live := live - 1;
        }
        timer := Some(timer.value.(disposed := true));
      }
    }

    method IsRunning() returns (running: bool)
      ensures running <==> timer.Some?
    {
      return timer.Some?;
    }

    /** The callback of the live timer. */
    method OnTicked()
      requires Valid() && timer.Some? && !timer.value.disposed
      modifies this`ticks
      ensures ticks == old(ticks) + 1
    {
      ticks := ticks + 1;
    }

    /** Disposes the timer but keeps the reference. */
    method Dispose()
      requires Valid()
      modifies this`timer, this`live
      ensures Valid() && live == 0
      ensures timer == if old(timer).Some? then Some(old(timer).value.(disposed := true)) else None
    {
      ReleaseHeld();
    }
  }

  /** Starting twice leaves one live timer; stopping leaves none and stopping again is harmless. */
  method RestartKeepsOneTimer(interval: int) returns (running: bool, stopped: bool)
    ensures running && !stopped
  {
    var t := new CooldownTimer(interval, DefaultFirstCheckDelay);
    t.Start();
    t.Start();
    assert t.created == 2 && t.live == 1;
    running := t.IsRunning();
    t.Stop();
    t.Stop();
    stopped := t.IsRunning();
  }

  /** `Dispose` keeps the reference, so a disposed scheduler still reports that it is running. */
  method DisposeKeepsRunning(interval: int) returns (before: bool, after: bool)
    ensures before && after
  {
    var t := new CooldownTimer(interval, DefaultFirstCheckDelay);
    t.Start();
    before := t.IsRunning();
    t.Dispose();
    after := t.IsRunning();
  }
}
