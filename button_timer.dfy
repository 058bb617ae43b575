/**
 * The button timer of Cooldowns.Domain/Buttons/CooldownTimer.cs: a repeating
 * timer that may be started once, a one-shot timer that replaces whatever is
 * held (and, as written, never fires), and `CooldownEnded` raised from each
 * callback.
 */
module ButtonTimer {
  import opened Wrappers
  import opened ThreadingTimer

  const AutoCheckInterval: int := 100
  const AutoCheckDelay: int := 1000

  /** The timer `StartRepeating` creates: due after `AutoCheckInterval`, then every `AutoCheckDelay`. */
  const RepeatingTimer: Timer := Timer(AutoCheckInterval, AutoCheckDelay)

  /** The timer `StartOnce(dueTime)` creates as written: it passes `dueTime` as the period. */
  function StartOnceAsWritten(dueTime: int): (t: Timer)
    ensures t.dueTime == Infinite && t.period == dueTime
    ensures forall ms :: !FiresAt(t, ms)
  {
    Timer(Infinite, dueTime)
  }

  /** The timer `StartOnce(dueTime)` is meant to create: one callback, `dueTime` ms later. */
  function OnceTimer(dueTime: int): (t: Timer)
    ensures dueTime >= 0 ==> forall ms :: FiresAt(t, ms) <==> ms == dueTime
  {
    Timer(dueTime, Infinite)
  }

  /** For any due time the timer as written misses its due time, where the intended one fires. */
  lemma StartOnceAsWrittenNeverEnds(dueTime: int)
    requires dueTime >= 0
    ensures !FiresAt(StartOnceAsWritten(dueTime), dueTime)
    ensures FiresAt(OnceTimer(dueTime), dueTime)
  {
  }

  class CooldownTimer {
    var timer: Option<Held>
    /**
     * How many timers this object created and has not disposed: one more on
     * each creation, one less each time an undisposed timer is disposed.
     */
    ghost var live: nat
    /** How often `CooldownEnded` was raised. */
    ghost var ended: nat

    /** No created timer is leaked: every one except the held one was disposed. */
    ghost predicate Valid()
      reads this
    {
      live == (if timer.Some? && !timer.value.disposed then 1 else 0)
    }

    constructor ()
      ensures timer.None? && live == 0 && ended == 0 && Valid()
    {
      timer := None;
      live := 0;
      ended := 0;
    }

    /** `new Timer(OnTimerEnded, null, t.dueTime, t.period)`, assigned to `timer`. */
    method CreateTimer(t: Timer)
      modifies this`timer, this`live
      ensures timer == Some(Held(t, false)) && live == old(live) + 1
    {
      timer := Some(Held(t, false));
      live := live + 1;
    }

    /** `timer?.Dispose()`; disposing a disposed timer does nothing. */
    method ReleaseHeld()
      requires Valid()
      modifies this`timer, this`live
      ensures Valid() && live == 0
      ensures timer == if old(timer).Some? then Some(old(timer).value.(disposed := true)) else None
    {
      if timer.Some? {
        if !timer.value.disposed {
          live := live - 1;
        }
        timer := Some(timer.value.(disposed := true));
      }
    }

    /** Fails (the source throws) and changes nothing when a timer is already held, disposed or not. */
    method StartRepeating() returns (ok: bool)
      requires Valid()
      modifies this`timer, this`live
      ensures Valid()
      ensures ok <==> old(timer).None?
      ensures ok ==> timer == Some(Held(RepeatingTimer, false)) && live == 1
      ensures !ok ==> timer == old(timer) && live == old(live)
    {
      if timer.Some? {
        return false;
      }
      CreateTimer(RepeatingTimer);
      return true;
    }

    /**
     * Never fails: disposes what is held and installs the timer of line 35 as
     * written, which never runs its callback (see `StartOnceAsWritten`).
     */
    method StartOnce(dueTime: int)
      requires Valid()
      modifies this`timer, this`live
      ensures Valid() && live == 1
      ensures timer == Some(Held(StartOnceAsWritten(dueTime), false))
    {
      ReleaseHeld();
      CreateTimer(StartOnceAsWritten(dueTime));
    }

    /** The callback of the live timer; the dispatched `OnCooldownEnded` runs at once. */
    method OnTimerEnded()
      requires Valid() && timer.Some? && !timer.value.disposed
      modifies this`ended
      ensures ended == old(ended) + 1
    {
      ended := ended + 1;
    }

    /** Disposes the timer but keeps the reference. */
    method Dispose()
      requires Valid()
      modifies this`timer, this`live
      ensures Valid() && live == 0
      ensures timer == if old(timer).Some? then Some(old(timer).value.(disposed := true)) else None
    {
      ReleaseHeld();
    }
  }

  /** Since `Dispose` keeps the reference, a disposed repeating timer cannot be started again. */
  method DisposedTimerCannotRestart() returns (first: bool, second: bool)
    ensures first && !second
  {
    var t := new CooldownTimer();
    first := t.StartRepeating();
    t.Dispose();
    second := t.StartRepeating();
  }

  /** `StartOnce` replaces a repeating timer, after which `StartRepeating` fails. */
  method StartOnceReplaces(dueTime: int) returns (ok: bool, replaced: bool)
    ensures !ok && replaced
  {
    var t := new CooldownTimer();
    var started := t.StartRepeating();
    t.StartOnce(dueTime);
    replaced := t.timer == Some(Held(StartOnceAsWritten(dueTime), false));
    ok := t.StartRepeating();
  }
}
