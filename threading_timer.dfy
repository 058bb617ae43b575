/**
 * The part of `System.Threading.Timer` the overlay relies on: a timer is created
 * with a due time and a period (in milliseconds) and runs its callback at the due
 * time and then once per period. `Timeout.Infinite` (-1) as the due time keeps the
 * timer from ever starting; as the period (or 0) it makes the timer fire once.
 */
module ThreadingTimer {

  /** `Timeout.Infinite`. */
  const Infinite: int := -1

  /** The arguments a timer was created with. */
  datatype Timer = Timer(dueTime: int, period: int)

  /** A timer a class holds a reference to, and whether `Dispose` was called on it. */
  datatype Held = Held(timer: Timer, disposed: bool)

  /** Whether the callback of `t` runs `ms` milliseconds after `t` was created. */
  predicate FiresAt(t: Timer, ms: int)
  {
    t.dueTime >= 0 && ms >= t.dueTime &&
    if t.period == Infinite || t.period == 0 then ms == t.dueTime
    else t.period > 0 && (ms - t.dueTime) % t.period == 0
  }

  /** A timer whose due time is Infinite never runs its callback, whatever its period. */
  lemma InfiniteDueNeverFires(t: Timer)
    requires t.dueTime == Infinite
    ensures forall ms :: !FiresAt(t, ms)
  {
  }

  /** A timer with a due time and an Infinite period fires exactly once, at the due time. */
  lemma OneShotFiresOnce(t: Timer, ms: int)
    requires t.dueTime >= 0 && t.period == Infinite
    ensures FiresAt(t, ms) <==> ms == t.dueTime
  {
  }
}
