/**
 * The test double of Cooldowns.Tests/Fixtures/FakeCooldownTimer.cs: instead of
 * real timers it keeps a dictionary from due time to "is repeating", and a test
 * ticks a due time by hand. One-shot entries are removed when they fire;
 * repeating ones stay.
 */
module TestFixtures {
  import ButtonTimer

  /** `Dictionary<int, bool>.TryAdd`: an existing entry is never overwritten. */
  function TryAdd(m: map<int, bool>, k: int, v: bool): (r: map<int, bool>)
    ensures k in r && r[k] == (if k in m then m[k] else v)
    ensures forall j :: j != k ==> (j in r <==> j in m)
    ensures forall j :: j in m ==> j in r && r[j] == m[j]
  {
    if k in m then m else m[k := v]
  }

  /** The dictionary after `Tick(time)`. */
  function TickTimes(m: map<int, bool>, time: int): map<int, bool>
  {
    if time in m && !m[time] then m - {time} else m
  }

  /** What `Tick(time)` does to the dictionary and to `CooldownEnded`. */
  lemma TickFacts(m: map<int, bool>, time: int)
    ensures time !in m ==> TickTimes(m, time) == m
    ensures time in m && !m[time] ==> time !in TickTimes(m, time)
    ensures time in m && m[time] ==> TickTimes(m, time) == m
    ensures forall k :: k != time ==> (k in TickTimes(m, time) <==> k in m)
    ensures forall k :: k != time && k in m ==> TickTimes(m, time)[k] == m[k]
  {
  }

  /** The dictionary after a sequence of ticks, and the times at which `CooldownEnded` was raised. */
  datatype TickResult = TickResult(times: map<int, bool>, fired: seq<int>)

  function TickAll(m: map<int, bool>, ticks: seq<int>): TickResult
    decreases |ticks|
  {
    if ticks == [] then TickResult(m, [])
    else
      var rest := TickAll(TickTimes(m, ticks[0]), ticks[1..]);
      TickResult(rest.times, (if ticks[0] in m then [ticks[0]] else []) + rest.fired)
  }

  /** Ticks never add an entry, so a time that is not registered never fires. */
  lemma {:induction false} UnregisteredNeverFires(m: map<int, bool>, d: int, ticks: seq<int>)
    requires d !in m
    ensures d !in TickAll(m, ticks).times
    ensures multiset(TickAll(m, ticks).fired)[d] == 0
    decreases |ticks|
  {
    if ticks != [] {
      UnregisteredNeverFires(TickTimes(m, ticks[0]), d, ticks[1..]);
    }
  }

  /** A one-shot entry fires at most once, however often its time is ticked. */
  lemma {:induction false} OneShotFiresAtMostOnce(m: map<int, bool>, d: int, ticks: seq<int>)
    requires d in m ==> !m[d]
    ensures multiset(TickAll(m, ticks).fired)[d] <= 1
    ensures d in ticks ==> d !in TickAll(m, ticks).times
    decreases |ticks|
  {
    if ticks != [] {
      var next := TickTimes(m, ticks[0]);
      if ticks[0] == d && d in m {
        UnregisteredNeverFires(next, d, ticks[1..]);
      } else {
        OneShotFiresAtMostOnce(next, d, ticks[1..]);
        if d !in m {
          UnregisteredNeverFires(m, d, ticks);
        }
      }
    }
  }

  /** A repeating entry stays and fires on every tick of its time. */
  lemma {:induction false} RepeatingFiresEveryTick(m: map<int, bool>, d: int, ticks: seq<int>)
    requires d in m && m[d]
    ensures d in TickAll(m, ticks).times && TickAll(m, ticks).times[d]
    ensures multiset(TickAll(m, ticks).fired)[d] == multiset(ticks)[d]
    decreases |ticks|
  {
    if ticks != [] {
      RepeatingFiresEveryTick(TickTimes(m, ticks[0]), d, ticks[1..]);
      assert ticks == [ticks[0]] + ticks[1..];
    }
  }

  class FakeCooldownTimer {
    var times: map<int, bool>
    /** The times at which `CooldownEnded` was raised, in order. */
    ghost var fired: seq<int>

    constructor ()
      ensures times == map[] && fired == []
    {
      times := map[];
      fired := [];
    }

    method StartRepeating()
      modifies this`times
      ensures times == TryAdd(old(times), ButtonTimer.AutoCheckInterval, true)
    {
      times := TryAdd(times, ButtonTimer.AutoCheckInterval, true);
    }

    method StartOnce(dueTime: int)
      modifies this`times
      ensures times == TryAdd(old(times), dueTime, false)
    {
      times := TryAdd(times, dueTime, false);
    }

    method Tick(time: int)
      modifies this`times, this`fired
      ensures times == TickTimes(old(times), time)
      ensures fired == old(fired) + (if time in old(times) then [time] else [])
    {
      if time !in times {
        return;
      }
      var isRepeating := times[time];
      if !isRepeating {
        times := times - {time};
      }
      fired := fired + [time];
    }
  }
}
