/**
 * The simplest button of Domain/ButtonCooldownTimer.cs: Up / OnCooldown /
 * Disabled only. `Start` arms one one-shot timer of `cooldownMs`, whose
 * expiry brings the button back Up; a zero cooldown means Disabled for good.
 */
module DomainButtonTimer {
  import opened Wrappers
  import opened ThreadingTimer
  import opened ButtonConfig

  /** The fields `buttonState`, `timer` and the button's visibility. */
  datatype View = View(state: CooldownButtonState, timer: Option<Timer>, visible: bool)

  /** `SetButtonState`: `None` where the switch throws (AutoCasting has no arm here). */
  function SetState(v: View, state: CooldownButtonState): (r: Option<View>)
    ensures r.Some? <==> state != AutoCasting
    ensures r.Some? ==> r.value == View(state, v.timer, state == Up)
  {
    match state
    case Disabled => Some(View(Disabled, v.timer, false))
    case OnCooldown => Some(View(OnCooldown, v.timer, false))
    case Up => Some(View(Up, v.timer, true))
    case AutoCasting => None
  }

  /** The one-shot timer `Start` arms. */
  function CooldownTimer(cooldownMs: int): Timer
  {
    Timer(cooldownMs, Infinite)
  }

  /** What the fields of a button with cooldown `cooldownMs` always satisfy. */
  predicate Consistent(cooldownMs: int, v: View)
  {
    v.visible == (v.state == Up) &&
    v.state != AutoCasting &&
    (v.state == Disabled <==> cooldownMs == 0) &&
    (v.state == OnCooldown <==> v.timer.Some?) &&
    (v.timer.Some? ==> v.timer.value == CooldownTimer(cooldownMs))
  }

  function Initial(cooldownMs: int): View
  {
    if cooldownMs == 0 then View(Disabled, None, false) else View(Up, None, true)
  }

  /** `Start`: only an Up button goes on cooldown and arms its timer. */
  function StartStep(cooldownMs: int, v: View): View
  {
    if v.state != Up then v else View(OnCooldown, Some(CooldownTimer(cooldownMs)), false)
  }

  /** `CooldownEnded`: the timer is released and the button is Up. */
  function EndedStep(v: View): View
  {
    View(Up, None, true)
  }

  /** What drives the button: `Start`, or the callback of its timer. */
  datatype Event = Start | Expire

  /** The events in order; a callback needs a held timer, so without one it does nothing. */
  function Run(cooldownMs: int, v: View, events: seq<Event>): View
    decreases |events|
  {
    if events == [] then v
    else
      var next := match events[0]
        case Start => StartStep(cooldownMs, v)
        case Expire => if v.timer.None? then v else EndedStep(v);
      Run(cooldownMs, next, events[1..])
  }

  lemma InitialConsistent(cooldownMs: int)
    ensures Consistent(cooldownMs, Initial(cooldownMs))
    ensures Initial(cooldownMs).state == (if cooldownMs == 0 then Disabled else Up)
  {
  }

  /** `Start` changes something exactly when the button is Up. */
  lemma StartChangesIffUp(cooldownMs: int, v: View)
    requires Consistent(cooldownMs, v)
    ensures StartStep(cooldownMs, v) != v <==> v.state == Up
    ensures v.state == Up ==> StartStep(cooldownMs, v).timer == Some(Timer(cooldownMs, Infinite))
  {
  }

  lemma {:induction false} RunKeepsConsistent(cooldownMs: int, v: View, events: seq<Event>)
    requires Consistent(cooldownMs, v)
    ensures Consistent(cooldownMs, Run(cooldownMs, v, events))
    decreases |events|
  {
    if events != [] {
      var next := match events[0]
        case Start => StartStep(cooldownMs, v)
        case Expire => if v.timer.None? then v else EndedStep(v);
      assert Consistent(cooldownMs, next);
      RunKeepsConsistent(cooldownMs, next, events[1..]);
    }
  }

  /** A button built with a zero cooldown never arms a timer and stays Disabled. */
  lemma {:induction false} ZeroCooldownStaysDisabled(events: seq<Event>)
    ensures Run(0, Initial(0), events) == View(Disabled, None, false)
    decreases |events|
  {
    if events != [] {
      ZeroCooldownStaysDisabled(events[1..]);
    }
  }

  /** A start and the expiry of its timer leave an Up button Up with no timer. */
  lemma StartThenExpire(cooldownMs: int)
    requires cooldownMs != 0
    ensures Run(cooldownMs, Initial(cooldownMs), [Start, Expire]) == Initial(cooldownMs)
  {
    assert [Start, Expire][1..] == [Expire];
    assert [Expire][1..] == [];
  }

  class ButtonCooldownTimer {
    const cooldownMs: int
    var buttonState: CooldownButtonState
    var timer: Option<Timer>
    /** Whether the WPF button is shown. */
    var visible: bool

    function Fields(): View
      reads this
    {
      View(buttonState, timer, visible)
    }

    ghost predicate Valid()
      reads this
    {
      Consistent(cooldownMs, Fields())
    }

    constructor (cooldownMs: int)
      ensures this.cooldownMs == cooldownMs && Fields() == Initial(cooldownMs) && Valid()
    {
      this.cooldownMs := cooldownMs;
      buttonState := Disabled;
      timer := None;
      visible := false;
      new;
      var ok := SetButtonState(if cooldownMs == 0 then Disabled else Up);
    }

    /** Fails, changing nothing, where the switch throws. */
    method SetButtonState(updatedState: CooldownButtonState) returns (ok: bool)
      modifies this`buttonState, this`visible
      ensures ok <==> updatedState != AutoCasting
      ensures ok ==> Fields() == SetState(old(Fields()), updatedState).value
      ensures !ok ==> Fields() == old(Fields())
    {
      match updatedState {
        case Disabled => visible := false;
        case OnCooldown => visible := false;
        case Up => visible := true;
        case AutoCasting => return false;
      }
      buttonState := updatedState;
      return true;
    }

    method Start()
      requires Valid()
      modifies this`buttonState, this`timer, this`visible
      ensures Valid() && Fields() == StartStep(cooldownMs, old(Fields()))
    {
      if buttonState != Up {
        return;
      }
      var ok := SetButtonState(OnCooldown);
      timer := Some(CooldownTimer(cooldownMs));
    }

    /** The callback of the held timer; the dispatched part runs at once. */
    method CooldownEnded()
      requires Valid() && timer.Some?
      modifies this`buttonState, this`timer, this`visible
      ensures Valid() && Fields() == EndedStep(old(Fields()))
    {
      timer := None;
      var ok := SetButtonState(Up);
    }
  }
}
