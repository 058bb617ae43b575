/**
 * The per-key button of Cooldowns.Domain/Buttons/CooldownButton.cs: a state
 * machine over Up / OnCooldown / AutoCasting / Disabled driven by presses and by
 * the callback of the timer it holds. A button that auto-detects its cooldown
 * holds one repeating timer for its whole life and follows the colour of one
 * screen pixel; any other button arms a timer when pressed and, while
 * autocasting, presses the autocast key on every expiry.
 */
module Buttons {
  import opened Wrappers
  import opened ScreenColor
  import opened ThreadingTimer
  import opened ButtonConfig

  const AutoCheckInterval: int := 100
  const AutoCheckDelay: int := 1000

  /** A white pixel: the skill is available. */
  predicate IsSkillAvailable(p: Argb)
  {
    p.r == 255 && p.g == 255 && p.b == 255
  }

  /** The (17, 17, 21) pixel: the skill is on cooldown. */
  predicate IsSkillOnCooldown(p: Argb)
  {
    p.r == 17 && p.g == 17 && p.b == 21
  }

  /** `TimerFactory(period, dueTime)`: note the argument order. */
  function TimerFactory(period: int, dueTime: int): Timer
  {
    Timer(dueTime, period)
  }

  /** The repeating timer an auto-detecting button holds for its whole life. */
  const AutoDetectTimer: Timer := TimerFactory(AutoCheckInterval, AutoCheckDelay)

  /** The timer a button without auto-detect holds while it is not Up. */
  function PressTimer(key: Key): Timer
  {
    if key.autocast then TimerFactory(key.cooldown, key.cooldown) else TimerFactory(Infinite, key.cooldown)
  }

  /** The fields `buttonState` and `timer`. */
  datatype View = View(state: CooldownButtonState, timer: Option<Timer>)

  /** What one call does: the new fields, the `ButtonStateChanged` values raised, the keys pressed. */
  datatype Step = Step(view: View, raised: seq<CooldownButtonState>, pressed: seq<KeyCode>)

  /** What the fields of a button with configuration `key` always satisfy. */
  predicate Consistent(key: Key, v: View)
  {
    (v.state == Disabled <==> !key.enabled) &&
    if key.autoDetectCooldown then
      v.state != AutoCasting && v.timer == Some(AutoDetectTimer)
    else
      (v.state == AutoCasting ==> key.autocast) &&
      (v.timer.None? <==> v.state == Up || v.state == Disabled) &&
      (v.timer.Some? ==> v.timer.value == PressTimer(key))
  }

  /** The constructor: the auto-detect timer if asked for, then Up or Disabled, raised once. */
  function Initial(key: Key): Step
  {
    var state := if key.enabled then Up else Disabled;
    Step(View(state, if key.autoDetectCooldown then Some(AutoDetectTimer) else None), [state], [])
  }

  /** `Press`. */
  function PressStep(key: Key, v: View): Step
  {
    if v.state == Disabled || key.autoDetectCooldown then Step(v, [], [])
    else if key.autocast && v.state == AutoCasting then Step(View(OnCooldown, v.timer), [OnCooldown], [])
    else if key.autocast && v.state == Up then
      Step(View(AutoCasting, Some(TimerFactory(key.cooldown, key.cooldown))), [AutoCasting], [])
    else if v.state == Up then Step(View(OnCooldown, Some(TimerFactory(Infinite, key.cooldown))), [OnCooldown], [])
    else Step(v, [], [])
  }

  /** `ProcessAutoDetectCooldown` on the sampled pixel; an auto-detecting button keeps its timer. */
  function AutoDetectStep(v: View, pixel: Argb): Step
  {
    var isAvailable := IsSkillAvailable(pixel);
    var isOnCooldown := IsSkillOnCooldown(pixel);
    if isAvailable && v.state == OnCooldown then Step(View(Up, v.timer), [Up], [])
    else if isOnCooldown && v.state == Up then Step(View(OnCooldown, v.timer), [OnCooldown], [])
    else if !isAvailable && !isOnCooldown && v.state == Up then Step(View(OnCooldown, v.timer), [OnCooldown], [])
    else Step(v, [], [])
  }

  /** `ProcessCooldown`: autocasting presses the key, anything else releases the timer and is Up. */
  function CooldownStep(code: KeyCode, v: View): Step
  {
    if v.state == AutoCasting then Step(v, [], [code]) else Step(View(Up, None), [Up], [])
  }

  /** `OnCooldownEnded` with `pixel` the colour at the detection point. */
  function EndedStep(key: Key, code: KeyCode, v: View, pixel: Argb): Step
  {
    if key.autoDetectCooldown then AutoDetectStep(v, pixel) else CooldownStep(code, v)
  }

  /** What drives a button: a press, or a callback of its timer (with the pixel then shown). */
  datatype Event = Press | Expire(pixel: Argb)

  /** One event; a callback needs a held timer, so without one it does nothing. */
  function Apply(key: Key, code: KeyCode, v: View, e: Event): Step
  {
    match e
    case Press => PressStep(key, v)
    case Expire(pixel) => if v.timer.None? then Step(v, [], []) else EndedStep(key, code, v, pixel)
  }

  /** A sequence of events, with the raised values and the key presses in order. */
  function Run(key: Key, code: KeyCode, v: View, events: seq<Event>): Step
    decreases |events|
  {
    if events == [] then Step(v, [], [])
    else
      var first := Apply(key, code, v, events[0]);
      var rest := Run(key, code, first.view, events[1..]);
      Step(rest.view, first.raised + rest.raised, first.pressed + rest.pressed)
  }

  lemma InitialConsistent(key: Key)
    ensures Consistent(key, Initial(key).view)
    ensures Initial(key).view.state == (if key.enabled then Up else Disabled)
    ensures Initial(key).raised == [Initial(key).view.state]
    ensures key.autoDetectCooldown ==> Initial(key).view.timer == Some(Timer(1000, 100))
  {
  }

  /** Every event keeps the fields consistent with the configuration. */
  lemma ApplyKeepsConsistent(key: Key, code: KeyCode, v: View, e: Event)
    requires Consistent(key, v)
    ensures Consistent(key, Apply(key, code, v, e).view)
  {
  }

  lemma {:induction false} RunKeepsConsistent(key: Key, code: KeyCode, v: View, events: seq<Event>)
    requires Consistent(key, v)
    ensures Consistent(key, Run(key, code, v, events).view)
    decreases |events|
  {
    if events != [] {
      ApplyKeepsConsistent(key, code, v, events[0]);
      RunKeepsConsistent(key, code, Apply(key, code, v, events[0]).view, events[1..]);
    }
  }

  /**
   * A press changes nothing exactly when the button is Disabled, OnCooldown or
   * auto-detecting; otherwise it changes the state and raises the new one.
   */
  lemma PressNoOpIff(key: Key, v: View)
    requires Consistent(key, v)
    ensures PressStep(key, v) == Step(v, [], []) <==>
      v.state == Disabled || v.state == OnCooldown || key.autoDetectCooldown
    ensures PressStep(key, v) != Step(v, [], []) ==>
      PressStep(key, v).view.state != v.state && PressStep(key, v).raised == [PressStep(key, v).view.state]
  {
  }

  /**
   * On an auto-detect tick a white pixel brings an OnCooldown button Up, any other
   * pixel sends an Up button on cooldown, and nothing else changes the state.
   */
  lemma AutoDetectTransitions(v: View, pixel: Argb)
    ensures AutoDetectStep(v, pixel).view.state ==
      if v.state == OnCooldown && IsSkillAvailable(pixel) then Up
      else if v.state == Up && !IsSkillAvailable(pixel) then OnCooldown
      else v.state
    ensures AutoDetectStep(v, pixel).view.timer == v.timer && AutoDetectStep(v, pixel).pressed == []
    ensures AutoDetectStep(v, pixel).raised ==
      if AutoDetectStep(v, pixel).view.state == v.state then [] else [AutoDetectStep(v, pixel).view.state]
  {
  }

  /** An auto-detecting button never releases its repeating timer and never presses a key. */
  lemma {:induction false} AutoDetectKeepsTimer(key: Key, code: KeyCode, v: View, events: seq<Event>)
    requires key.autoDetectCooldown && Consistent(key, v)
    ensures Run(key, code, v, events).view.timer == Some(AutoDetectTimer)
    ensures Run(key, code, v, events).pressed == []
    decreases |events|
  {
    if events != [] {
      ApplyKeepsConsistent(key, code, v, events[0]);
      AutoDetectKeepsTimer(key, code, Apply(key, code, v, events[0]).view, events[1..]);
    } else {
      assert Run(key, code, v, events).view == v;
    }
  }

  /** A disabled key stays Disabled, raises nothing after construction and presses nothing. */
  lemma {:induction false} DisabledStaysDisabled(key: Key, code: KeyCode, v: View, events: seq<Event>)
    requires !key.enabled && Consistent(key, v)
    ensures Run(key, code, v, events) == Step(v, [], [])
    decreases |events|
  {
    if events != [] {
      assert Apply(key, code, v, events[0]) == Step(v, [], []);
      DisabledStaysDisabled(key, code, v, events[1..]);
    }
  }

  /** While autocasting, every expiry presses the autocast key once and changes nothing else. */
  lemma {:induction false} AutoCastPressesEachExpiry(key: Key, code: KeyCode, v: View, events: seq<Event>)
    requires !key.autoDetectCooldown && Consistent(key, v) && v.state == AutoCasting
    requires forall i :: 0 <= i < |events| ==> events[i].Expire?
    ensures Run(key, code, v, events) == Step(v, [], seq(|events|, _ => code))
    decreases |events|
  {
    if events != [] {
      assert Apply(key, code, v, events[0]) == Step(v, [], [code]);
      AutoCastPressesEachExpiry(key, code, v, events[1..]);
      assert [code] + seq(|events| - 1, _ => code) == seq(|events|, _ => code);
    }
  }

  /** Without autocast, a press and the expiry of its one-shot timer return the button to Up. */
  lemma OneShotCycle(key: Key, code: KeyCode, pixel: Argb)
    requires key.enabled && !key.autoDetectCooldown && !key.autocast
    ensures Run(key, code, Initial(key).view, [Press, Expire(pixel)]) ==
      Step(View(Up, None), [OnCooldown, Up], [])
  {
    var v := Initial(key).view;
    var pressed := Apply(key, code, v, Press);
    assert pressed == Step(View(OnCooldown, Some(Timer(key.cooldown, Infinite))), [OnCooldown], []);
    assert [Press, Expire(pixel)][1..] == [Expire(pixel)];
    assert Run(key, code, pressed.view, [Expire(pixel)]) == Step(View(Up, None), [Up], []) by {
      assert Run(key, code, View(Up, None), []) == Step(View(Up, None), [], []);
    }
  }

  /**
   * With autocast, pressing twice stops autocasting but keeps the repeating timer; its
   * next expiry releases it and the button is Up.
   */
  lemma AutoCastCycle(key: Key, code: KeyCode, pixel: Argb)
    requires key.enabled && !key.autoDetectCooldown && key.autocast
    ensures Run(key, code, Initial(key).view, [Press, Press, Expire(pixel)]) ==
      Step(View(Up, None), [AutoCasting, OnCooldown, Up], [])
  {
    var v0 := Initial(key).view;
    var v1 := View(AutoCasting, Some(Timer(key.cooldown, key.cooldown)));
    var v2 := View(OnCooldown, Some(Timer(key.cooldown, key.cooldown)));
    assert Apply(key, code, v0, Press) == Step(v1, [AutoCasting], []);
    assert Apply(key, code, v1, Press) == Step(v2, [OnCooldown], []);
    assert Apply(key, code, v2, Expire(pixel)) == Step(View(Up, None), [Up], []);
    var events := [Press, Press, Expire(pixel)];
    assert events[1..] == [Press, Expire(pixel)] && events[1..][1..] == [Expire(pixel)];
    assert Run(key, code, View(Up, None), []) == Step(View(Up, None), [], []);
    assert Run(key, code, v2, [Expire(pixel)]) == Step(View(Up, None), [Up], []);
    assert Run(key, code, v1, [Press, Expire(pixel)]) == Step(View(Up, None), [OnCooldown, Up], []);
  }

  class CooldownButton {
    const key: Key
    const autocastKeyCode: KeyCode
    var buttonState: CooldownButtonState
    var timer: Option<Timer>
    /** The values `ButtonStateChanged` was raised with, in order. */
    ghost var raised: seq<CooldownButtonState>
    /** The autocast key presses sent, in order. */
    ghost var pressed: seq<KeyCode>

    function Fields(): View
      reads this
    {
      View(buttonState, timer)
    }

    ghost predicate Valid()
      reads this
    {
      Consistent(key, Fields())
    }

    /** The constructor after `Enum.Parse` has produced the autocast key code. */
    constructor (key: Key, autocastKeyCode: KeyCode)
      ensures this.key == key && this.autocastKeyCode == autocastKeyCode
      ensures Fields() == Initial(key).view && raised == Initial(key).raised && pressed == []
      ensures Valid()
    {
      this.key := key;
      this.autocastKeyCode := autocastKeyCode;
      buttonState := Disabled;
      timer := None;
      raised := [];
      pressed := [];
      new;
      if key.autoDetectCooldown {
        timer := Some(TimerFactory(AutoCheckInterval, AutoCheckDelay));
      }
      OnButtonStateChanged(if key.enabled then Up else Disabled);
    }

    /** Construction, which fails where `Enum.Parse` throws on the autocast key name. */
    static method Create(names: KeyNames, key: Key) returns (b: Option<CooldownButton>)
      ensures b.None? <==> key.autocastKey !in names
      ensures b.Some? ==> fresh(b.value) && b.value.key == key && b.value.Valid()
      ensures b.Some? ==> b.value.autocastKeyCode == names[key.autocastKey]
      ensures b.Some? ==> b.value.Fields() == Initial(key).view && b.value.raised == Initial(key).raised
      ensures b.Some? ==> b.value.pressed == []
    {
      var code := ParseKeyCode(names, key.autocastKey);
      if code.None? {
        return None;
      }
      var button := new CooldownButton(key, code.value);
      return Some(button);
    }

    method OnButtonStateChanged(state: CooldownButtonState)
      modifies this`buttonState, this`raised
      ensures buttonState == state && raised == old(raised) + [state]
    {
      buttonState := state;
      raised := raised + [state];
    }

    method Press()
      requires Valid()
      modifies this`buttonState, this`timer, this`raised
      ensures Valid()
      ensures Fields() == PressStep(key, old(Fields())).view
      ensures raised == old(raised) + PressStep(key, old(Fields())).raised
    {
      if buttonState == Disabled || key.autoDetectCooldown {
        return;
      }
      if key.autocast && buttonState == AutoCasting {
        OnButtonStateChanged(OnCooldown);
      } else if key.autocast && buttonState == Up {
        timer := Some(TimerFactory(key.cooldown, key.cooldown));
        OnButtonStateChanged(AutoCasting);
      } else if buttonState == Up {
        timer := Some(TimerFactory(Infinite, key.cooldown));
        OnButtonStateChanged(OnCooldown);
      }
    }

    /** The callback of the held timer, run at once as the dispatcher would run it. */
    method OnCooldownEnded(screen: Screen)
      requires Valid() && timer.Some?
      modifies this`buttonState, this`timer, this`raised, this`pressed
      ensures Valid()
      ensures Fields() == EndedStep(key, autocastKeyCode, old(Fields()), screen(Point(key.detectX, key.detectY))).view
      ensures raised == old(raised) + EndedStep(key, autocastKeyCode, old(Fields()), screen(Point(key.detectX, key.detectY))).raised
      ensures pressed == old(pressed) + EndedStep(key, autocastKeyCode, old(Fields()), screen(Point(key.detectX, key.detectY))).pressed
    {
      if key.autoDetectCooldown {
        ProcessAutoDetectCooldown(screen);
      } else {
        ProcessCooldown();
      }
    }

    method ProcessAutoDetectCooldown(screen: Screen)
      requires key.autoDetectCooldown
      modifies this`buttonState, this`timer, this`raised
      ensures Fields() == AutoDetectStep(old(Fields()), screen(Point(key.detectX, key.detectY))).view
      ensures raised == old(raised) + AutoDetectStep(old(Fields()), screen(Point(key.detectX, key.detectY))).raised
    {
      var pixel := screen(Point(key.detectX, key.detectY));
      var isAvailable := IsSkillAvailable(pixel);
      var isOnCooldown := IsSkillOnCooldown(pixel);
      if isAvailable && buttonState == OnCooldown {
        OnButtonAvailable();
      } else if isOnCooldown && buttonState == Up {
        OnButtonOnCooldown();
      } else if !isAvailable && !isOnCooldown && buttonState == Up {
        OnButtonOnCooldown();
      }
    }

    method ProcessCooldown()
      requires !key.autoDetectCooldown
      modifies this`buttonState, this`timer, this`raised, this`pressed
      ensures Fields() == CooldownStep(autocastKeyCode, old(Fields())).view
      ensures raised == old(raised) + CooldownStep(autocastKeyCode, old(Fields())).raised
      ensures pressed == old(pressed) + CooldownStep(autocastKeyCode, old(Fields())).pressed
    {
      if buttonState == AutoCasting {
        pressed := pressed + [autocastKeyCode];
      } else {
        OnButtonAvailable();
      }
    }

    method OnButtonOnCooldown()
      modifies this`buttonState, this`timer, this`raised
      ensures buttonState == OnCooldown && raised == old(raised) + [OnCooldown]
      ensures timer == if key.autoDetectCooldown then old(timer) else None
    {
      UnloadOneShotTimer();
      OnButtonStateChanged(OnCooldown);
    }

    method OnButtonAvailable()
      modifies this`buttonState, this`timer, this`raised
      ensures buttonState == Up && raised == old(raised) + [Up]
      ensures timer == if key.autoDetectCooldown then old(timer) else None
    {
      UnloadOneShotTimer();
      OnButtonStateChanged(Up);
    }

    /** Releases the timer unless it is the auto-detect timer. */
    method UnloadOneShotTimer()
      modifies this`timer
      ensures timer == if key.autoDetectCooldown then old(timer) else None
    {
      if key.autoDetectCooldown {
        return;
      }
      UnloadTimer();
    }

    method UnloadTimer()
      modifies this`timer
      ensures timer.None?
    {
      timer := None;
    }
  }
}
