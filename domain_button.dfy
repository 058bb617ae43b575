/**
 * The earlier button revision of Domain/CooldownButton.cs: the same Up /
 * OnCooldown / AutoCasting / Disabled machine without auto-detect, which shows
 * the button (its WPF visibility) exactly while it is Up.
 */
module DomainButton {
  import opened Wrappers
  import opened ThreadingTimer
  import opened ButtonConfig
  import Buttons

  /** The fields `buttonState`, `timer` and the button's visibility. */
  datatype View = View(state: CooldownButtonState, timer: Option<Timer>, visible: bool)

  /** What one call does: the new fields and the autocast keys pressed. */
  datatype Step = Step(view: View, pressed: seq<KeyCode>)

  /** `CreateTimer(period)`: due after the configured cooldown. */
  function CreateTimer(key: Key, period: int): Timer
  {
    Timer(key.cooldown, period)
  }

  /** `SetButtonState`: the state, shown only when Up. */
  function SetState(v: View, state: CooldownButtonState): View
  {
    View(state, v.timer, state == Up)
  }

  /** What the fields of a button with configuration `key` always satisfy. */
  predicate Consistent(key: Key, v: View)
  {
    v.visible == (v.state == Up) &&
    (v.state == Disabled <==> !key.enabled) &&
    (v.state == AutoCasting ==> key.autocast) &&
    (v.timer.None? <==> v.state == Up || v.state == Disabled) &&
    (v.timer.Some? ==> v.timer.value == CreateTimer(key, if key.autocast then key.cooldown else Infinite))
  }

  function Initial(key: Key): View
  {
    SetState(View(Disabled, None, false), if key.enabled then Up else Disabled)
  }

  /** `Press`. */
  function PressStep(key: Key, v: View): View
  {
    if v.state == Disabled then v
    else if key.autocast && v.state == AutoCasting then SetState(v, OnCooldown)
    else if key.autocast && v.state == Up then SetState(v.(timer := Some(CreateTimer(key, key.cooldown))), AutoCasting)
    else if v.state == Up then SetState(v.(timer := Some(CreateTimer(key, Infinite))), OnCooldown)
    else v
  }

  /** `CooldownEnded`: autocasting presses the key; otherwise `Unload` and Up. */
  function EndedStep(code: KeyCode, v: View): Step
  {
    if v.state == AutoCasting then Step(v, [code]) else Step(SetState(v.(timer := None), Up), [])
  }

  lemma InitialConsistent(key: Key)
    ensures Consistent(key, Initial(key))
    ensures Initial(key).state == (if key.enabled then Up else Disabled) && Initial(key).timer.None?
  {
  }

  /** Presses and expiries keep the fields consistent; the button is visible exactly when Up. */
  lemma StepsKeepConsistent(key: Key, code: KeyCode, v: View)
    requires Consistent(key, v)
    ensures Consistent(key, PressStep(key, v))
    ensures v.timer.Some? ==> Consistent(key, EndedStep(code, v).view)
    ensures PressStep(key, v).visible <==> PressStep(key, v).state == Up
  {
  }

  /** A press changes nothing exactly when the button is Disabled or OnCooldown. */
  lemma PressNoOpIff(key: Key, v: View)
    requires Consistent(key, v)
    ensures PressStep(key, v) == v <==> v.state == Disabled || v.state == OnCooldown
  {
  }

  /**
   * On a key that does not auto-detect, this revision moves between the same
   * states and timers as the one in Cooldowns.Domain/Buttons/CooldownButton.cs.
   */
  lemma AgreesWithAutoDetectRevision(key: Key, code: KeyCode, v: View)
    requires !key.autoDetectCooldown
    ensures var b := Buttons.PressStep(key, Buttons.View(v.state, v.timer)).view;
      b == Buttons.View(PressStep(key, v).state, PressStep(key, v).timer)
    ensures var b := Buttons.CooldownStep(code, Buttons.View(v.state, v.timer));
      b.view == Buttons.View(EndedStep(code, v).view.state, EndedStep(code, v).view.timer) &&
      b.pressed == EndedStep(code, v).pressed
  {
  }

  class CooldownButton {
    const key: Key
    const autocastKeyCode: KeyCode
    var buttonState: CooldownButtonState
    var timer: Option<Timer>
    /** Whether the WPF button is shown. */
    var visible: bool
    /** The autocast key presses sent, in order. */
    ghost var pressed: seq<KeyCode>

    function Fields(): View
      reads this
    {
      View(buttonState, timer, visible)
    }

    ghost predicate Valid()
      reads this
    {
      Consistent(key, Fields())
    }

    /** The constructor after `Enum.Parse` has produced the autocast key code. */
    constructor (key: Key, autocastKeyCode: KeyCode)
      ensures this.key == key && this.autocastKeyCode == autocastKeyCode
      ensures Fields() == Initial(key) && pressed == [] && Valid()
    {
      this.key := key;
      this.autocastKeyCode := autocastKeyCode;
      buttonState := Disabled;
      timer := None;
      visible := false;
      pressed := [];
      new;
      SetButtonState(if key.enabled then Up else Disabled);
    }

    /** Construction, which fails where `Enum.Parse` throws on the autocast key name. */
    static method Create(names: KeyNames, key: Key) returns (b: Option<CooldownButton>)
      ensures b.None? <==> key.autocastKey !in names
      ensures b.Some? ==> fresh(b.value) && b.value.key == key && b.value.Valid()
      ensures b.Some? ==> b.value.autocastKeyCode == names[key.autocastKey]
      ensures b.Some? ==> b.value.Fields() == Initial(key) && b.value.pressed == []
    {
      var code := ParseKeyCode(names, key.autocastKey);
      if code.None? {
        return None;
      }
      var button := new CooldownButton(key, code.value);
      return Some(button);
    }

    /** Every state is one of the four the switch shows, so the throwing arm is never taken. */
    method SetButtonState(updatedState: CooldownButtonState)
      modifies this`buttonState, this`visible
      ensures Fields() == SetState(old(Fields()), updatedState)
    {
      match updatedState {
        case Disabled => visible := false;
        case AutoCasting => visible := false;
        case OnCooldown => visible := false;
        case Up => visible := true;
      }
      buttonState := updatedState;
    }

    method Press()
      requires Valid()
      modifies this`buttonState, this`timer, this`visible
      ensures Valid() && Fields() == PressStep(key, old(Fields()))
    {
      if buttonState == Disabled {
        return;
      }
      if key.autocast && buttonState == AutoCasting {
        SetButtonState(OnCooldown);
      } else if key.autocast && buttonState == Up {
        timer := Some(CreateTimer(key, key.cooldown));
        SetButtonState(AutoCasting);
      } else if buttonState == Up {
        timer := Some(CreateTimer(key, Infinite));
        SetButtonState(OnCooldown);
      }
    }

    /** The callback of the held timer, run at once as the dispatcher would run it. */
    method CooldownEnded()
      requires Valid() && timer.Some?
      modifies this`buttonState, this`timer, this`visible, this`pressed
      ensures Valid()
      ensures Fields() == EndedStep(autocastKeyCode, old(Fields())).view
      ensures pressed == old(pressed) + EndedStep(autocastKeyCode, old(Fields())).pressed
    {
      if buttonState == AutoCasting {
        pressed := pressed + [autocastKeyCode];
      } else {
        Unload();
        SetButtonState(Up);
      }
    }

    method Unload()
      modifies this`timer
      ensures timer.None?
    {
      timer := None;
    }
  }
}
