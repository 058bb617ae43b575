/**
 * The mode-based button that Cooldowns.Tests/Tests/CooldownButtonTests.cs
 * drives: a mode (Disabled / Manual / AutoCast) cycled by `ChangeMode`, a state
 * (Ready / Cooldown / Active) classified from one screen pixel on every tick of
 * the shared scheduler, and in AutoCast one press of the action key per window
 * in which the skill is available.
 */
module ModeButtons {
  import opened Wrappers
  import opened ScreenColor
  import ButtonConfig

  /** `CooldownButtonMode`. */
  datatype ButtonMode = Disabled | Manual | AutoCast

  /** `CooldownButtonState` of this revision. */
  datatype ButtonState = Ready | Cooldown | Active

  /** `ChangeMode`'s cycle: Manual, AutoCast, Disabled, Manual, ... */
  function NextMode(m: ButtonMode): ButtonMode
  {
    match m
    case Manual => AutoCast
    case AutoCast => Disabled
    case Disabled => Manual
  }

  /** The reference colours of the skill icon: `SkillAvailableColor`, `SkillCooldownColor`, `SkillActiveColor`. */
  datatype Palette = Palette(available: Argb, cooldown: Argb, active: Argb)

  /**
   * The classification of a sampled pixel: an exact match of the available colour
   * is Ready, a tolerant match of the cooldown colour Cooldown, of the active colour
   * Active, and anything else Cooldown.
   */
  function Classify(p: Palette, pixel: Argb): ButtonState
  {
    if IsExactMatch(pixel, p.available) then Ready
    else if IsMatch(pixel, p.cooldown) then Cooldown
    else if IsMatch(pixel, p.active) then Active
    else Cooldown
  }

  /** No two reference colours are a tolerant match for each other. */
  predicate Separated(p: Palette)
  {
    !IsMatch(p.available, p.cooldown) && !IsMatch(p.available, p.active) && !IsMatch(p.cooldown, p.active)
  }

  /** Ready only on the exact available colour; a colour that matches nothing is Cooldown. */
  lemma ClassifyFailSafe(p: Palette, pixel: Argb)
    ensures Classify(p, pixel) == Ready <==> IsExactMatch(pixel, p.available)
    ensures !IsExactMatch(pixel, p.available) && !IsMatch(pixel, p.cooldown) && !IsMatch(pixel, p.active) ==>
      Classify(p, pixel) == Cooldown
    ensures Classify(p, pixel) == Active ==> IsMatch(pixel, p.active)
  {
  }

  /** With a separated palette each reference colour is classified as its own state. */
  lemma ClassifyReferenceColors(p: Palette)
    requires Separated(p)
    ensures Classify(p, p.available) == Ready
    ensures Classify(p, p.cooldown) == Cooldown
    ensures Classify(p, p.active) == Active
  {
    ExactMatchEquivalence(p.available, p.available, p.available);
    IsMatchReflexiveSymmetric(p.available, p.cooldown);
    IsMatchReflexiveSymmetric(p.available, p.active);
    IsMatchReflexiveSymmetric(p.cooldown, p.active);
    ExactMatchIff(p.cooldown, p.available);
    ExactMatchIff(p.active, p.available);
  }

  /** The fields `mode`, `state` and whether AutoCast has already pressed in this window. */
  datatype Snapshot = Snapshot(mode: ButtonMode, state: ButtonState, fired: bool)

  const Initial: Snapshot := Snapshot(Manual, Ready, false)

  /** `ChangeMode`: the next mode; entering Manual or AutoCast starts Ready and re-armed. */
  function ChangeModeStep(s: Snapshot): Snapshot
  {
    var m := NextMode(s.mode);
    if m == Disabled then s.(mode := m) else s.(mode := m, state := Ready, fired := false)
  }

  /** What one tick does: the new fields, the `ButtonStateChanged` values raised, and whether the key was pressed. */
  datatype TickOutcome = TickOutcome(after: Snapshot, raised: seq<ButtonState>, pressed: bool)

  /** One scheduler tick with the sampled pixel classified as `c`. */
  function TickStep(s: Snapshot, c: ButtonState): (o: TickOutcome)
    ensures o.after.mode == s.mode
    ensures o.pressed ==> s.mode == AutoCast && c == Ready && !s.fired && o.after.fired
    ensures o.raised == [] || (s.mode == Manual && c != s.state && o.raised == [c] && o.after.state == c)
    ensures s.mode != Manual ==> o.after.state == s.state
  {
    match s.mode
    case Disabled => TickOutcome(s, [], false)
    case Manual => if c == s.state then TickOutcome(s, [], false) else TickOutcome(s.(state := c), [c], false)
    case AutoCast =>
      if c == Ready && !s.fired then TickOutcome(s.(fired := true), [], true)
      else if c == Cooldown then TickOutcome(s.(fired := false), [], false)
      else TickOutcome(s, [], false)
  }

  /** What drives the button: a mode-key press, or a scheduler tick whose pixel was classified as `c`. */
  datatype Input = ChangeMode | Tick(c: ButtonState)

  /** A run: the final fields, the state and mode values raised, and how many presses were sent. */
  datatype RunOutcome = RunOutcome(after: Snapshot, raised: seq<ButtonState>, modes: seq<ButtonMode>, presses: nat)

  /** One input on its own. */
  function Apply(s: Snapshot, input: Input): RunOutcome
  {
    match input
    case ChangeMode =>
      var next := ChangeModeStep(s);
      RunOutcome(next, [], [next.mode], 0)
    case Tick(c) =>
      var o := TickStep(s, c);
      RunOutcome(o.after, o.raised, [], if o.pressed then 1 else 0)
  }

  /** `first` followed by `rest`. */
  function Then(first: RunOutcome, rest: RunOutcome): RunOutcome
  {
    RunOutcome(rest.after, first.raised + rest.raised, first.modes + rest.modes, first.presses + rest.presses)
  }

  function Run(s: Snapshot, inputs: seq<Input>): RunOutcome
    decreases |inputs|
  {
    if inputs == [] then RunOutcome(s, [], [], 0)
    else
      var first := Apply(s, inputs[0]);
      Then(first, Run(first.after, inputs[1..]))
  }

  /** Three mode changes return to the starting mode, raising the two others and then it. */
  lemma ModeCycle(s: Snapshot)
    ensures NextMode(NextMode(NextMode(s.mode))) == s.mode
    ensures ChangeModeStep(ChangeModeStep(ChangeModeStep(s))).mode == s.mode
    ensures NextMode(s.mode) != s.mode && NextMode(NextMode(s.mode)) != s.mode
    ensures s.mode != Disabled ==> ChangeModeStep(ChangeModeStep(ChangeModeStep(s))) == Snapshot(s.mode, Ready, false)
  {
  }

  /** Runs compose: the outcome of `a + b` is that of `a` followed by that of `b`. */
  lemma {:induction false} RunAppend(s: Snapshot, a: seq<Input>, b: seq<Input>)
    ensures Run(s, a + b) == Then(Run(s, a), Run(Run(s, a).after, b))
    decreases |a|
  {
    if a == [] {
      assert a + b == b;
    } else {
      var first := Apply(s, a[0]);
      assert (a + b)[0] == a[0] && (a + b)[1..] == a[1..] + b;
      RunAppend(first.after, a[1..], b);
      var x := Run(first.after, a[1..]);
      var y := Run(x.after, b);
      assert first.raised + (x.raised + y.raised) == (first.raised + x.raised) + y.raised;
      assert first.modes + (x.modes + y.modes) == (first.modes + x.modes) + y.modes;
    }
  }

  /** A run extended by one input. */
  lemma RunSnoc(s: Snapshot, a: seq<Input>, x: Input)
    ensures Run(s, a + [x]) == Then(Run(s, a), Apply(Run(s, a).after, x))
  {
    RunAppend(s, a, [x]);
    var r := Run(s, a);
    var o := Apply(r.after, x);
    assert [x][1..] == [];
    assert Run(r.after, [x]) == Then(o, RunOutcome(o.after, [], [], 0));
    assert Then(o, RunOutcome(o.after, [], [], 0)) == o by {
      assert o.raised + [] == o.raised && o.modes + [] == o.modes;
    }
  }

  /** The mode after `n` presses of the mode key. */
  function Cycled(m: ButtonMode, n: nat): ButtonMode
  {
    if n == 0 then m else NextMode(Cycled(m, n - 1))
  }

  /**
   * Mode-key presses only: each one raises the next mode, nothing else is
   * raised or pressed, and the state and the re-arm flag are those of the
   * last mode entered other than Disabled.
   */
  lemma {:induction false} ModeChangesOnly(s: Snapshot, inputs: seq<Input>)
    requires forall i :: 0 <= i < |inputs| ==> inputs[i] == ChangeMode
    ensures |Run(s, inputs).modes| == |inputs|
    ensures forall i :: 0 <= i < |inputs| ==> Run(s, inputs).modes[i] == Cycled(s.mode, i + 1)
    ensures Run(s, inputs).after.mode == Cycled(s.mode, |inputs|)
    ensures |inputs| > 0 && Cycled(s.mode, |inputs|) != Disabled ==>
      Run(s, inputs).after == Snapshot(Cycled(s.mode, |inputs|), Ready, false)
    ensures Run(s, inputs).raised == [] && Run(s, inputs).presses == 0
    decreases |inputs|
  {
    if inputs != [] {
      var next := ChangeModeStep(s);
      ModeChangesOnly(next, inputs[1..]);
      var rest := Run(next, inputs[1..]);
      forall i | 0 <= i < |inputs|
        ensures Run(s, inputs).modes[i] == Cycled(s.mode, i + 1)
      {
        if i > 0 {
          CycledShift(s.mode, i);
        }
      }
      CycledShift(s.mode, |inputs| - 1);
    }
  }

  /** `n + 1` presses from `m` are `n` presses from the next mode. */
  lemma {:induction false} CycledShift(m: ButtonMode, n: nat)
    ensures Cycled(m, n + 1) == Cycled(NextMode(m), n)
    decreases n
  {
    if n > 0 {
      CycledShift(m, n - 1);
    }
  }

  /**
   * The test's cycle from a Manual button (a new one is Manual): the mode key
   * pressed three times raises AutoCast, Disabled, Manual, and the button is
   * back in Manual, Ready and re-armed, with nothing else raised or pressed.
   */
  lemma ModeCycleFromManual(s: Snapshot, inputs: seq<Input>)
    requires s.mode == Manual && |inputs| == 3
    requires forall i :: 0 <= i < |inputs| ==> inputs[i] == ChangeMode
    ensures Run(s, inputs).modes == [AutoCast, Disabled, Manual]
    ensures Run(s, inputs).after == Snapshot(Manual, Ready, false)
    ensures Run(s, inputs).raised == [] && Run(s, inputs).presses == 0
  {
    ModeChangesOnly(s, inputs);
    assert Cycled(Manual, 1) == AutoCast && Cycled(Manual, 2) == Disabled && Cycled(Manual, 3) == Manual;
  }

  /** A disabled button ignores every tick. */
  lemma {:induction false} DisabledIgnoresTicks(s: Snapshot, inputs: seq<Input>)
    requires s.mode == Disabled
    requires forall i :: 0 <= i < |inputs| ==> inputs[i].Tick?
    ensures Run(s, inputs) == RunOutcome(s, [], [], 0)
    decreases |inputs|
  {
    if inputs != [] {
      DisabledIgnoresTicks(s, inputs[1..]);
    }
  }

  /** In Manual mode a tick raises the classified state exactly when it differs from the current one. */
  lemma ManualTick(s: Snapshot, c: ButtonState)
    requires s.mode == Manual
    ensures TickStep(s, c).after == s.(state := c)
    ensures TickStep(s, c).raised == (if c == s.state then [] else [c])
    ensures !TickStep(s, c).pressed
  {
  }

  /** Manual ticks that keep classifying the same way raise that state at most once. */
  lemma {:induction false} ManualRaisesOnce(s: Snapshot, c: ButtonState, n: nat)
    requires s.mode == Manual
    ensures Run(s, seq(n, _ => Tick(c))) ==
      RunOutcome(if n == 0 then s else s.(state := c), if n == 0 || c == s.state then [] else [c], [], 0)
    decreases n
  {
    if n > 0 {
      var inputs := seq(n, _ => Tick(c));
      assert inputs[0] == Tick(c) && inputs[1..] == seq(n - 1, _ => Tick(c));
      ManualRaisesOnce(s.(state := c), c, n - 1);
    }
  }

  /** In AutoCast, ticks that all show the skill available press the key once, or not at all if already pressed. */
  lemma {:induction false} AutoCastOncePerWindow(s: Snapshot, n: nat)
    requires s.mode == AutoCast
    ensures Run(s, seq(n, _ => Tick(Ready))).presses == (if n > 0 && !s.fired then 1 else 0)
    ensures Run(s, seq(n, _ => Tick(Ready))).after == s.(fired := s.fired || n > 0)
    ensures Run(s, seq(n, _ => Tick(Ready))).raised == []
    decreases n
  {
    if n > 0 {
      var inputs := seq(n, _ => Tick(Ready));
      assert inputs[0] == Tick(Ready) && inputs[1..] == seq(n - 1, _ => Tick(Ready));
      AutoCastOncePerWindow(s.(fired := true), n - 1);
    }
  }

  /** A cooldown tick re-arms AutoCast: the next available tick presses again. */
  lemma CooldownRearms(s: Snapshot)
    requires s.mode == AutoCast
    ensures TickStep(s, Cooldown).after == s.(fired := false)
    ensures TickStep(TickStep(s, Cooldown).after, Ready).pressed
    ensures TickStep(s, Active).after == s && !TickStep(s, Active).pressed
  {
  }

  /**
   * One press per availability window: in AutoCast, `k` available ticks, one
   * cooldown tick and `m` available ticks press the key twice when `k` and `m`
   * are positive.
   */
  lemma TwoWindowsTwoPresses(s: Snapshot, k: nat, m: nat)
    requires s.mode == AutoCast && !s.fired && k > 0 && m > 0
    ensures Run(s, seq(k, _ => Tick(Ready)) + [Tick(Cooldown)] + seq(m, _ => Tick(Ready))).presses == 2
  {
    var a := seq(k, _ => Tick(Ready));
    var b := seq(m, _ => Tick(Ready));
    AutoCastOncePerWindow(s, k);
    RunSnoc(s, a, Tick(Cooldown));
    AutoCastOncePerWindow(s, m);
    RunAppend(s, a + [Tick(Cooldown)], b);
  }

  /** The window of the once-per-cycle test: five available ticks, one cooldown tick, one available tick. */
  lemma FiveReadyOneCooldownOneReady(s: Snapshot)
    requires s.mode == AutoCast && !s.fired
    ensures Run(s, seq(5, _ => Tick(Ready)) + [Tick(Cooldown)] + [Tick(Ready)]).presses == 2
  {
    TwoWindowsTwoPresses(s, 5, 1);
    assert seq(1, _ => Tick(Ready)) == [Tick(Ready)];
  }

  /** A prefix of a run extended by the next input. */
  lemma PrefixStep(s: Snapshot, inputs: seq<Input>, k: nat)
    requires k < |inputs|
    ensures Run(s, inputs[..k + 1]).after == Apply(Run(s, inputs[..k]).after, inputs[k]).after
    ensures Run(s, inputs[..k + 1]).raised == Run(s, inputs[..k]).raised + Apply(Run(s, inputs[..k]).after, inputs[k]).raised
    ensures Run(s, inputs[..k + 1]).modes == Run(s, inputs[..k]).modes + Apply(Run(s, inputs[..k]).after, inputs[k]).modes
    ensures Run(s, inputs[..k + 1]).presses == Run(s, inputs[..k]).presses + Apply(Run(s, inputs[..k]).after, inputs[k]).presses
  {
    assert inputs[..k + 1] == inputs[..k] + [inputs[k]];
    RunSnoc(s, inputs[..k], inputs[k]);
  }

  /** The first half of the cycle test: to AutoCast, one press on the available tick, to Disabled. */
  lemma ModeCycleFirstHalf(s: Snapshot, inputs: seq<Input>)
    requires s.mode == Manual && |inputs| >= 3
    requires inputs[0] == ChangeMode && inputs[1] == Tick(Ready) && inputs[2] == ChangeMode
    ensures Run(s, inputs[..3]).after == Snapshot(Disabled, Ready, true)
    ensures Run(s, inputs[..3]).modes == [AutoCast, Disabled]
    ensures Run(s, inputs[..3]).raised == [] && Run(s, inputs[..3]).presses == 1
  {
    var armed := Snapshot(AutoCast, Ready, false);
    assert inputs[..0] == [];
    PrefixStep(s, inputs, 0);
    assert Run(s, inputs[..1]).after == armed && Run(s, inputs[..1]).modes == [AutoCast];
    assert Run(s, inputs[..1]).raised == [] && Run(s, inputs[..1]).presses == 0;
    PrefixStep(s, inputs, 1);
    assert Run(s, inputs[..2]).after == armed.(fired := true) && Run(s, inputs[..2]).modes == [AutoCast];
    assert Run(s, inputs[..2]).raised == [] && Run(s, inputs[..2]).presses == 1;
    PrefixStep(s, inputs, 2);
  }

  /** The cycle test up to its last tick: the Disabled tick is ignored, and the third mode change enters Manual. */
  lemma ModeCycleSecondHalf(s: Snapshot, inputs: seq<Input>)
    requires s.mode == Manual && |inputs| >= 5
    requires inputs[0] == ChangeMode && inputs[1] == Tick(Ready) && inputs[2] == ChangeMode
    requires inputs[3] == Tick(Ready) && inputs[4] == ChangeMode
    ensures Run(s, inputs[..5]).after == Snapshot(Manual, Ready, false)
    ensures Run(s, inputs[..5]).modes == [AutoCast, Disabled, Manual]
    ensures Run(s, inputs[..5]).raised == [] && Run(s, inputs[..5]).presses == 1
  {
    ModeCycleFirstHalf(s, inputs);
    PrefixStep(s, inputs, 3);
    assert Run(s, inputs[..4]).after == Snapshot(Disabled, Ready, true);
    assert Run(s, inputs[..4]).modes == [AutoCast, Disabled];
    assert Run(s, inputs[..4]).raised == [] && Run(s, inputs[..4]).presses == 1;
    PrefixStep(s, inputs, 4);
  }

  /**
   * The cycle test as it runs: the pixel shows the skill available throughout,
   * and a tick follows each of three mode-key presses. The modes raised are
   * AutoCast, Disabled, Manual; the tick in AutoCast presses the key once; no
   * state is raised, and the button ends Manual, Ready and re-armed.
   */
  lemma ModeCycleWithTicks(s: Snapshot, inputs: seq<Input>)
    requires s.mode == Manual && |inputs| == 6
    requires inputs[0] == ChangeMode && inputs[2] == ChangeMode && inputs[4] == ChangeMode
    requires inputs[1] == Tick(Ready) && inputs[3] == Tick(Ready) && inputs[5] == Tick(Ready)
    ensures Run(s, inputs).modes == [AutoCast, Disabled, Manual]
    ensures Run(s, inputs).raised == [] && Run(s, inputs).presses == 1
    ensures Run(s, inputs).after == Snapshot(Manual, Ready, false)
  {
    ModeCycleSecondHalf(s, inputs);
    PrefixStep(s, inputs, 5);
    assert inputs[..6] == inputs;
  }

  /**
   * The once-per-cycle test: after the mode key switches a Manual button to
   * AutoCast, the ticks available, available, on cooldown, available bring the
   * press count to 1, 1, 1, 2 and raise no state.
   */
  lemma OncePerCycleScenario(s: Snapshot, inputs: seq<Input>)
    requires s.mode == Manual && |inputs| == 5 && inputs[0] == ChangeMode
    requires inputs[1] == Tick(Ready) && inputs[2] == Tick(Ready) && inputs[3] == Tick(Cooldown) && inputs[4] == Tick(Ready)
    ensures Run(s, inputs[..2]).presses == 1
    ensures Run(s, inputs[..3]).presses == 1
    ensures Run(s, inputs[..4]).presses == 1
    ensures Run(s, inputs).presses == 2 && Run(s, inputs).raised == []
  {
    var armed := Snapshot(AutoCast, Ready, false);
    var fired := armed.(fired := true);
    assert inputs[..0] == [];
    PrefixStep(s, inputs, 0);
    assert Run(s, inputs[..1]).after == armed && Run(s, inputs[..1]).presses == 0 && Run(s, inputs[..1]).raised == [];
    PrefixStep(s, inputs, 1);
    assert Run(s, inputs[..2]).after == fired && Run(s, inputs[..2]).raised == [];
    PrefixStep(s, inputs, 2);
    assert Run(s, inputs[..3]).after == fired && Run(s, inputs[..3]).raised == [];
    PrefixStep(s, inputs, 3);
    assert Run(s, inputs[..4]).after == armed && Run(s, inputs[..4]).raised == [];
    PrefixStep(s, inputs, 4);
    assert inputs[..5] == inputs;
  }

  /** The configured key of this revision (Cooldowns.Domain/Config/Key.cs), key names already parsed. */
  datatype ModeKey = ModeKey(keyLabel: string, actionKey: ButtonConfig.KeyCode, modeKey: ButtonConfig.KeyCode, detectX: int, detectY: int)

  class CooldownButton {
    const config: ModeKey
    const palette: Palette
    var mode: ButtonMode
    var state: ButtonState
    var fired: bool
    /** Whether the tick handler is attached to the scheduler. */
    var subscribed: bool
    /** The values `ButtonStateChanged` and `ButtonModeChanged` were raised with, in order. */
    ghost var raised: seq<ButtonState>
    ghost var modes: seq<ButtonMode>
    /** The action keys pressed, in order. */
    ghost var pressed: seq<ButtonConfig.KeyCode>

    function Fields(): Snapshot
      reads this`mode, this`state, this`fired
    {
      Snapshot(mode, state, fired)
    }

    constructor (config: ModeKey, palette: Palette)
      ensures this.config == config && this.palette == palette
      ensures Fields() == Initial && subscribed
      ensures raised == [] && modes == [] && pressed == []
    {
      this.config := config;
      this.palette := palette;
      mode := Manual;
      state := Ready;
      fired := false;
      subscribed := true;
      raised := [];
      modes := [];
      pressed := [];
    }

    method ChangeMode()
      modifies this`mode, this`state, this`fired, this`modes
      ensures Fields() == ChangeModeStep(old(Fields()))
      ensures modes == old(modes) + [mode]
    {
      mode := NextMode(mode);
      if mode != Disabled {
        state := Ready;
        fired := false;
      }
      modes := modes + [mode];
    }

    /** The handler of the scheduler's `Ticked`. */
    method OnTick(screen: Screen)
      modifies this`state, this`fired, this`raised, this`pressed
      ensures var o := TickStep(old(Fields()), Classify(palette, screen(Point(config.detectX, config.detectY))));
        Fields() == o.after && raised == old(raised) + o.raised &&
        pressed == old(pressed) + (if o.pressed then [config.actionKey] else [])
    {
      if mode == Disabled {
        return;
      }
      var pixel := screen(Point(config.detectX, config.detectY));
      var classified := Classify(palette, pixel);
      if mode == Manual {
        if classified != state {
          state := classified;
          raised := raised + [classified];
        }
      } else if classified == Ready && !fired {
        pressed := pressed + [config.actionKey];
        fired := true;
      } else if classified == Cooldown {
        fired := false;
      }
    }

    /** A scheduler tick reaches the button only while it is subscribed. */
    method TimerTicked(screen: Screen)
      modifies this`state, this`fired, this`raised, this`pressed
      ensures !subscribed ==> Fields() == old(Fields()) && raised == old(raised) && pressed == old(pressed)
      ensures subscribed ==>
        var o := TickStep(old(Fields()), Classify(palette, screen(Point(config.detectX, config.detectY))));
        Fields() == o.after && raised == old(raised) + o.raised &&
        pressed == old(pressed) + (if o.pressed then [config.actionKey] else [])
    {
      if subscribed {
        OnTick(screen);
      }
    }

    /** Detaches the tick handler. */
    method Dispose()
      modifies this`subscribed
      ensures !subscribed
    {
      subscribed := false;
    }
  }

  /** Construction, which fails where a key name does not parse. */
  method Create(names: ButtonConfig.KeyNames, keyLabel: string, actionKey: string, modeKey: string, detectX: int, detectY: int,
                palette: Palette) returns (b: Option<CooldownButton>)
    ensures b.None? <==> actionKey !in names || modeKey !in names
    ensures b.Some? ==> fresh(b.value) && b.value.Fields() == Initial && b.value.palette == palette
    ensures b.Some? ==> b.value.config == ModeKey(keyLabel, names[actionKey], names[modeKey], detectX, detectY)
  {
    var action := ButtonConfig.ParseKeyCode(names, actionKey);
    var modeCode := ButtonConfig.ParseKeyCode(names, modeKey);
    if action.None? || modeCode.None? {
      return None;
    }
    var button := new CooldownButton(ModeKey(keyLabel, action.value, modeCode.value, detectX, detectY), palette);
    return Some(button);
  }
}
