# Cooldowns — a Dafny model of the overlay's core logic

Cooldowns is a Windows overlay for a game. It watches single screen pixels to tell
whether an ability is available, on cooldown or active. It shows one button per
configured key and, where asked to, presses an ability's key by itself. This project
models the sequential, integer-only core of that program and proves what it does:

- **Colour matching** (`ScreenColor`). `Color.IsMatch` is a tolerance match of at most
  4 per RGB channel. `Color.IsExactMatch` is equality of the packed signed 32-bit ARGB
  value.
- **The fingerprint classifier** (`Status`). `StatusChecker<T>` tries an ordered list of
  candidates (points, colours, value) on every scheduler tick:
  - the first candidate matched exactly everywhere becomes the state and is raised;
  - every failing candidate adds one miss;
  - a pass that ends above five misses raises the missing value.

  Its two loops are kept as `while` loops, proved against the pure function `Check`.
- **The two Sigils of Hope tables** (`DomainSigilsOfHopeFactory`,
  `AppSigilsOfHopeFactory`). These are constant fingerprint tables. Lemmas prove their
  shape and that at most one entry matches any screen.
- **Three revisions of the per-key button**:
  - `Buttons`: Up / OnCooldown / AutoCasting / Disabled, plus auto-detection from a
    pixel;
  - `DomainButton`: the same without auto-detection, plus WPF visibility;
  - `DomainButtonTimer`: Up / OnCooldown / Disabled only.

  Each is a class whose methods are proved to follow a pure step function. An invariant
  that every step keeps ties the state to the held timer.
- **The mode-based button** (`ModeButtons`). Its implementation is not part of this
  model; only its tests are. The behaviour they pin down is modelled:
  - the mode cycle Manual → AutoCast → Disabled → Manual;
  - the pixel classification, with its fail-safe to Cooldown;
  - one AutoCast press per availability window.

  The reference colours are a parameter (`Palette`) because the implementation
  that defines them is not part of this model.
- **Timer bookkeeping**:
  - `GameTimer`: the shared scheduler `Cooldowns.Domain/Timer/CooldownTimer.cs`;
  - `ButtonTimer`: the button timer `Cooldowns.Domain/Buttons/CooldownTimer.cs`;
  - `TestFixtures`: the dictionary-based test double `FakeCooldownTimer`.

How the surroundings are modelled:

- **Timers.** `System.Threading.Timer` is `ThreadingTimer.Timer(dueTime, period)`.
  `FiresAt` says when its callback runs. A timer callback is an explicit method call.
  The dispatcher runs the dispatched code at once.
- **The screen.** It is a function from `Point` to `Argb`.
- **Events and key presses.** Raised events and pressed keys are ghost logs.
- **Key names.** `Enum.Parse<VirtualKeyCode>` is a lookup in a `KeyNames` map. A name
  that does not parse makes construction return `None`, where the source throws.

Where the source's revisions disagree, the model follows the code:

- **StatusChecker's candidate shape.** `StatusChecker.cs` reads
  `Fingerprints`/`Points`/`Colors`/`State`. That is not the shape of the
  `StatusCheckInfo`, `Fingerprint` and `Testpoint` files of this revision, so the
  model uses the shape the checker reads.
- **The domain factory's presence fingerprint.** `HasState` is kept as data. This revision's
  `StatusChecker` has no presence phase, so it never reads it.
- **The button configuration.** `ButtonConfig.Key` has the fields of
  `Configuration/Key.cs`. Those are the fields the button revisions read, and
  `Cooldowns.Domain/Config/Key.cs` lacks them.
- **The repeating timer's arguments.** `ButtonTimer.StartRepeating` uses due time 100
  and period 1000, as written; the source marks the 1000 "todo really?". The
  auto-detecting button of `Cooldowns.Domain/Buttons/CooldownButton.cs` passes the same
  two constants the other way round (due 1000, period 100), and this is also modelled
  as written.
- **AutoCast and the state.** In the mode-based button, AutoCast neither changes nor
  raises the state. The once-per-cycle test would fail its state assertion if a
  Cooldown tick raised Cooldown.

## Model

| member | source | states |
|---|---|---|
| ScreenColor.IsMatch | Cooldowns.Domain/Screen/Color.cs:5-12 | the tolerant per-channel match with tolerance 5, red, green and blue only; its meaning is stated by `IsMatchIff` |
| ScreenColor.ToArgb | Cooldowns.Domain/Screen/Color.cs:16 | the value is the packed 0xAARRGGBB word read as a signed 32-bit integer, negative exactly when alpha is 128 or more |
| ScreenColor.IsExactMatch | Cooldowns.Domain/Screen/Color.cs:14-17 | equality of the `ToArgb` values; its meaning is stated by `ExactMatchIff` |
| ScreenColor.FromRgb | Cooldowns/Factory/SigilsOfHopeFactory.cs:49 | `Color.FromArgb(r, g, b)`, the opaque colour the factory tables are written with |
| ScreenColor.IsMatchIff | Cooldowns.Domain/Screen/Color.cs:5-12 | `IsMatch` holds iff each of R, G, B differs by at most 4 (strictly less than the tolerance 5) |
| ScreenColor.DifferenceOfFiveFails | Cooldowns.Domain/Screen/Color.cs:5-12 | a difference of exactly 5 on any one channel is a mismatch |
| ScreenColor.IsMatchReflexiveSymmetric | Cooldowns.Domain/Screen/Color.cs:7-12 | the tolerance match is reflexive and symmetric |
| ScreenColor.AlphaOnlyMattersToExactMatch | Cooldowns.Domain/Screen/Color.cs:7-17 | changing alpha never changes `IsMatch`, and always breaks `IsExactMatch` |
| ScreenColor.PackedArgb | Cooldowns.Domain/Screen/Color.cs:16 | the packed ARGB word fits in 32 bits |
| ScreenColor.PackedArgbInjective | Cooldowns.Domain/Screen/Color.cs:16 | two colours with the same packed ARGB word are the same colour |
| ScreenColor.ExactMatchIff | Cooldowns.Domain/Screen/Color.cs:14-17 | `IsExactMatch` holds iff alpha, red, green and blue are all equal |
| ScreenColor.ExactMatchEquivalence | Cooldowns.Domain/Screen/Color.cs:14-17 | `IsExactMatch` is reflexive, symmetric and transitive |
| ScreenColor.ExactMatchImpliesMatch | Cooldowns.Domain/Screen/Color.cs:7-17 | an exact match is a tolerant match |
| ThreadingTimer.InfiniteDueNeverFires | Cooldowns.Domain/Buttons/CooldownTimer.cs:35 | a timer whose due time is `Timeout.Infinite` never runs its callback |
| ThreadingTimer.OneShotFiresOnce | Domain/ButtonCooldownTimer.cs:77 | a timer with a due time and an Infinite period fires exactly once, at the due time |
| Status.Check | Cooldowns.Domain/Status/StatusChecker.cs:39-87 | one pass: what it raises is always its new state; a pass that raises nothing keeps the state and adds one miss per candidate, and one that raises resets the count |
| Status.RunTicks | Cooldowns.Domain/Status/StatusChecker.cs:28-87 | successive passes raise at most one value per tick; the state changes only by raising, and ends at the last value raised |
| Status.FirstMismatchFrom | Cooldowns.Domain/Status/StatusChecker.cs:48-65 | the index found is the first failing point: every point before it matches exactly, the one at it does not |
| Status.FirstMatchFrom | Cooldowns.Domain/Status/StatusChecker.cs:43-78 | the index found is the first candidate that matches: none before it does |
| Status.MatchesIff | Cooldowns.Domain/Status/StatusChecker.cs:45-67 | a candidate matches iff no point fails; one with no points matches |
| Status.SamplingStopsAtFirstFailure | Cooldowns.Domain/Status/StatusChecker.cs:48-65 | the points sampled for a candidate end at its first failing point |
| Status.FirstMatchWins | Cooldowns.Domain/Status/StatusChecker.cs:43-74 | the first matching candidate becomes the state and is raised, even if it equals the current state, and the miss count resets to 0 |
| Status.NoMatchCountsMisses | Cooldowns.Domain/Status/StatusChecker.cs:76-86 | a pass with no match adds one miss per candidate; above 5 it raises the missing value, makes it the state and resets the count, otherwise it raises nothing and keeps the state |
| Status.MissCountBounded | Cooldowns.Domain/Status/StatusChecker.cs:36-86 | between passes the miss count stays in 0..5 |
| Status.AtMostOneRaisePerPass | Cooldowns.Domain/Status/StatusChecker.cs:67-86 | a pass raises at most one value |
| Status.FewMissesRaiseNothing | Cooldowns.Domain/Status/StatusChecker.cs:76-86 | with one candidate, misses that keep the count at 5 or less raise nothing and keep the state |
| Status.SixthMissRaisesMissing | Cooldowns.Domain/Status/StatusChecker.cs:36-86 | with one candidate, the sixth miss in a row raises the missing value once, and the first five raise nothing |
| Status.SecondCandidateWinsWhenFirstFails | Cooldowns.Domain/Status/StatusChecker.cs:43-78 | candidates are tried in list order: a failing first candidate falls through to the second |
| Status.StatusChecker.constructor | Cooldowns.Domain/Status/StatusChecker.cs:20-37 | starts at the missing value with no misses, subscribed to the timer |
| Status.StatusChecker.AddStatusChangedHandler | Cooldowns.Domain/Status/StatusChecker.cs:18 | attaching a handler to `StatusChanged` changes nothing else: no pass is run and nothing is raised |
| Status.StatusChecker.OnStatusChanged | Cooldowns.Domain/Status/StatusChecker.cs:89-92 | the value is raised and reaches the attached handler unchanged |
| Status.StatusChecker.TestFingerprint | Cooldowns.Domain/Status/StatusChecker.cs:45-65 | the inner loop: the result is `Matches`, and the points sampled are those up to the first failure |
| Status.StatusChecker.TryFingerprints | Cooldowns.Domain/Status/StatusChecker.cs:43-78 | the outer loop stops at the first matching candidate and adds one miss per candidate before it |
| Status.StatusChecker.CheckState | Cooldowns.Domain/Status/StatusChecker.cs:39-87 | the new state, miss count, raised values and samples are those of `Check`; the count bound and the forwarding to the handler are kept |
| Status.StatusChecker.TimerTicked | Cooldowns.Domain/Status/StatusChecker.cs:28-34 | a tick runs one pass, with state, count, raised and delivered values and samples those of `Check`; after `Dispose` it changes none of them |
| Status.StatusChecker.Dispose | Cooldowns.Domain/Status/StatusChecker.cs:94-97 | detaches the tick handler |
| DomainSigilsOfHopeFactory.TableShape | Cooldowns.Domain/Factory/SigilsOfHopeFactory.cs:22-88 | missing value None; a presence check of 3 points and 3 colours; value checks One..Four in order, each on the single point (1341,1289) with one colour |
| DomainSigilsOfHopeFactory.ValueColorsDistinct | Cooldowns.Domain/Factory/SigilsOfHopeFactory.cs:46-82 | no two value colours are an exact match |
| DomainSigilsOfHopeFactory.AtMostOneValueMatches | Cooldowns.Domain/Factory/SigilsOfHopeFactory.cs:38-86 | at most one value check matches any screen |
| DomainSigilsOfHopeFactory.ShownValueIsRaised | Cooldowns.Domain/Factory/SigilsOfHopeFactory.cs:38-89 | a screen showing value k's colour at the value point is classified and raised as value k |
| DomainSigilsOfHopeFactory.TwoBlankPassesRaiseNone | Cooldowns.Domain/Factory/SigilsOfHopeFactory.cs:38-89 | with four candidates misses count per candidate, so the second blank pass already raises None |
| DomainSigilsOfHopeFactory.Create | Cooldowns.Domain/Factory/SigilsOfHopeFactory.cs:20-94 | a checker over the value checks with missing value None, at None with no misses, subscribed, whose handler forwards every value unchanged |
| AppSigilsOfHopeFactory.TableShape | Cooldowns/Factory/SigilsOfHopeFactory.cs:26-137 | one fingerprint with missing value None; four testpoints One..Four in order, each with 4 points and 4 colours, all on the same points with the same first three colours |
| AppSigilsOfHopeFactory.FourthColorsDistinct | Cooldowns/Factory/SigilsOfHopeFactory.cs:47-131 | no two fourth colours are an exact match |
| AppSigilsOfHopeFactory.AtMostOneTestpointMatches | Cooldowns/Factory/SigilsOfHopeFactory.cs:35-134 | at most one testpoint matches any screen |
| AppSigilsOfHopeFactory.NoFrameNoMatch | Cooldowns/Factory/SigilsOfHopeFactory.cs:37-59 | a screen without the frame colour at (1294,1262) matches no testpoint, and each stops sampling after that point |
| AppSigilsOfHopeFactory.Create | Cooldowns/Factory/SigilsOfHopeFactory.cs:22-143 | a checker over the testpoints with missing value None, subscribed, whose handler forwards every value unchanged |
| Buttons.InitialConsistent | Cooldowns.Domain/Buttons/CooldownButton.cs:49-56 | a new button is Up if enabled, else Disabled, raises that state once, and holds the (due 1000, period 100) timer iff it auto-detects |
| Buttons.ApplyKeepsConsistent | Cooldowns.Domain/Buttons/CooldownButton.cs:71-177 | every press and timer callback keeps the invariant: Disabled iff not enabled; an auto-detecting button never autocasts and keeps its timer; otherwise a timer is held exactly when the button is OnCooldown or AutoCasting, and it is the one `Press` created |
| Buttons.RunKeepsConsistent | Cooldowns.Domain/Buttons/CooldownButton.cs:71-177 | the invariant holds after any sequence of presses and callbacks |
| Buttons.PressNoOpIff | Cooldowns.Domain/Buttons/CooldownButton.cs:71-100 | a press changes nothing iff the button is Disabled, OnCooldown or auto-detecting; otherwise the state changes and the new one is raised |
| Buttons.AutoDetectTransitions | Cooldowns.Domain/Buttons/CooldownButton.cs:117-137 | a white pixel moves OnCooldown to Up; any other pixel moves Up to OnCooldown; nothing else changes, the timer is kept and no key is pressed |
| Buttons.AutoDetectKeepsTimer | Cooldowns.Domain/Buttons/CooldownButton.cs:49-171 | an auto-detecting button never releases its repeating timer and never presses a key |
| Buttons.DisabledStaysDisabled | Cooldowns.Domain/Buttons/CooldownButton.cs:73 | a disabled key ignores every press and callback |
| Buttons.AutoCastPressesEachExpiry | Cooldowns.Domain/Buttons/CooldownButton.cs:139-149 | while autocasting, each callback presses the autocast key once and changes nothing else |
| Buttons.OneShotCycle | Cooldowns.Domain/Buttons/CooldownButton.cs:90-171 | without autocast, press then expiry raise OnCooldown then Up and release the one-shot timer |
| Buttons.AutoCastCycle | Cooldowns.Domain/Buttons/CooldownButton.cs:77-171 | with autocast, press, press, expiry raise AutoCasting, OnCooldown, Up and release the timer |
| Buttons.CooldownButton.constructor | Cooldowns.Domain/Buttons/CooldownButton.cs:34-56 | the fields and the raised state are those of `Initial` |
| Buttons.CooldownButton.Create | Cooldowns.Domain/Buttons/CooldownButton.cs:40 | construction fails iff the autocast key name does not parse |
| Buttons.CooldownButton.OnButtonStateChanged | Cooldowns.Domain/Buttons/CooldownButton.cs:65-69 | sets the state and raises it |
| Buttons.CooldownButton.Press | Cooldowns.Domain/Buttons/CooldownButton.cs:71-100 | the new fields and raised values are those of `PressStep`; the invariant is kept |
| Buttons.CooldownButton.OnCooldownEnded | Cooldowns.Domain/Buttons/CooldownButton.cs:102-115 | the timer callback follows `EndedStep` on the pixel at the detection point; the invariant is kept |
| Buttons.CooldownButton.ProcessAutoDetectCooldown | Cooldowns.Domain/Buttons/CooldownButton.cs:117-137 | follows `AutoDetectStep` on the pixel at the detection point |
| Buttons.CooldownButton.ProcessCooldown | Cooldowns.Domain/Buttons/CooldownButton.cs:139-149 | autocasting presses the key; otherwise the timer is released and the button is Up |
| Buttons.CooldownButton.OnButtonOnCooldown | Cooldowns.Domain/Buttons/CooldownButton.cs:151-157 | OnCooldown is set and raised; the timer is released unless the button auto-detects |
| Buttons.CooldownButton.OnButtonAvailable | Cooldowns.Domain/Buttons/CooldownButton.cs:159-165 | Up is set and raised; the timer is released unless the button auto-detects |
| Buttons.CooldownButton.UnloadOneShotTimer | Cooldowns.Domain/Buttons/CooldownButton.cs:167-171 | releases the timer unless the button auto-detects |
| Buttons.CooldownButton.UnloadTimer | Cooldowns.Domain/Buttons/CooldownButton.cs:173-177 | no timer is held afterwards |
| DomainButton.InitialConsistent | Domain/CooldownButton.cs:35-48 | a new button is Up if enabled, else Disabled, holds no timer and keeps the invariant |
| DomainButton.StepsKeepConsistent | Domain/CooldownButton.cs:50-153 | presses and callbacks keep the invariant; the button is visible exactly when Up |
| DomainButton.PressNoOpIff | Domain/CooldownButton.cs:93-126 | a press changes nothing iff the button is Disabled or OnCooldown |
| DomainButton.AgreesWithAutoDetectRevision | Domain/CooldownButton.cs:93-147 | for a key that does not auto-detect, presses and callbacks move between the same states and timers as in the auto-detect revision |
| DomainButton.CooldownButton.constructor | Domain/CooldownButton.cs:35-48 | the fields are those of `Initial` |
| DomainButton.CooldownButton.Create | Domain/CooldownButton.cs:40 | construction fails iff the autocast key name does not parse |
| DomainButton.CooldownButton.SetButtonState | Domain/CooldownButton.cs:50-91 | sets the state; the button is shown iff the state is Up |
| DomainButton.CooldownButton.Press | Domain/CooldownButton.cs:93-126 | the new fields are those of `PressStep`; the invariant is kept |
| DomainButton.CooldownButton.CooldownEnded | Domain/CooldownButton.cs:128-147 | autocasting presses the key; otherwise the timer is unloaded and the button is Up and shown |
| DomainButton.CooldownButton.Unload | Domain/CooldownButton.cs:149-153 | no timer is held afterwards |
| DomainButtonTimer.SetState | Domain/ButtonCooldownTimer.cs:31-70 | defined exactly for Disabled, OnCooldown and Up (the switch throws otherwise), showing the button iff Up |
| DomainButtonTimer.InitialConsistent | Domain/ButtonCooldownTimer.cs:22-29 | a new button is Disabled iff its cooldown is 0, else Up, and keeps the invariant |
| DomainButtonTimer.StartChangesIffUp | Domain/ButtonCooldownTimer.cs:72-78 | `Start` changes something iff the button is Up, and then arms the one-shot timer due after `cooldownMs` |
| DomainButtonTimer.RunKeepsConsistent | Domain/ButtonCooldownTimer.cs:72-89 | after any starts and callbacks: never AutoCasting, Disabled iff the cooldown is 0, a timer held iff OnCooldown, shown iff Up |
| DomainButtonTimer.ZeroCooldownStaysDisabled | Domain/ButtonCooldownTimer.cs:28-78 | a button built with cooldown 0 stays Disabled and never arms a timer |
| DomainButtonTimer.StartThenExpire | Domain/ButtonCooldownTimer.cs:72-89 | a start and its expiry return a new button to Up with no timer |
| DomainButtonTimer.ButtonCooldownTimer.constructor | Domain/ButtonCooldownTimer.cs:22-29 | the fields are those of `Initial` |
| DomainButtonTimer.ButtonCooldownTimer.SetButtonState | Domain/ButtonCooldownTimer.cs:31-49 | fails, changing nothing, iff the state is AutoCasting; otherwise sets it and shows the button iff Up |
| DomainButtonTimer.ButtonCooldownTimer.Start | Domain/ButtonCooldownTimer.cs:72-78 | follows `StartStep`; the invariant is kept |
| DomainButtonTimer.ButtonCooldownTimer.CooldownEnded | Domain/ButtonCooldownTimer.cs:80-89 | the timer is released and the button is Up; the invariant is kept |
| GameTimer.CooldownTimer.constructor | Cooldowns.Domain/Timer/CooldownTimer.cs:17-21 | stores the interval and the first delay (default 1000); no timer is held |
| GameTimer.CooldownTimer.CreateTimer | Cooldowns.Domain/Timer/CooldownTimer.cs:31 | holds a new undisposed timer due after `firstCheckDelay` and then every `buttonCheckInterval`, counting it as created and live |
| GameTimer.CooldownTimer.Start | Cooldowns.Domain/Timer/CooldownTimer.cs:23-32 | creates exactly one timer, and afterwards it is the only live one: a running timer is disposed first, so none leaks |
| GameTimer.CooldownTimer.Stop | Cooldowns.Domain/Timer/CooldownTimer.cs:34-39 | the held timer is disposed before the reference is dropped, so afterwards no timer is held and none is live |
| GameTimer.CooldownTimer.ReleaseHeld | Cooldowns.Domain/Timer/CooldownTimer.cs:37 | `timer?.Dispose()`: the held timer is marked disposed, the live count drops to 0, and a disposed timer stays as it is |
| GameTimer.CooldownTimer.IsRunning | Cooldowns.Domain/Timer/CooldownTimer.cs:41-44 | true iff a timer reference is held |
| GameTimer.CooldownTimer.OnTicked | Cooldowns.Domain/Timer/CooldownTimer.cs:46 | each callback raises `Ticked` once |
| GameTimer.CooldownTimer.Dispose | Cooldowns.Domain/Timer/CooldownTimer.cs:48-51 | disposes the timer but keeps the reference |
| GameTimer.RestartKeepsOneTimer | Cooldowns.Domain/Timer/CooldownTimer.cs:23-44 | starting twice creates two timers of which one is live and leaves the scheduler running; stopping twice leaves it stopped |
| GameTimer.DisposeKeepsRunning | Cooldowns.Domain/Timer/CooldownTimer.cs:41-51 | `IsRunning` is still true after `Dispose` |
| ButtonTimer.StartOnceAsWritten | Cooldowns.Domain/Buttons/CooldownTimer.cs:35 | the timer `StartOnce` creates as written has an Infinite due time and never fires |
| ButtonTimer.OnceTimer | Cooldowns.Domain/Buttons/CooldownTimer.cs:32-36 | the intended one-shot timer fires exactly once, `dueTime` ms later |
| ButtonTimer.StartOnceAsWrittenNeverEnds | Cooldowns.Domain/Buttons/CooldownTimer.cs:35 | for every due time the timer as written misses it, and the intended one fires then |
| ButtonTimer.CooldownTimer.constructor | Cooldowns.Domain/Buttons/CooldownTimer.cs:21-24 | no timer is held |
| ButtonTimer.CooldownTimer.CreateTimer | Cooldowns.Domain/Buttons/CooldownTimer.cs:29 | holds a new undisposed timer with the given arguments, counting it as live |
| ButtonTimer.CooldownTimer.ReleaseHeld | Cooldowns.Domain/Buttons/CooldownTimer.cs:34 | `timer?.Dispose()`: the held timer is marked disposed and the live count drops to 0 |
| ButtonTimer.CooldownTimer.StartRepeating | Cooldowns.Domain/Buttons/CooldownTimer.cs:8-30 | fails iff a timer is already held; otherwise installs the (due 100, period 1000) timer |
| ButtonTimer.CooldownTimer.StartOnce | Cooldowns.Domain/Buttons/CooldownTimer.cs:32-36 | never fails: disposes what is held, so only the new timer is live, and installs the timer of line 35 as written, which never fires |
| ButtonTimer.CooldownTimer.OnTimerEnded | Cooldowns.Domain/Buttons/CooldownTimer.cs:16-41 | each callback raises `CooldownEnded` once |
| ButtonTimer.CooldownTimer.Dispose | Cooldowns.Domain/Buttons/CooldownTimer.cs:43-46 | disposes the timer but keeps the reference |
| ButtonTimer.DisposedTimerCannotRestart | Cooldowns.Domain/Buttons/CooldownTimer.cs:26-46 | after `Dispose`, `StartRepeating` still fails |
| ButtonTimer.StartOnceReplaces | Cooldowns.Domain/Buttons/CooldownTimer.cs:26-36 | `StartOnce` replaces a repeating timer with the as-written one-shot timer, after which `StartRepeating` fails |
| TestFixtures.TryAdd | Cooldowns.Tests/Fixtures/FakeCooldownTimer.cs:18-26 | the key is present afterwards; an existing entry is never overwritten and all other entries stay |
| TestFixtures.TickFacts | Cooldowns.Tests/Fixtures/FakeCooldownTimer.cs:28-38 | an unknown time changes nothing, a one-shot entry is removed, a repeating one stays, other keys are untouched |
| TestFixtures.UnregisteredNeverFires | Cooldowns.Tests/Fixtures/FakeCooldownTimer.cs:28-38 | ticks never add an entry, so an unregistered time never fires |
| TestFixtures.OneShotFiresAtMostOnce | Cooldowns.Tests/Fixtures/FakeCooldownTimer.cs:23-38 | a one-shot entry fires at most once however often it is ticked, and is gone once ticked |
| TestFixtures.RepeatingFiresEveryTick | Cooldowns.Tests/Fixtures/FakeCooldownTimer.cs:18-38 | a repeating entry stays and fires on every tick of its time |
| TestFixtures.FakeCooldownTimer.constructor | Cooldowns.Tests/Fixtures/FakeCooldownTimer.cs:9 | the dictionary starts empty |
| TestFixtures.FakeCooldownTimer.StartRepeating | Cooldowns.Tests/Fixtures/FakeCooldownTimer.cs:18-21 | adds (100, repeating) unless 100 is present |
| TestFixtures.FakeCooldownTimer.StartOnce | Cooldowns.Tests/Fixtures/FakeCooldownTimer.cs:23-26 | adds (dueTime, one-shot) unless dueTime is present |
| TestFixtures.FakeCooldownTimer.Tick | Cooldowns.Tests/Fixtures/FakeCooldownTimer.cs:28-38 | raises `CooldownEnded` once iff the time is registered and removes it iff one-shot |
| ModeButtons.Classify | Cooldowns.Tests/Tests/CooldownButtonTests.cs:26-60 | the pixel classification the tests pin down; its properties are stated by `ClassifyFailSafe` and `ClassifyReferenceColors` |
| ModeButtons.TickStep | Cooldowns.Tests/Tests/CooldownButtonTests.cs:26-109 | a tick never changes the mode; it presses only in AutoCast on an available pixel not yet pressed for, and raises only in Manual, the new classified state |
| ModeButtons.ClassifyFailSafe | Cooldowns.Tests/Tests/CooldownButtonTests.cs:26-60 | Ready only on an exact match of the available colour; a colour matching no reference is Cooldown |
| ModeButtons.ClassifyReferenceColors | Cooldowns.Tests/Tests/CooldownButtonTests.cs:26-51 | with separated reference colours, each is classified as its own state |
| ModeButtons.ModeCycle | Cooldowns.Tests/Tests/CooldownButtonTests.cs:62-76 | three mode changes return to the starting mode through the two others, and reset a non-Disabled button to Ready and re-armed |
| ModeButtons.ModeChangesOnly | Cooldowns.Tests/Tests/CooldownButtonTests.cs:62-76 | mode-key presses alone raise the successive modes of the cycle and nothing else, and press nothing |
| ModeButtons.ModeCycleFromManual | Cooldowns.Tests/Tests/CooldownButtonTests.cs:62-76 | from Manual, three mode changes raise AutoCast, Disabled, Manual and end Manual, Ready and re-armed |
| ModeButtons.ModeCycleSecondHalf | Cooldowns.Tests/Tests/CooldownButtonTests.cs:15-76 | the cycle test up to its last tick: a tick while Disabled is ignored, the third mode change enters Manual Ready and re-armed, and one key press in all |
| ModeButtons.ModeCycleWithTicks | Cooldowns.Tests/Tests/CooldownButtonTests.cs:15-76 | the cycle test with its available-colour ticks: modes AutoCast, Disabled, Manual, one press in AutoCast, no state raised |
| ModeButtons.DisabledIgnoresTicks | Cooldowns.Tests/Tests/CooldownButtonTests.cs:62-76 | a Disabled button ignores every tick |
| ModeButtons.ManualTick | Cooldowns.Tests/Tests/CooldownButtonTests.cs:26-60 | in Manual a tick takes the classified state and raises it iff it differs; no key is pressed |
| ModeButtons.ManualRaisesOnce | Cooldowns.Tests/Tests/CooldownButtonTests.cs:26-60 | repeated Manual ticks with one classification raise it at most once |
| ModeButtons.AutoCastOncePerWindow | Cooldowns.Tests/Tests/CooldownButtonTests.cs:78-89 | in AutoCast any number of available ticks press the key once, or not at all if already pressed, and raise nothing |
| ModeButtons.CooldownRearms | Cooldowns.Tests/Tests/CooldownButtonTests.cs:91-109 | a Cooldown tick re-arms AutoCast so the next available tick presses; an Active tick changes nothing |
| ModeButtons.TwoWindowsTwoPresses | Cooldowns.Tests/Tests/CooldownButtonTests.cs:91-109 | k available ticks, one cooldown tick and m available ticks press exactly twice |
| ModeButtons.FiveReadyOneCooldownOneReady | Cooldowns.Tests/Tests/CooldownButtonTests.cs:91-109 | five available ticks, one cooldown, one available press exactly twice |
| ModeButtons.OncePerCycleScenario | Cooldowns.Tests/Tests/CooldownButtonTests.cs:91-109 | the once-per-cycle test: after switching to AutoCast the press counts are 1, 1, 1, 2 and no state is raised |
| ModeButtons.CooldownButton.constructor | Cooldowns.Tests/Fixtures/CooldownsTestBase.cs:21-22 | a new button is Manual, Ready and re-armed, subscribed to the scheduler |
| ModeButtons.CooldownButton.ChangeMode | Cooldowns.Tests/Tests/CooldownButtonTests.cs:62-76 | follows `ChangeModeStep` and raises the new mode |
| ModeButtons.CooldownButton.OnTick | Cooldowns.Tests/Tests/CooldownButtonTests.cs:26-109 | follows `TickStep` on the classified pixel at the detection point, logging raised states and key presses |
| ModeButtons.CooldownButton.TimerTicked | Cooldowns.Tests/Tests/CooldownButtonTests.cs:26-109 | a scheduler tick reaches the button only while it is subscribed |
| ModeButtons.CooldownButton.Dispose | Cooldowns.Tests/Tests/CooldownButtonTests.cs:110-114 | detaches the tick handler, after which ticks change nothing |
| ModeButtons.Create | Cooldowns.Domain/Config/KeyConfig.cs:3-10 | construction fails iff the action key or the mode key name does not parse |

## Left out

- WPF: brushes, colours of the button, window placement and focus tracking. Only visibility is kept, as a flag.
- The low-level keyboard hook, GDI screen capture and `InputSimulator` key injection are foreign code. The screen is a function parameter, and key presses are a ghost log.
- Dispatcher marshalling and thread races. A dispatched action runs at once, as the test dispatcher runs it. A timer callback that arrives after its timer was released is not modelled: every callback method requires a held timer.
- `System.Threading.Timer` argument validation and real time. `FiresAt` only describes the schedule a timer was created with.
- In the button classes, a timer that is replaced or released is simply dropped. Only the two timer classes track disposal, with a ghost count of the timers they created and have not disposed.
- NLog logging, configuration loading and the dependency-injection wiring.
- `Enum.Parse` accepts numeric strings and flag combinations; the lookup in `KeyNames` does not model them.
- `Domain/CooldownButton.cs` `SetButtonState` throws for a value outside the enum. A Dafny datatype has no such value, so that arm is left out.
- The presence fingerprint `HasState` of the domain Sigils table is not consumed by this revision's `StatusChecker`, so no lemma relates it to a classification.
- The mode-based button's implementation is not part of this model. `ModeButtons` models what its tests assert, and the reference colours are a parameter.
- The routing of the configured mode key to `ChangeMode` is not modelled. The key code is parsed and stored, and `ChangeMode` is called directly, as the tests call it.
- `FakeCooldownTimer.Dispose` is empty and has no model.
- Generation counters and edge-triggered emission: the code has neither. `StatusChecker` raises on every match.

## Findings

| source | as written | input that shows it | evidently intended | confidence | as-written member | corrected member |
|---|---|---|---|---|---|---|
| Cooldowns.Domain/Buttons/CooldownTimer.cs:35 | `StartOnce(dueTime)` creates the timer with due time `Timeout.Infinite` and period `dueTime`, so it never starts | `StartOnce(1000)`: the timer never fires at 1000 ms or at any other time, and `CooldownEnded` is never raised | due time `dueTime` and period `Timeout.Infinite`: one callback `dueTime` ms later, as `FakeCooldownTimer.StartOnce` and `Domain/ButtonCooldownTimer.cs:77` treat it; `ButtonTimer.CooldownTimer.StartOnce` keeps the line as written | not executed | ButtonTimer.StartOnceAsWritten | ButtonTimer.OnceTimer |
