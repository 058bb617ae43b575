/**
 * What the button revisions share: the per-key configuration record
 * (Configuration/Key.cs), the four button states, and the lookup of a
 * `VirtualKeyCode` by name that `Enum.Parse<VirtualKeyCode>` performs.
 */
module ButtonConfig {
  import opened Wrappers

  /** A `VirtualKeyCode` value. */
  type KeyCode = int

  /** The names `Enum.Parse<VirtualKeyCode>` accepts, and the code each names. */
  type KeyNames = map<string, KeyCode>

  /** `CooldownButtonState`. */
  datatype CooldownButtonState = Up | OnCooldown | AutoCasting | Disabled

  /** One configured key. */
  datatype Key = Key(
    keyLabel: string,
    enabled: bool,
    cooldown: int,
    autoDetectCooldown: bool,
    detectX: int,
    detectY: int,
    autocast: bool,
    autocastKey: string)

  /** `Enum.Parse<VirtualKeyCode>(name)`: the named code, or `None` where it throws. */
  function ParseKeyCode(names: KeyNames, name: string): Option<KeyCode>
  {
    if name in names then Some(names[name]) else None
  }
}
