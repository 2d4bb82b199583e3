/**
 * Keyboard shortcuts read from the configuration file and the numeric and
 * textual defaults the galleries start from.
 */
module Config {
  import opened Wrappers

  const MOD_ALT := "alt"
  const MOD_SHIFT := "shift"
  const MOD_CTRL := "ctrl"
  const MOD_MAC_CMD := "mac_cmd"
  const MOD_CMD := "cmd"

  const DEFAULT_LIMIT_CACHED: nat := 100000
  const DEFAULT_OUTPUT_ICC_PROFILE := "srgb"
  const DEFAULT_NR_LOADED_IMAGES: nat := 4
  const DEFAULT_SHOULD_WAIT := true
  const DEFAULT_IMAGES_PER_ROW: nat := 5
  const DEFAULT_PRELOADED_ROWS: nat := 1
  const DEFAULT_SIMULTANEOUS_LOAD: nat := 8
  const DEFAULT_NAME_FORMAT := "$(#File Name#)$( • ƒ#Aperture#)$( • #Shutter Speed#)$( • #ISO# ISO)"

  /** A key of the UI toolkit, known by its name. */
  datatype Key = Key(name: string)

  const F20 := Key("F20")

  datatype Modifiers = Modifiers(alt: bool, ctrl: bool, shift: bool, macCmd: bool, command: bool)

  const NO_MODIFIERS := Modifiers(false, false, false, false, false)

  datatype KeyboardShortcut = KeyboardShortcut(modifiers: Modifiers, logicalKey: Key)

  /** A configured shortcut: the key and modifier names as written, and what they build. */
  datatype Shortcut = Shortcut(key: string, modifiers: seq<string>, kbdShortcut: KeyboardShortcut)

  /** The configuration's shortcut data before it is built. */
  datatype ShortcutData = ShortcutData(key: string, modifiers: seq<string>)

  /**
   * The placeholder shortcut: F20 with alt, ctrl, shift and command held,
   * a combination few keyboards can produce.
   */
  function DefaultShortcut(): (r: KeyboardShortcut)
    ensures r.logicalKey == F20
    ensures r.modifiers.alt && r.modifiers.ctrl && r.modifiers.shift && r.modifiers.command && !r.modifiers.macCmd
  {
    KeyboardShortcut(Modifiers(true, true, true, false, true), F20)
  }

  /** The flags of a list of modifier names: each flag is set iff its name is listed. */
  function ModifiersFor(mods: seq<string>): (r: Modifiers)
    ensures mods == [] ==> r == NO_MODIFIERS
    ensures mods != [] ==> r == SetFlag(ModifiersFor(mods[..|mods| - 1]), mods[|mods| - 1])
  {
    if mods != [] then
      var init := mods[..|mods| - 1];
      assert mods == init + [mods[|mods| - 1]];
      Modifiers(MOD_ALT in mods, MOD_CTRL in mods, MOD_SHIFT in mods, MOD_MAC_CMD in mods, MOD_CMD in mods)
    else
    Modifiers(MOD_ALT in mods, MOD_CTRL in mods, MOD_SHIFT in mods, MOD_MAC_CMD in mods, MOD_CMD in mods)
  }

  /**
   * What `build_keyboard_shortcut` yields. `lookup` stands for the toolkit's
   * key-name lookup applied to the name with its first letter capitalised.
   */
  function ShortcutFor(mods: seq<string>, key: string, lookup: string -> Option<Key>): KeyboardShortcut
  {
    match lookup(key)
    case None => DefaultShortcut()
    case Some(k) => KeyboardShortcut(ModifiersFor(mods), k)
  }

  /** Sets one flag per recognised modifier name; other names are reported and skipped. */
  function SetFlag(m: Modifiers, name: string): (r: Modifiers)
    ensures r.alt == (m.alt || name == MOD_ALT) && r.ctrl == (m.ctrl || name == MOD_CTRL)
    ensures r.shift == (m.shift || name == MOD_SHIFT) && r.command == (m.command || name == MOD_CMD)
    ensures r.macCmd == (m.macCmd || name == MOD_MAC_CMD)
  {
    if name == MOD_ALT then m.(alt := true)
    else if name == MOD_CTRL then m.(ctrl := true)
    else if name == MOD_SHIFT then m.(shift := true)
    else if name == MOD_CMD then m.(command := true)
    else if name == MOD_MAC_CMD then m.(macCmd := true)
    else m
  }

  method BuildKeyboardShortcut(mods: seq<string>, key: string, lookup: string -> Option<Key>)
    returns (ks: KeyboardShortcut)
    ensures ks == ShortcutFor(mods, key, lookup)
  {
    var modifiers := NO_MODIFIERS;
    var i := 0;
    while i < |mods|
      invariant 0 <= i <= |mods|
      invariant modifiers == ModifiersFor(mods[..i])
    {
      assert mods[..i + 1] == mods[..i] + [mods[i]];
      modifiers := SetFlag(modifiers, mods[i]);
      i := i + 1;
    }
    assert mods[..i] == mods;
    match lookup(key)
    case Some(k) =>
      ks := KeyboardShortcut(modifiers, k);
    case None =>
      ks := DefaultShortcut();
  }

  /** The flags depend only on which names occur, not on their order or repetition. */
  lemma ModifiersOrderFree(a: seq<string>, b: seq<string>)
    requires (set x | x in a) == (set x | x in b)
    ensures ModifiersFor(a) == ModifiersFor(b)
  {
    var sa, sb := set y | y in a, set y | y in b;
    forall x: string ensures (x in a) == (x in b) {
      assert x in a ==> x in sa;
      assert x in sa ==> x in a;
      assert x in b ==> x in sb;
      assert x in sb ==> x in b;
    }
  }

  /** An unrecognised modifier name sets no flag. */
  lemma UnknownModifierIgnored(mods: seq<string>, other: string)
    requires other !in [MOD_ALT, MOD_SHIFT, MOD_CTRL, MOD_MAC_CMD, MOD_CMD]
    ensures ModifiersFor(mods + [other]) == ModifiersFor(mods)
  {
  }

  /** Each recognised name sets exactly its own flag. */
  lemma EachNameOwnFlag()
    ensures ModifiersFor([MOD_ALT]) == NO_MODIFIERS.(alt := true)
    ensures ModifiersFor([MOD_CTRL]) == NO_MODIFIERS.(ctrl := true)
    ensures ModifiersFor([MOD_SHIFT]) == NO_MODIFIERS.(shift := true)
    ensures ModifiersFor([MOD_CMD]) == NO_MODIFIERS.(command := true)
    ensures ModifiersFor([MOD_MAC_CMD]) == NO_MODIFIERS.(macCmd := true)
    ensures ModifiersFor([]) == NO_MODIFIERS
  {
  }

  /** `Shortcut::from`: keeps the key and modifier names as given. */
  function ShortcutFrom(key: string, modifiers: seq<string>, lookup: string -> Option<Key>): (r: Shortcut)
    ensures r.key == key && r.modifiers == modifiers
    ensures lookup(key).None? ==> r.kbdShortcut == DefaultShortcut()
    ensures lookup(key).Some? ==> r.kbdShortcut == KeyboardShortcut(ModifiersFor(modifiers), lookup(key).value)
  {
    Shortcut(key, modifiers, ShortcutFor(modifiers, key, lookup))
  }

  /** `From<ShortcutData> for Shortcut`: the same construction from stored data. */
  function ShortcutFromData(data: ShortcutData, lookup: string -> Option<Key>): (r: Shortcut)
    ensures r == ShortcutFrom(data.key, data.modifiers, lookup)
  {
    Shortcut(data.key, data.modifiers, ShortcutFor(data.modifiers, data.key, lookup))
  }
}
