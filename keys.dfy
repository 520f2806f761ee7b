/**
 * The input events the help popup tells apart. The key constants live in
 * `src/keys.rs`, which is not part of this model; they are taken to be four
 * distinct keys.
 */
module Keys {
  /** `keys::EXIT_POPUP`, `keys::MOVE_DOWN`, `keys::MOVE_UP`, `keys::OPEN_HELP`, and every other key. */
  datatype KeyEvent = ExitPopup | MoveDown | MoveUp | OpenHelp | OtherKey(code: int)

  /** crossterm's `Event`: a key press, or anything else (mouse, resize). */
  datatype InputEvent = Key(key: KeyEvent) | NonKey
}
