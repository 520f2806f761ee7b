/**
 * The command descriptors the help popup aggregates and advertises. They are
 * declared in `src/components/mod.rs` and `src/strings.rs`, which are not part
 * of this model; the record below carries the fields the popup reads.
 */
module Commands {
  import opened Orders

  /** The text of a command: label, long description, group, and whether the help popup hides it. */
  datatype CommandText = CommandText(name: string, desc: string, group: string, hideHelp: bool)

  /** A command as one component reports it. */
  datatype CommandInfo = CommandInfo(
    text: CommandText,
    enabled: bool,
    quickBar: bool,
    available: bool,
    order: int)

  /** `CommandInfo::new(text, enabled, available)`: shown in the quick bar, order 0. */
  function NewCommandInfo(text: CommandText, enabled: bool, available: bool): CommandInfo {
    CommandInfo(text, enabled, true, available, 0)
  }

  /** `CommandInfo::order(self, order)`. */
  function WithOrder(c: CommandInfo, order: int): CommandInfo {
    c.(order := order)
  }

  function TextOf(c: CommandInfo): CommandText {
    c.text
  }

  function GroupOf(c: CommandInfo): string {
    c.text.group
  }

  function OrderOf(c: CommandInfo): int {
    c.order
  }

  /**
   * The derived `Ord` of `CommandText`: fields compared in declaration order,
   * strings lexicographically, `false` before `true`.
   */
  function TextLt(a: CommandText, b: CommandText): bool {
    || StrLt(a.name, b.name)
    || (a.name == b.name && StrLt(a.desc, b.desc))
    || (a.name == b.name && a.desc == b.desc && StrLt(a.group, b.group))
    || (a.name == b.name && a.desc == b.desc && a.group == b.group && !a.hideHelp && b.hideHelp)
  }

  /** Two commands in the order of their texts. */
  function TextBefore(a: CommandInfo, b: CommandInfo): bool {
    TextLt(a.text, b.text)
  }

  lemma TextLtIsStrictTotalOrder()
    ensures StrictTotalOrder(TextLt)
  {
    StrLtIsStrictTotalOrder();
  }

  // The three texts the popup advertises (labels as in `src/strings.rs`, which is not part of this model).
  const CMD_GROUP_GENERAL: string := "General"
  const SCROLL: CommandText := CommandText("Scroll [↑↓]", "scroll up or down in focused view", CMD_GROUP_GENERAL, false)
  const CLOSE_POPUP: CommandText := CommandText("Close [esc]", "close overlay (e.g commit, help)", CMD_GROUP_GENERAL, false)
  const HELP_OPEN: CommandText := CommandText("Help [?]", "open this help screen", CMD_GROUP_GENERAL, false)

  /** Whether a component lets key events through to the components below it. */
  datatype CommandBlocking = Blocking | PassingOn

  /** `visibility_blocking`: a visible component blocks. */
  function VisibilityBlocking(visible: bool): CommandBlocking {
    if visible then Blocking else PassingOn
  }

  /** The caller's `Vec<CommandInfo>` that `commands` edits in place. */
  class CommandVec {
    var items: seq<CommandInfo>

    constructor (items: seq<CommandInfo>)
      ensures this.items == items
    {
      this.items := items;
    }

    method Clear()
      modifies this
      ensures items == []
    {
      items := [];
    }

    method Push(c: CommandInfo)
      modifies this
      ensures items == old(items) + [c]
    {
      items := items + [c];
    }
  }
}
