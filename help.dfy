/**
 * `HelpComponent`: the help popup. It holds the commands the other components
 * advertise, whether it is shown, and a cursor into the displayed list.
 */
module Help {
  import opened Wrappers
  import opened U16
  import opened Orders
  import opened Sequences
  import opened Commands
  import opened HelpAggregate
  import opened HelpLayout
  import opened Keys

  /** `SIZE.1` in `draw`: the popup is 24 rows high (its width only matters to the rendering). */
  const POPUP_HEIGHT: u16 := 24

  /** The cursor may move this far down before the text scrolls. */
  const SCROLL_THRESHOLD: u16 := POPUP_HEIGHT / 3

  /** The first line `draw` shows: `selection.saturating_sub(scroll_threshold)`. */
  function ScrollOffset(selection: u16): (r: u16)
    ensures r as int == if selection as int <= 8 then 0 else selection as int - 8
    ensures r <= selection && selection - r <= 8
  {
    SaturatingSub(selection, SCROLL_THRESHOLD)
  }

  /**
   * Where the cursor goes when it moves one step down (`inc`) or up in a list
   * of `len` entries: one step, but never below 0 nor past the last entry;
   * when `len - 1` does not fit a `u16` the cursor does not move.
   */
  function NextSelection(selection: u16, inc: bool, len: nat): (r: u16)
    ensures len > U16_MAX + 1 ==> r == selection
    ensures len <= U16_MAX + 1 ==> r as int <= if len == 0 then 0 else len - 1
    ensures len == 0 ==> r == 0
    ensures !inc && selection == 0 ==> r == 0
    ensures inc && 0 < len <= U16_MAX + 1 && selection as int == len - 1 ==> r == selection
    ensures inc && len <= U16_MAX + 1 && selection as int < len - 1 ==> r as int == selection as int + 1
    ensures !inc && len <= U16_MAX + 1 && 0 < selection as int <= len - 1 ==> r as int == selection as int - 1
    ensures len <= U16_MAX + 1 && selection as int >= len ==> r as int == if len == 0 then 0 else len - 1
  {
    if len > U16_MAX + 1 then selection
    else
      var last := if len == 0 then 0 else len - 1;
      var target := if inc then selection as int + 1 else selection as int - 1;
      if target < 0 then 0 else if target > last then last as u16 else target as u16
  }

  /** What `draw` puts on screen: the lines of `get_text`, scrolled. */
  datatype Popup = Popup(lines: seq<Text>, scroll: u16)

  class HelpComponent {
    var cmds: seq<CommandInfo>
    var visible: bool
    var selection: u16
    /** `asyncgit::hash`, the hash the list is ordered by; its definition is not part of this model. */
    const hash: string -> int

    /** `HelpComponent::new`: empty, hidden, cursor at the top. */
    constructor (hash: string -> int)
      ensures cmds == [] && !visible && selection == 0 && this.hash == hash
    {
      cmds := [];
      visible := false;
      selection := 0;
      this.hash := hash;
    }

    /**
     * `set_cmds`: keep the entries not hidden from help, sort by text, drop
     * repeated texts, sort by the hash of the group. The cursor is left as it
     * was, even past the end of the new list.
     */
    method SetCmds(input: seq<CommandInfo>)
      modifies this
      ensures cmds == Aggregate(input, hash)
      ensures IsHelpList(input, hash, cmds)
      ensures visible == old(visible) && selection == old(selection)
    {
      cmds := Filter(input, HiddenOf, false);
      cmds := SortBy(cmds, TextOf, TextLt);
      cmds := DedupBy(cmds, TextOf);
      cmds := SortBy(cmds, GroupHash(hash), IntLt);
      AggregateIsHelpList(input, hash);
    }

    /** `move_selection`: one step down or up, clamped to the list. */
    method MoveSelection(inc: bool)
      modifies this
      ensures selection == NextSelection(old(selection), inc, |cmds|)
      ensures cmds == old(cmds) && visible == old(visible)
    {
      var newSelection := selection;
      newSelection := if inc then SaturatingAdd(newSelection, 1) else SaturatingSub(newSelection, 1);
      newSelection := Max(newSelection, 0);
      var max := TryFrom(SaturatingDecrement(|cmds|));
      if max.Some? {
        selection := Min(newSelection, max.value);
      }
    }

    function IsVisible(): bool
      reads this
    {
      visible
    }

    method Hide()
      modifies this
      ensures !visible && cmds == old(cmds) && selection == old(selection)
    {
      visible := false;
    }

    method Show()
      modifies this
      ensures visible && cmds == old(cmds) && selection == old(selection)
    {
      visible := true;
    }

    /**
     * `event`: while shown, every event is consumed; Esc hides, the arrow keys
     * move the cursor. While hidden, only the help key is consumed, and it
     * shows the popup.
     */
    method Event(ev: InputEvent) returns (consumed: bool)
      modifies this
      ensures consumed <==> old(visible) || ev == Key(OpenHelp)
      ensures cmds == old(cmds)
      ensures old(visible) && ev == Key(ExitPopup) ==> !visible && selection == old(selection)
      ensures old(visible) && ev == Key(MoveDown) ==> visible && selection == NextSelection(old(selection), true, |cmds|)
      ensures old(visible) && ev == Key(MoveUp) ==> visible && selection == NextSelection(old(selection), false, |cmds|)
      ensures old(visible) && ev !in {Key(ExitPopup), Key(MoveDown), Key(MoveUp)} ==> visible && selection == old(selection)
      ensures !old(visible) && ev == Key(OpenHelp) ==> visible && selection == old(selection)
      ensures !old(visible) && ev != Key(OpenHelp) ==> !visible && selection == old(selection)
    {
      if visible {
        if ev.Key? {
          match ev.key {
            case ExitPopup => Hide();
            case MoveDown => MoveSelection(true);
            case MoveUp => MoveSelection(false);
            case _ =>
          }
        }
        consumed := true;
      } else if ev == Key(OpenHelp) {
        Show();
        consumed := true;
      } else {
        consumed := false;
      }
    }

    /**
     * `commands`: what the popup advertises in the command bar. While shown
     * (and not asked for everything) it replaces the other components'
     * commands by scrolling and closing; while hidden it adds the entry that
     * opens it, last in the bar.
     */
    method Commands(out: CommandVec, forceAll: bool) returns (blocking: CommandBlocking)
      modifies out
      ensures visible && !forceAll ==> out.items == [NewCommandInfo(SCROLL, true, true), NewCommandInfo(CLOSE_POPUP, true, true)]
      ensures !visible ==> out.items == old(out.items) + [WithOrder(NewCommandInfo(HELP_OPEN, true, true), 99)]
      ensures visible && forceAll ==> out.items == old(out.items) + [
        NewCommandInfo(SCROLL, true, true),
        NewCommandInfo(CLOSE_POPUP, true, true),
        WithOrder(NewCommandInfo(HELP_OPEN, true, true), 99)]
      ensures blocking == VisibilityBlocking(visible)
    {
      if visible && !forceAll {
        out.Clear();
      }
      if visible {
        out.Push(NewCommandInfo(SCROLL, true, true));
        out.Push(NewCommandInfo(CLOSE_POPUP, true, true));
      }
      if !visible || forceAll {
        out.Push(WithOrder(NewCommandInfo(HELP_OPEN, true, true), 99));
      }
      blocking := VisibilityBlocking(visible);
    }

    /**
     * `get_text`: for each run of equal groups, a header, then the run's
     * entries by `order`, counting the entries shown so far to find the
     * cursor's.
     */
    method GetText(printer: CommandInfo -> string) returns (txt: seq<Text>)
      ensures txt == Layout(cmds, selection as int, printer)
    {
      var sel := selection as int;
      var runs := Runs(cmds);
      ghost var total := Layout(cmds, sel, printer);
      var processed := 0;
      txt := [];
      var j := 0;
      assert runs[0..] == runs;
      while j < |runs|
        invariant 0 <= j <= |runs|
        invariant txt + LayoutGroups(DisplayGroups(runs[j..]), sel, processed, printer) == total
      {
        var run := runs[j];
        var sorted := DisplayRun(run);
        var start := processed;
        var lines;
        lines, processed := EntryTexts(sorted, sel, start, printer);
        GetTextStep(runs, j, run, sorted, lines, sel, start, processed, printer);
        ConcatGroup(txt, LayoutGroups(DisplayGroups(runs[j..]), sel, start, printer),
                    HeaderText(RunGroup(run)), lines, LayoutGroups(DisplayGroups(runs[j + 1..]), sel, processed, printer), total);
        txt := txt + [HeaderText(RunGroup(run))] + lines;
        j := j + 1;
      }
      assert runs[j..] == [];
    }

    /** `draw`: when shown, the text of `get_text` scrolled to keep the cursor in view; nothing otherwise. */
    method Draw(printer: CommandInfo -> string) returns (shown: Option<Popup>)
      ensures shown.Some? <==> visible
      ensures shown.Some? ==> shown.value == Popup(Layout(cmds, selection as int, printer), ScrollOffset(selection))
    {
      if visible {
        var scroll := SaturatingSub(selection, SCROLL_THRESHOLD);
        var lines := GetText(printer);
        shown := Some(Popup(lines, scroll));
      } else {
        shown := None;
      }
    }
  }

  /**
   * The closure `get_text` maps over one group's sorted entries: each entry's
   * line, marked when its display position `processed` is the cursor `sel`.
   */
  method EntryTexts(sorted: seq<CommandInfo>, sel: int, start: int, printer: CommandInfo -> string)
    returns (lines: seq<Text>, processed: int)
    ensures lines == EntryLines(sorted, sel, start, printer)
    ensures processed == start + |sorted|
  {
    processed := start;
    lines := [];
    var i := 0;
    assert sorted[0..] == sorted;
    while i < |sorted|
      invariant 0 <= i <= |sorted| && processed == start + i
      invariant lines + EntryLines(sorted[i..], sel, processed, printer) == EntryLines(sorted, sel, start, printer)
    {
      var e := sorted[i];
      var isSelected := sel == processed;
      EntryLinesStep(sorted, i, sel, processed, printer);
      processed := processed + 1;
      var out := if isSelected then ">" else " ";
      out := out + printer(e);
      out := out + "\n";
      if isSelected {
        out := out + ("  " + e.text.desc + "\n");
      }
      var line := Styled(out, ThemeText(true, isSelected));
      assert line == EntryText(e, isSelected, printer);
      lines := lines + [line];
      i := i + 1;
    }
    assert sorted[i..] == [];
    assert lines + [] == lines;
  }

  lemma ConcatGroup<T>(txt: seq<T>, group: seq<T>, x: T, middle: seq<T>, rest: seq<T>, total: seq<T>)
    requires txt + group == total && group == [x] + middle + rest
    ensures txt + [x] + middle + rest == total
  {
    assert txt + ([x] + middle + rest) == txt + [x] + middle + rest;
  }

  /** One entry of `get_text`'s inner loop: the entry's line, then the rest of the run. */
  lemma EntryLinesStep(d: seq<CommandInfo>, i: nat, sel: int, start: int, printer: CommandInfo -> string)
    requires i < |d|
    ensures EntryLines(d[i..], sel, start, printer)
         == [EntryText(d[i], sel == start, printer)] + EntryLines(d[i + 1..], sel, start + 1, printer)
  {
    assert d[i..][0] == d[i] && d[i..][1..] == d[i + 1..];
  }

  /** One group of `get_text`'s loop: header, the run's entries, then the later runs. */
  lemma GetTextStep(runs: seq<seq<CommandInfo>>, j: nat, run: seq<CommandInfo>, sorted: seq<CommandInfo>, lines: seq<Text>,
                    sel: int, start: int, next: int, printer: CommandInfo -> string)
    requires j < |runs| && run == runs[j] && sorted == DisplayRun(run)
    requires lines == EntryLines(sorted, sel, start, printer) && next == start + |sorted|
    ensures LayoutGroups(DisplayGroups(runs[j..]), sel, start, printer)
         == [HeaderText(RunGroup(run))] + lines + LayoutGroups(DisplayGroups(runs[j + 1..]), sel, next, printer)
  {
    var later := DisplayGroups(runs[j + 1..]);
    assert DisplayGroups(runs[j..]) == [Group(RunGroup(run), sorted)] + later by {
      DisplayGroupsFrom(runs, j);
    }
    LayoutGroupsCons(Group(RunGroup(run), sorted), later, sel, start, printer);
  }

}
