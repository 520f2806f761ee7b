/**
 * The text `HelpComponent::get_text` lays out: for every run of consecutive
 * entries with the same group, a header line with the group name, then one
 * line per entry of the run in ascending `order`; the entry at the cursor gets
 * a `>` marker and its description on a second line.
 */
module HelpLayout {
  import opened Orders
  import opened Sequences
  import opened Commands

  /** `Style::default().modifier(REVERSED)` for headers; `theme.text(enabled, selected)` for entries. */
  datatype Style = Reversed | ThemeText(enabled: bool, selected: bool)

  /** `Text::Styled`: one styled piece of the popup's body. */
  datatype Text = Styled(content: string, style: Style)

  function HeaderText(group: string): Text {
    Styled(group + "\n", Reversed)
  }

  /**
   * The line of one command. `printer(c)` is what `CommandInfo::print` appends
   * to the line, which is not part of this model.
   */
  function EntryText(c: CommandInfo, selected: bool, printer: CommandInfo -> string): Text {
    var marker := if selected then ">" else " ";
    var description := if selected then "  " + c.text.desc + "\n" else "";
    Styled(marker + printer(c) + "\n" + description, ThemeText(true, selected))
  }

  predicate IsHeaderLine(t: Text) {
    t.style.Reversed?
  }

  predicate IsEntryLine(t: Text) {
    t.style.ThemeText?
  }

  predicate IsSelectedLine(t: Text) {
    t.style == ThemeText(true, true)
  }

  /**
   * An entry line is marked with `>` exactly when it is selected, and only a
   * selected line ends with the command's description.
   */
  lemma EntryTextMarked(c: CommandInfo, selected: bool, printer: CommandInfo -> string)
    ensures var t := EntryText(c, selected, printer);
      && IsEntryLine(t) && !IsHeaderLine(t)
      && (IsSelectedLine(t) <==> selected)
      && t.content != [] && (t.content[0] == '>' <==> selected)
      && (selected ==> |c.text.desc| + 1 <= |t.content| && t.content[|t.content| - |c.text.desc| - 1..] == c.text.desc + "\n")
      && (!selected ==> t.content == " " + printer(c) + "\n")
  {
  }

  /** The entry lines of `entries`, the first of which sits at display position `start`. */
  function EntryLines(entries: seq<CommandInfo>, sel: int, start: int, printer: CommandInfo -> string): (lines: seq<Text>)
    ensures |lines| == |entries|
    decreases |entries|
  {
    if entries == [] then []
    else [EntryText(entries[0], sel == start, printer)] + EntryLines(entries[1..], sel, start + 1, printer)
  }

  /** One item of `group_by`: the shared key and the entries, here already in display order. */
  datatype Group = Group(key: string, entries: seq<CommandInfo>)

  /** The group a run is made of: that of its first entry. */
  function RunGroup(run: seq<CommandInfo>): string {
    if run == [] then "" else run[0].text.group
  }

  /** The runs of consecutive entries with equal group (`group_by(|e| e.text.group)`). */
  function Runs(cmds: seq<CommandInfo>): seq<seq<CommandInfo>> {
    GroupBy(cmds, GroupOf)
  }

  /** One run as displayed: `sorted_by_key(|e| e.order)`, a stable sort. */
  function DisplayRun(run: seq<CommandInfo>): seq<CommandInfo> {
    SortBy(run, OrderOf, IntLt)
  }

  /** The runs with their keys and their entries in display order. */
  function DisplayGroups(runs: seq<seq<CommandInfo>>): (gs: seq<Group>)
    ensures |gs| == |runs|
    decreases |runs|
  {
    if runs == [] then []
    else [Group(RunGroup(runs[0]), DisplayRun(runs[0]))] + DisplayGroups(runs[1..])
  }

  /** The entries of `gs`, one group after the other. */
  function Entries(gs: seq<Group>): seq<CommandInfo>
    decreases |gs|
  {
    if gs == [] then [] else gs[0].entries + Entries(gs[1..])
  }

  /** The entries of `cmds` in display order; the cursor indexes this sequence. */
  function DisplayOrder(cmds: seq<CommandInfo>): seq<CommandInfo> {
    Entries(DisplayGroups(Runs(cmds)))
  }

  /** The lines of `gs`, whose first entry sits at display position `start`. */
  function LayoutGroups(gs: seq<Group>, sel: int, start: int, printer: CommandInfo -> string): seq<Text>
    decreases |gs|
  {
    if gs == [] then []
    else
      [HeaderText(gs[0].key)]
      + EntryLines(gs[0].entries, sel, start, printer)
      + LayoutGroups(gs[1..], sel, start + |gs[0].entries|, printer)
  }

  /** What `get_text` returns for the list `cmds` and the cursor `sel`. */
  function Layout(cmds: seq<CommandInfo>, sel: int, printer: CommandInfo -> string): seq<Text> {
    LayoutGroups(DisplayGroups(Runs(cmds)), sel, 0, printer)
  }

  /** One header line per group, naming its key. */
  function HeaderLines(gs: seq<Group>): (r: seq<Text>)
    ensures |r| == |gs|
    decreases |gs|
  {
    if gs == [] then [] else [HeaderText(gs[0].key)] + HeaderLines(gs[1..])
  }

  /** One header line per run, naming the group of its first entry. */
  function Headers(runs: seq<seq<CommandInfo>>): (r: seq<Text>)
    ensures |r| == |runs|
    ensures forall j :: 0 <= j < |runs| ==> r[j] == HeaderText(RunGroup(runs[j]))
    decreases |runs|
  {
    if runs == [] then [] else [HeaderText(RunGroup(runs[0]))] + Headers(runs[1..])
  }

  // ---------------------------------------------------------------------------
  // The layout of groups
  // ---------------------------------------------------------------------------

  lemma {:induction false} EntryLinesAppend(a: seq<CommandInfo>, b: seq<CommandInfo>, sel: int, start: int, printer: CommandInfo -> string)
    ensures EntryLines(a + b, sel, start, printer) == EntryLines(a, sel, start, printer) + EntryLines(b, sel, start + |a|, printer)
    decreases |a|
  {
    if a == [] {
      assert a + b == b;
    } else {
      assert (a + b)[1..] == a[1..] + b;
      EntryLinesAppend(a[1..], b, sel, start + 1, printer);
    }
  }

  lemma FilterConcat3<T, K>(a: seq<T>, b: seq<T>, c: seq<T>, key: T -> K, k: K)
    ensures Filter(a + b + c, key, k) == Filter(a, key, k) + Filter(b, key, k) + Filter(c, key, k)
  {
    FilterAppend(a + b, c, key, k);
    FilterAppend(a, b, key, k);
  }

  lemma FilterAll<T, K>(s: seq<T>, key: T -> K, k: K)
    requires forall x :: x in s ==> key(x) == k
    ensures Filter(s, key, k) == s
    decreases |s|
  {
    if s != [] {
      assert s[0] in s;
      FilterAll(s[1..], key, k);
    }
  }

  /** Two sequences made of three parts that filter alike filter alike. */
  lemma FilterSplit<T>(all: seq<T>, a: seq<T>, b: seq<T>, c: seq<T>, whole: seq<T>, a2: seq<T>, b2: seq<T>, c2: seq<T>, kind: T -> bool)
    requires all == a + b + c && whole == a2 + b2 + c2
    requires Filter(a, kind, true) == Filter(a2, kind, true)
    requires Filter(b, kind, true) == Filter(b2, kind, true)
    requires Filter(c, kind, true) == Filter(c2, kind, true)
    ensures Filter(all, kind, true) == Filter(whole, kind, true)
  {
    FilterConcat3(a, b, c, kind, true);
    FilterConcat3(a2, b2, c2, kind, true);
  }

  /** Entry lines are never header lines. */
  lemma {:induction false} EntryLinesAreEntries(d: seq<CommandInfo>, sel: int, start: int, printer: CommandInfo -> string)
    ensures forall t :: t in EntryLines(d, sel, start, printer) ==> IsEntryLine(t)
    decreases |d|
  {
    if d != [] {
      EntryLinesAreEntries(d[1..], sel, start + 1, printer);
    }
  }

  /** One step of `LayoutGroups`: the first group's header and entries, then the other groups. */
  lemma LayoutGroupsUnfold(gs: seq<Group>, sel: int, start: int, printer: CommandInfo -> string)
    requires gs != []
    ensures LayoutGroups(gs, sel, start, printer)
         == [HeaderText(gs[0].key)]
          + EntryLines(gs[0].entries, sel, start, printer)
          + LayoutGroups(gs[1..], sel, start + |gs[0].entries|, printer)
    ensures Entries(gs) == gs[0].entries + Entries(gs[1..])
    ensures HeaderLines(gs) == [HeaderText(gs[0].key)] + HeaderLines(gs[1..])
  {
  }

  /** The layout of one group followed by others. */
  lemma LayoutGroupsCons(g: Group, later: seq<Group>, sel: int, start: int, printer: CommandInfo -> string)
    ensures LayoutGroups([g] + later, sel, start, printer)
         == [HeaderText(g.key)] + EntryLines(g.entries, sel, start, printer) + LayoutGroups(later, sel, start + |g.entries|, printer)
  {
    assert ([g] + later)[0] == g && ([g] + later)[1..] == later;
  }

  /** For a kind of line that no header is, the layout holds exactly those lines of the entries. */
  lemma {:induction false} LayoutGroupsEntryFilter(gs: seq<Group>, sel: int, start: int, printer: CommandInfo -> string, kind: Text -> bool)
    requires forall g :: !kind(HeaderText(g))
    ensures Filter(LayoutGroups(gs, sel, start, printer), kind, true)
         == Filter(EntryLines(Entries(gs), sel, start, printer), kind, true)
    decreases |gs|
  {
    if gs != [] {
      var next := start + |gs[0].entries|;
      var head := [HeaderText(gs[0].key)];
      var entries := EntryLines(gs[0].entries, sel, start, printer);
      var rest := LayoutGroups(gs[1..], sel, next, printer);
      var later := EntryLines(Entries(gs[1..]), sel, next, printer);
      assert LayoutGroups(gs, sel, start, printer) == head + entries + rest by {
        LayoutGroupsUnfold(gs, sel, start, printer);
      }
      assert EntryLines(Entries(gs), sel, start, printer) == entries + later by {
        LayoutGroupsUnfold(gs, sel, start, printer);
        EntryLinesAppend(gs[0].entries, Entries(gs[1..]), sel, start, printer);
      }
      assert Filter(rest, kind, true) == Filter(later, kind, true) by {
        LayoutGroupsEntryFilter(gs[1..], sel, next, printer, kind);
      }
      assert Filter(head, kind, true) == [] by {
        assert !kind(head[0]);
      }
      assert EntryLines(Entries(gs), sel, start, printer) == [] + entries + later;
      FilterSplit(LayoutGroups(gs, sel, start, printer), head, entries, rest,
                  EntryLines(Entries(gs), sel, start, printer), [], entries, later, kind);
    }
  }

  /** The header lines of the layout are one per group, in group order. */
  lemma {:induction false} LayoutGroupsHeaders(gs: seq<Group>, sel: int, start: int, printer: CommandInfo -> string)
    ensures Filter(LayoutGroups(gs, sel, start, printer), IsHeaderLine, true) == HeaderLines(gs)
    decreases |gs|
  {
    if gs != [] {
      var head := [HeaderText(gs[0].key)];
      var entries := EntryLines(gs[0].entries, sel, start, printer);
      var rest := LayoutGroups(gs[1..], sel, start + |gs[0].entries|, printer);
      assert LayoutGroups(gs, sel, start, printer) == head + entries + rest
        && HeaderLines(gs) == head + HeaderLines(gs[1..]) by {
        LayoutGroupsUnfold(gs, sel, start, printer);
      }
      assert Filter(rest, IsHeaderLine, true) == HeaderLines(gs[1..]) by {
        LayoutGroupsHeaders(gs[1..], sel, start + |gs[0].entries|, printer);
      }
      assert Filter(entries, IsHeaderLine, true) == [] by {
        EntryLinesAreEntries(gs[0].entries, sel, start, printer);
        FilterEmpty(entries, IsHeaderLine, true);
      }
      assert Filter(head, IsHeaderLine, true) == head;
      FilterConcat3(head, entries, rest, IsHeaderLine, true);
    }
  }

  /** The layout has one header per group and one line per entry. */
  lemma {:induction false} LayoutGroupsLength(gs: seq<Group>, sel: int, start: int, printer: CommandInfo -> string)
    ensures |LayoutGroups(gs, sel, start, printer)| == |gs| + |Entries(gs)|
    decreases |gs|
  {
    if gs != [] {
      LayoutGroupsUnfold(gs, sel, start, printer);
      LayoutGroupsLength(gs[1..], sel, start + |gs[0].entries|, printer);
    }
  }

  /** Among entry lines starting at `start`, the selected ones are the one at the cursor, if any. */
  lemma {:induction false} EntryLinesSelected(d: seq<CommandInfo>, sel: int, start: int, printer: CommandInfo -> string)
    ensures Filter(EntryLines(d, sel, start, printer), IsSelectedLine, true)
         == if start <= sel < start + |d| then [EntryText(d[sel - start], true, printer)] else []
    decreases |d|
  {
    if d != [] {
      EntryLinesSelected(d[1..], sel, start + 1, printer);
    }
  }

  // ---------------------------------------------------------------------------
  // The groups of a list
  // ---------------------------------------------------------------------------

  /** Displaying the runs keeps their number of entries. */
  lemma {:induction false} DisplayGroupsLength(runs: seq<seq<CommandInfo>>)
    ensures |Entries(DisplayGroups(runs))| == |Flatten(runs)|
    decreases |runs|
  {
    if runs != [] {
      var gs := DisplayGroups(runs);
      assert gs[1..] == DisplayGroups(runs[1..]);
      assert Entries(gs) == DisplayRun(runs[0]) + Entries(gs[1..]);
      DisplayGroupsLength(runs[1..]);
    }
  }

  /** Displaying the runs keeps their entries. */
  lemma {:induction false} DisplayGroupsPermutation(runs: seq<seq<CommandInfo>>)
    ensures multiset(Entries(DisplayGroups(runs))) == multiset(Flatten(runs))
    decreases |runs|
  {
    if runs != [] {
      var gs := DisplayGroups(runs);
      assert gs[1..] == DisplayGroups(runs[1..]);
      assert Entries(gs) == DisplayRun(runs[0]) + Entries(gs[1..]);
      DisplayGroupsPermutation(runs[1..]);
    }
  }

  /** The groups from run `j` on: run `j`'s group, then those of the later runs. */
  lemma DisplayGroupsFrom(runs: seq<seq<CommandInfo>>, j: nat)
    requires j < |runs|
    ensures DisplayGroups(runs[j..]) == [Group(RunGroup(runs[j]), DisplayRun(runs[j]))] + DisplayGroups(runs[j + 1..])
  {
    var r := runs[j..];
    assert r[0] == runs[j] && r[1..] == runs[j + 1..];
  }

  /** Group `j` shows run `j`. */
  lemma {:induction false} DisplayGroupsAt(runs: seq<seq<CommandInfo>>, j: nat)
    requires j < |runs|
    ensures DisplayGroups(runs)[j] == Group(RunGroup(runs[j]), DisplayRun(runs[j]))
    decreases j
  {
    if j > 0 {
      assert DisplayGroups(runs)[1..] == DisplayGroups(runs[1..]);
      DisplayGroupsAt(runs[1..], j - 1);
    }
  }

  /** The groups of the first `j` runs are the first `j` groups. */
  lemma {:induction false} DisplayGroupsPrefix(runs: seq<seq<CommandInfo>>, j: nat)
    requires j <= |runs|
    ensures DisplayGroups(runs)[..j] == DisplayGroups(runs[..j])
    decreases j
  {
    if j > 0 {
      var gs := DisplayGroups(runs);
      assert gs[1..] == DisplayGroups(runs[1..]);
      assert runs[..j][1..] == runs[1..][..j - 1];
      DisplayGroupsPrefix(runs[1..], j - 1);
      assert gs[..j] == [gs[0]] + gs[1..][..j - 1];
    }
  }

  /** The keys of the displayed groups are the groups of the runs. */
  lemma {:induction false} DisplayGroupsHeaders(runs: seq<seq<CommandInfo>>)
    ensures HeaderLines(DisplayGroups(runs)) == Headers(runs)
    decreases |runs|
  {
    if runs != [] {
      var gs := DisplayGroups(runs);
      assert gs[1..] == DisplayGroups(runs[1..]);
      DisplayGroupsHeaders(runs[1..]);
    }
  }

  lemma {:induction false} FlattenSlice<T>(runs: seq<seq<T>>, j: nat)
    requires j < |runs|
    ensures var o := |Flatten(runs[..j])|;
      o + |runs[j]| <= |Flatten(runs)| && Flatten(runs)[o..o + |runs[j]|] == runs[j]
    decreases j
  {
    if j == 0 {
      assert runs[..0] == [];
    } else {
      FlattenSlice(runs[1..], j - 1);
      assert runs[..j] == [runs[0]] + runs[1..][..j - 1];
      assert runs[1..][j - 1] == runs[j];
      assert Flatten([runs[0]] + runs[1..][..j - 1]) == runs[0] + Flatten(runs[1..][..j - 1]);
    }
  }

  /** Group `j`'s entries stand in `Entries(gs)` right after those of the groups before it. */
  lemma {:induction false} EntriesSlice(gs: seq<Group>, j: nat)
    requires j < |gs|
    ensures var o := |Entries(gs[..j])|;
      o + |gs[j].entries| <= |Entries(gs)| && Entries(gs)[o..o + |gs[j].entries|] == gs[j].entries
    decreases j
  {
    if j == 0 {
      assert gs[..0] == [];
    } else {
      EntriesSlice(gs[1..], j - 1);
      assert gs[..j] == [gs[0]] + gs[1..][..j - 1];
      assert gs[1..][j - 1] == gs[j];
      assert Entries([gs[0]] + gs[1..][..j - 1]) == gs[0].entries + Entries(gs[1..][..j - 1]);
    }
  }

  /** Run `j` is displayed where it stands in the list, sorted. */
  lemma DisplayGroupsSlice(runs: seq<seq<CommandInfo>>, j: nat)
    requires j < |runs|
    ensures var o := |Flatten(runs[..j])|;
      o + |runs[j]| <= |Entries(DisplayGroups(runs))|
      && Entries(DisplayGroups(runs))[o..o + |runs[j]|] == DisplayRun(runs[j])
  {
    var gs := DisplayGroups(runs);
    EntriesSlice(gs, j);
    DisplayGroupsPrefix(runs, j);
    DisplayGroupsLength(runs[..j]);
    DisplayGroupsAt(runs, j);
  }

  // ---------------------------------------------------------------------------
  // Properties of the layout of a list
  // ---------------------------------------------------------------------------

  /** The layout has one header per run of equal groups and one line per command. */
  lemma LayoutLength(cmds: seq<CommandInfo>, sel: int, printer: CommandInfo -> string)
    ensures |Layout(cmds, sel, printer)| == |Runs(cmds)| + |cmds|
  {
    LayoutGroupsLength(DisplayGroups(Runs(cmds)), sel, 0, printer);
    DisplayGroupsLength(Runs(cmds));
    GroupByFlatten(cmds, GroupOf);
  }

  /** The header lines name the groups of the maximal runs of consecutive equal groups, in order. */
  lemma LayoutHeaders(cmds: seq<CommandInfo>, sel: int, printer: CommandInfo -> string)
    ensures var runs := Runs(cmds);
      && Flatten(runs) == cmds
      && UniformRuns(runs, GroupOf)
      && MaximalRuns(runs, GroupOf)
      && Filter(Layout(cmds, sel, printer), IsHeaderLine, true) == Headers(runs)
  {
    GroupByFlatten(cmds, GroupOf);
    GroupByUniform(cmds, GroupOf);
    GroupByMaximal(cmds, GroupOf);
    LayoutGroupsHeaders(DisplayGroups(Runs(cmds)), sel, 0, printer);
    DisplayGroupsHeaders(Runs(cmds));
  }

  /** The entry lines are, in order, one per command of the display order, marked at the cursor. */
  lemma LayoutEntries(cmds: seq<CommandInfo>, sel: int, printer: CommandInfo -> string)
    ensures Filter(Layout(cmds, sel, printer), IsEntryLine, true) == EntryLines(DisplayOrder(cmds), sel, 0, printer)
  {
    LayoutGroupsEntryFilter(DisplayGroups(Runs(cmds)), sel, 0, printer, IsEntryLine);
    EntryLinesAreEntries(DisplayOrder(cmds), sel, 0, printer);
    FilterAll(EntryLines(DisplayOrder(cmds), sel, 0, printer), IsEntryLine, true);
  }

  /** Exactly one line is selected, the cursor's command with its description, when the cursor is in range; none otherwise. */
  lemma LayoutSelected(cmds: seq<CommandInfo>, sel: int, printer: CommandInfo -> string)
    ensures |DisplayOrder(cmds)| == |cmds|
    ensures Filter(Layout(cmds, sel, printer), IsSelectedLine, true)
         == if 0 <= sel < |cmds| then [EntryText(DisplayOrder(cmds)[sel], true, printer)] else []
  {
    GroupByFlatten(cmds, GroupOf);
    DisplayGroupsLength(Runs(cmds));
    LayoutGroupsEntryFilter(DisplayGroups(Runs(cmds)), sel, 0, printer, IsSelectedLine);
    EntryLinesSelected(DisplayOrder(cmds), sel, 0, printer);
  }

  /** The display order is a permutation of the list. */
  lemma DisplayOrderPermutation(cmds: seq<CommandInfo>)
    ensures multiset(DisplayOrder(cmds)) == multiset(cmds)
  {
    GroupByFlatten(cmds, GroupOf);
    DisplayGroupsPermutation(Runs(cmds));
  }

  /** The position of the first entry of run `j`: the number of entries in the runs before it. */
  function RunStart(runs: seq<seq<CommandInfo>>, j: nat): nat
    requires j <= |runs|
  {
    |Flatten(runs[..j])|
  }

  /** Run `j` of the list starts after the entries of the runs before it. */
  lemma RunPosition(cmds: seq<CommandInfo>, j: nat)
    requires j < |Runs(cmds)|
    ensures RunStart(Runs(cmds), j) + |Runs(cmds)[j]| <= |cmds|
    ensures cmds[RunStart(Runs(cmds), j)..RunStart(Runs(cmds), j) + |Runs(cmds)[j]|] == Runs(cmds)[j]
  {
    GroupByFlatten(cmds, GroupOf);
    FlattenSlice(Runs(cmds), j);
  }

  /** Run `j` of the list occupies the same positions in the display order, sorted. */
  lemma DisplayOrderRun(cmds: seq<CommandInfo>, j: nat)
    requires j < |Runs(cmds)|
    ensures |DisplayOrder(cmds)| == |cmds| && RunStart(Runs(cmds), j) + |Runs(cmds)[j]| <= |cmds|
    ensures DisplayOrder(cmds)[RunStart(Runs(cmds), j)..RunStart(Runs(cmds), j) + |Runs(cmds)[j]|] == DisplayRun(Runs(cmds)[j])
  {
    RunPosition(cmds, j);
    GroupByFlatten(cmds, GroupOf);
    DisplayGroupsLength(Runs(cmds));
    DisplayGroupsSlice(Runs(cmds), j);
  }

  /** A run is displayed in ascending `order`, as a permutation, and stable: ties keep their list order. */
  lemma DisplayRunOrdered(run: seq<CommandInfo>)
    ensures SortedBy(DisplayRun(run), OrderOf, IntLt)
    ensures multiset(DisplayRun(run)) == multiset(run)
    ensures forall k :: Filter(DisplayRun(run), OrderOf, k) == Filter(run, OrderOf, k)
  {
    IntLtIsStrictTotalOrder();
    SortBySorted(run, OrderOf, IntLt);
    forall k ensures Filter(DisplayRun(run), OrderOf, k) == Filter(run, OrderOf, k) {
      SortByStable(run, OrderOf, IntLt, k);
    }
  }
}
