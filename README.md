# Help popup of gitui, modelled in Dafny

This project models `HelpComponent` from gitui's `src/components/help.rs`. It is
the popup that lists the keyboard commands the other components currently offer.

The Rust struct has four fields. The Dafny class `Help.HelpComponent` keeps
three of them:

- `cmds`: the aggregated command list;
- `visible`: whether the popup is shown;
- `selection`: a `u16` cursor into the displayed entries.

The fourth field, `theme`, only styles the output and is left out. The class
also has a constant `hash`, which stands in for the global function
`asyncgit::hash` that `set_cmds` calls.

The model covers these operations:

- **`set_cmds`** (`SetCmds`) aggregates the commands every component reports.
  It drops the entries hidden from help and sorts by text. It then drops
  consecutive entries with equal text and stable-sorts by the hash of the group.
  `HelpAggregate.Aggregate` states the same four steps as a function. The lemmas
  beside it characterise the result without the sorts, through
  `HelpAggregate.IsHelpList`:
  - each entry is the first input entry with its text, and is not hidden;
  - every visible text is present exactly once;
  - the list is strictly ordered by group hash, then by text.

  The lemmas also prove several more facts:
  - such a list is unique;
  - aggregation is idempotent;
  - the texts kept, and their order, do not depend on the order of the input
    batch;
  - groups are contiguous whenever the hash tells the groups apart.
- **`move_selection`** (`MoveSelection`) moves the cursor with saturating `u16`
  arithmetic and clamps it to the last entry. It leaves the cursor alone when
  `len - 1` does not fit a `u16`. It is proved equal to `Help.NextSelection`, an
  independent clamp whose contract gives each case the code handles.
- **`event`, `show`, `hide`, `is_visible`** form the two-state visibility
  machine and decide which events the popup consumes.
- **`commands`** edits the caller's command vector (`Commands.CommandVec`) in
  place.
- **`get_text`** (`GetText`) is proved equal to `HelpLayout.Layout`. It has one
  header per run of consecutive entries with equal group, and each run's entries
  sorted by `order`. A running counter `processed` marks the entry at the
  cursor. The lemmas on `Layout` give:
  - the number of lines;
  - the headers, one per maximal run;
  - the entry lines, in display order;
  - that exactly one line is selected when the cursor is in range, and none
    otherwise;
  - that each run keeps its place and is sorted stably by `order`.
- **`draw`** (`Draw`) is modelled only for what it computes: the scroll offset
  `selection.saturating_sub(24 / 3)` and the text of `get_text`.

The Rust library operations the code relies on are modelled as functions in
`Sequences`, with the properties their documentation promises:

- `sort_by_key` and `sorted_by_key`, stable sorts;
- `dedup_by_key`;
- itertools' `group_by`.

The `u16` operations are in `U16`.

In these points the code behaves differently from what a reader might expect,
and the model follows the code:

- `set_cmds` does not re-clamp `selection`. The cursor can therefore point past
  the end of a shorter list until the next move, and then no line is selected.
- Groups are contiguous only when `hash` separates the groups present (see
  `HelpAggregate.AggregateGroupsContiguous`). Entries with equal hash stay in
  text order, so two groups whose hashes collide can interleave.
- `set_cmds` does not sort by `order`; only `get_text` does, per run.
- Among entries with equal text, `set_cmds` keeps the first one of the input.
  Which `enabled`, `available` and `order` survive therefore depends on the
  input order. The texts and their order do not
  (`HelpAggregate.AggregateTextsIgnoreBatchOrder`).

## Model

| member | source | states |
|---|---|---|
| U16.SaturatingAdd | src/components/help.rs:181 | the sum, or `u16::MAX` when the sum does not fit |
| U16.SaturatingSub | src/components/help.rs:183 | the difference, or 0 when it would be negative; never above the minuend |
| U16.SaturatingDecrement | src/components/help.rs:188 | `len.saturating_sub(1)`: 0 for 0, otherwise one less |
| U16.TryFrom | src/components/help.rs:187-188 | `u16::try_from` succeeds exactly when the value is at most 65535, and then keeps it |
| U16.Max | src/components/help.rs:185 | `cmp::max`: at least both arguments and equal to one of them |
| U16.Min | src/components/help.rs:190 | `cmp::min`: at most both arguments and equal to one of them |
| Orders.StrLtIsStrictTotalOrder | src/components/help.rs:172 | lexicographic string order is irreflexive, transitive and total |
| Commands.TextLtIsStrictTotalOrder | src/components/help.rs:172 | the derived order on command texts is a strict total order |
| Commands.CommandVec.Clear | src/components/help.rs:99 | `out.clear()` empties the vector |
| Commands.CommandVec.Push | src/components/help.rs:103-116 | `out.push(c)` appends `c` and keeps the rest |
| Sequences.Filter | src/components/help.rs:168-171 | the kept elements come from the input and have the key asked for |
| Sequences.SortBy | src/components/help.rs:172 | a sort is a permutation of its input |
| Sequences.SortBySorted | src/components/help.rs:172 | a sort by key yields keys in non-decreasing order |
| Sequences.SortByStable | src/components/help.rs:172 | the sort is stable: the elements with any one key keep their relative order |
| Sequences.SortByMembers | src/components/help.rs:172 | a sort keeps exactly the input's elements |
| Sequences.SortByLex | src/components/help.rs:174 | stable-sorting a list already chained by a secondary order sorts by key, then by that order |
| Sequences.DedupBy | src/components/help.rs:173 | `dedup_by_key` keeps the first element and only input elements |
| Sequences.DedupStrictlySorted | src/components/help.rs:172-173 | deduplicating a sorted list leaves strictly increasing keys |
| Sequences.DedupFirst | src/components/help.rs:172-173 | deduplicating a sorted list keeps, for every key, exactly its first element |
| Sequences.GroupBy | src/components/help.rs:199-200 | `group_by` yields non-empty runs, none for an empty input, and starts with the input's first element |
| Sequences.GroupByFlatten | src/components/help.rs:199-200 | the runs put back together give the input |
| Sequences.GroupByUniform | src/components/help.rs:199-200 | every run is non-empty and has a single key |
| Sequences.GroupByMaximal | src/components/help.rs:199-200 | neighbouring runs have different keys, so the runs are maximal |
| HelpAggregate.VisibleFilter | src/components/help.rs:168-171 | dropping hidden entries removes every entry of a hidden text and none of a visible one |
| HelpAggregate.AggregateOrdered | src/components/help.rs:172-174 | the aggregated list is strictly ordered by group hash, then by text |
| HelpAggregate.AggregateText | src/components/help.rs:168-173 | after filtering, sorting and deduplicating, a text keeps only its first input entry, or none when hidden |
| HelpAggregate.UniqueEntry | src/components/help.rs:168-173 | every deduplicated entry is visible and is the first input entry with its text |
| HelpAggregate.AggregateEntry | src/components/help.rs:167-175 | any entry of the aggregated list is visible and is the first input entry with its text |
| HelpAggregate.AggregateKeepsFirst | src/components/help.rs:167-175 | every aggregated entry is visible and is the first input entry with its text |
| HelpAggregate.AggregateKeepsText | src/components/help.rs:167-175 | the text of a visible input entry appears in the aggregated list |
| HelpAggregate.AggregateComplete | src/components/help.rs:167-175 | every visible input text appears in the aggregated list |
| HelpAggregate.AggregateIsHelpList | src/components/help.rs:167-175 | the aggregated list satisfies the sort-free description `IsHelpList` |
| HelpAggregate.HelpListDistinct | src/components/help.rs:172-173 | no text occurs twice in a help list |
| HelpAggregate.HelpListTexts | src/components/help.rs:167-175 | the texts of a help list are exactly the visible input texts |
| HelpAggregate.HelpListUnique | src/components/help.rs:167-175 | two help lists for the same input and hash are equal |
| HelpAggregate.AggregateIdempotent | src/components/help.rs:167-175 | aggregating an aggregated list changes nothing |
| HelpAggregate.HelpListTextsChained | src/components/help.rs:172-174 | the texts of a help list are strictly ordered by group hash, then by text |
| HelpAggregate.HelpListTextsVisible | src/components/help.rs:167-175 | the texts of a help list are exactly the visible texts of the input |
| HelpAggregate.AggregateTextsIgnoreBatchOrder | src/components/help.rs:167-175 | two inputs holding the same commands in any order give the same texts in the same order |
| HelpAggregate.AggregateGroupsContiguous | src/components/help.rs:172-174 | when the hash separates the groups present, each group forms one contiguous block |
| HelpLayout.EntryTextMarked | src/components/help.rs:211-234 | an entry line starts with `>` exactly when selected, has the selected style only then, and only then ends with the description |
| HelpLayout.EntryLines | src/components/help.rs:207-237 | one line per entry of a run |
| HelpLayout.DisplayGroups | src/components/help.rs:199-209 | one displayed group per run |
| HelpLayout.Headers | src/components/help.rs:202-205 | header `j` names the group of run `j` |
| HelpLayout.EntryLinesAppend | src/components/help.rs:207-237 | the entry lines of two parts are those of the first, then those of the second, numbered on |
| HelpLayout.EntryLinesAreEntries | src/components/help.rs:231-234 | entry lines carry the theme's style, never the header style |
| HelpLayout.LayoutGroupsEntryFilter | src/components/help.rs:199-238 | leaving out the headers, the layout is the entry lines of all entries numbered from 0 |
| HelpLayout.LayoutGroupsHeaders | src/components/help.rs:199-205 | the header lines are one per group, in group order |
| HelpLayout.LayoutGroupsLength | src/components/help.rs:199-238 | one line per group plus one per entry |
| HelpLayout.EntryLinesSelected | src/components/help.rs:211-234 | among numbered entry lines, only the one whose number is the cursor is selected |
| HelpLayout.DisplayGroupsLength | src/components/help.rs:207-209 | displaying the runs keeps the number of entries |
| HelpLayout.DisplayGroupsPermutation | src/components/help.rs:207-209 | displaying the runs keeps the entries, as a multiset |
| HelpLayout.DisplayGroupsFrom | src/components/help.rs:199-209 | the groups from run `j` on are run `j`'s group, then the later ones |
| HelpLayout.DisplayGroupsAt | src/components/help.rs:199-209 | group `j` shows run `j`, sorted by `order` |
| HelpLayout.DisplayGroupsPrefix | src/components/help.rs:199-209 | the groups of the first `j` runs are the first `j` groups |
| HelpLayout.DisplayGroupsHeaders | src/components/help.rs:199-205 | the group keys are the groups of the runs |
| HelpLayout.FlattenSlice | src/components/help.rs:199-200 | run `j` stands in the list right after the runs before it |
| HelpLayout.EntriesSlice | src/components/help.rs:207-209 | group `j`'s entries stand right after those of the groups before it |
| HelpLayout.DisplayGroupsSlice | src/components/help.rs:199-209 | run `j` is displayed, sorted, at the positions it occupies in the list |
| HelpLayout.LayoutLength | src/components/help.rs:194-241 | `get_text` yields one header per maximal run plus one line per command |
| HelpLayout.LayoutHeaders | src/components/help.rs:199-205 | the headers name the groups of the maximal uniform runs that make up the list, in order |
| HelpLayout.LayoutEntries | src/components/help.rs:207-237 | the entry lines are one per command in display order, marked at the cursor |
| HelpLayout.LayoutSelected | src/components/help.rs:211-234 | exactly one line is selected, the cursor's command, when the cursor is in range; none otherwise |
| HelpLayout.DisplayOrderPermutation | src/components/help.rs:199-209 | the display order is a permutation of the list |
| HelpLayout.RunPosition | src/components/help.rs:199-200 | run `j` occupies the positions after the entries of the earlier runs |
| HelpLayout.DisplayOrderRun | src/components/help.rs:199-213 | run `j` occupies the same positions in the display order, sorted by `order` |
| HelpLayout.DisplayRunOrdered | src/components/help.rs:209 | a displayed run is in ascending `order`, a permutation of the run, and stable among equal orders |
| Help.ScrollOffset | src/components/help.rs:37-40 | the scroll offset is `max(0, selection - 8)`, never above the cursor and at most 8 below it |
| Help.NextSelection | src/components/help.rs:177-192 | the cursor stays within `0..len-1`, is 0 for an empty list, does not move past either end, otherwise moves by one, and jumps back to the last entry when stale; nothing moves when `len - 1` exceeds `u16` |
| Help.HelpComponent.constructor | src/components/help.rs:158-165 | empty list, hidden, cursor at 0 |
| Help.HelpComponent.SetCmds | src/components/help.rs:167-175 | the list becomes the aggregate of the input, which is a help list; visibility and cursor are unchanged |
| Help.HelpComponent.MoveSelection | src/components/help.rs:177-192 | the new cursor is `NextSelection` of the old one; list and visibility unchanged |
| Help.HelpComponent.Hide | src/components/help.rs:146-148 | hidden, nothing else changes |
| Help.HelpComponent.Show | src/components/help.rs:150-154 | shown, nothing else changes |
| Help.HelpComponent.Event | src/components/help.rs:122-140 | consumed exactly when shown or the help key; Esc hides, the arrows move the cursor, other events change nothing; while hidden only the help key acts, and it shows |
| Help.HelpComponent.Commands | src/components/help.rs:92-120 | shown: the vector becomes scroll and close (or gains them, with help-open, when all are asked for); hidden: help-open with order 99 is appended; blocking follows visibility |
| Help.HelpComponent.GetText | src/components/help.rs:194-241 | the lines produced are `Layout` of the list and the cursor |
| Help.HelpComponent.Draw | src/components/help.rs:31-88 | a popup exactly when shown, holding the `get_text` lines and the scroll offset |
| Help.EntryTexts | src/components/help.rs:207-237 | the inner loop yields the run's entry lines and advances `processed` by the run's length |
| Help.EntryLinesStep | src/components/help.rs:210-235 | one iteration of the inner loop: the current entry's line, then the rest numbered on |
| Help.GetTextStep | src/components/help.rs:199-237 | one iteration of the outer loop: header, the run's lines, then the later runs numbered on |

## Left out

- The rendering in `draw` is left out: clearing, the border block, the layout split, the centred rectangle and the version footer (`src/components/help.rs:42-84`). `Draw` returns the text and the scroll offset instead.
- Theme styling is left out. `theme.text(enabled, selected)` and the reversed header style are kept only as labels (`HelpLayout.Style`).
- `CommandInfo::print` is a parameter `printer`. Its definition (`src/components/mod.rs`) is not part of this model.
- `asyncgit::hash` is a constant field `hash: string -> int` fixed at construction. Its definition is not part of this model. It returns an unbounded integer rather than a `u64`.
- `visibility_blocking` is modelled as "a visible component blocks". Its definition is not part of this model.
- `CommandInfo` and `CommandText` are records with the fields the popup reads. The order on `CommandText` is the derived one, with the fields assumed to be name, description, group, hide-help (`src/components/mod.rs` is not part of this model). `order` is an unbounded integer rather than an `i8`.
- The labels of the scroll, close and help-open commands are stand-ins. `src/strings.rs` is not part of this model.
- The key constants of `src/keys.rs` are four distinct keys of `Keys.KeyEvent`. A crossterm event is either a key or something else, and no other structure of it is modelled.
- The `anyhow::Result` wrapping of `event`, `show` and `draw` is omitted, because none of them fails here.
- Help.HelpComponent.GetText: the `u16` counter `processed` is an unbounded integer. The code would overflow it on lists of more than 65535 entries, and that case is not modelled.
- Help.HelpComponent.IsVisible: `is_visible` reads the flag and has no contract of its own. `Show`, `Hide` and `Event` state the flag.
- HelpAggregate.AggregateGroupsContiguous: contiguity of groups is proved only when the hash separates the groups present, because the code does not guarantee it otherwise.
- Help.HelpComponent.SetCmds: the cursor is not clamped to the new list, because the code does not clamp it.
