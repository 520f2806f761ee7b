/**
 * What `HelpComponent::set_cmds` makes of the commands every component
 * reports: hidden ones dropped, one entry per distinct text, ordered by the
 * hash of the group and then by text.
 */
module HelpAggregate {
  import opened Orders
  import opened Sequences
  import opened Commands

  function HiddenOf(c: CommandInfo): bool {
    c.text.hideHelp
  }

  /** The sort key of the second sort: the hash of the command's group. */
  function GroupHash(hash: string -> int): CommandInfo -> int {
    (c: CommandInfo) => hash(c.text.group)
  }

  /**
   * The four steps of `set_cmds`: keep the entries not hidden from help,
   * stable-sort by text, drop consecutive entries with equal text, stable-sort
   * by the hash of the group.
   */
  function Aggregate(input: seq<CommandInfo>, hash: string -> int): seq<CommandInfo> {
    var visible := Filter(input, HiddenOf, false);
    var byText := SortBy(visible, TextOf, TextLt);
    var unique := DedupBy(byText, TextOf);
    SortBy(unique, GroupHash(hash), IntLt)
  }

  /** `a` comes before `b` in the help list: lower group hash, or equal hash and lower text. */
  function HelpBefore(hash: string -> int, a: CommandInfo, b: CommandInfo): bool {
    || hash(a.text.group) < hash(b.text.group)
    || (hash(a.text.group) == hash(b.text.group) && TextLt(a.text, b.text))
  }

  /** `e` is the earliest entry of `input` that has its text. */
  ghost predicate IsFirstOfText(input: seq<CommandInfo>, e: CommandInfo) {
    var same := Filter(input, TextOf, e.text);
    same != [] && same[0] == e
  }

  /**
   * The list the popup should hold for `input`, stated without the sorts: every
   * entry is the first entry of `input` with its text and is not hidden; every
   * text of a non-hidden input entry is present; and the entries are strictly
   * ordered by `HelpBefore`.
   */
  ghost predicate IsHelpList(input: seq<CommandInfo>, hash: string -> int, r: seq<CommandInfo>) {
    && (forall i :: 0 <= i < |r| ==> !r[i].text.hideHelp && IsFirstOfText(input, r[i]))
    && (forall e :: e in input && !e.text.hideHelp ==> exists i :: 0 <= i < |r| && r[i].text == e.text)
    && (forall i, j :: 0 <= i < j < |r| ==> HelpBefore(hash, r[i], r[j]))
  }

  /** The texts of the entries of `s`. */
  ghost function Texts(s: seq<CommandInfo>): set<CommandText> {
    set c | c in s :: c.text
  }

  lemma {:induction false} VisibleFilter(s: seq<CommandInfo>, t: CommandText)
    ensures Filter(Filter(s, HiddenOf, false), TextOf, t) == if t.hideHelp then [] else Filter(s, TextOf, t)
    decreases |s|
  {
    if s != [] {
      VisibleFilter(s[1..], t);
      var head := if HiddenOf(s[0]) == false then [s[0]] else [];
      assert Filter(s, HiddenOf, false) == head + Filter(s[1..], HiddenOf, false);
      FilterAppend(head, Filter(s[1..], HiddenOf, false), TextOf, t);
    }
  }

  /** The entries of `set_cmds`' result are strictly ordered by group hash, then text. */
  lemma AggregateOrdered(input: seq<CommandInfo>, hash: string -> int)
    ensures var r := Aggregate(input, hash);
      forall i, j :: 0 <= i < j < |r| ==> HelpBefore(hash, r[i], r[j])
  {
    var visible := Filter(input, HiddenOf, false);
    var byText := SortBy(visible, TextOf, TextLt);
    var unique := DedupBy(byText, TextOf);
    var r := SortBy(unique, GroupHash(hash), IntLt);
    TextLtIsStrictTotalOrder();
    IntLtIsStrictTotalOrder();
    SortBySorted(visible, TextOf, TextLt);
    DedupStrictlySorted(byText, TextOf, TextLt);
    assert Chained(unique, TextBefore);
    SortByLex(unique, GroupHash(hash), IntLt, TextBefore);
    forall i, j | 0 <= i < j < |r| ensures HelpBefore(hash, r[i], r[j]) {
      assert GroupHash(hash)(r[i]) == hash(r[i].text.group);
      assert GroupHash(hash)(r[j]) == hash(r[j].text.group);
    }
  }

  /**
   * The entries `set_cmds` keeps with the text `t`: none when `t` is hidden
   * from help, otherwise the first input entry with that text, if any.
   */
  lemma AggregateText(input: seq<CommandInfo>, t: CommandText)
    ensures Filter(DedupBy(SortBy(Filter(input, HiddenOf, false), TextOf, TextLt), TextOf), TextOf, t)
         == if t.hideHelp then [] else FirstOnly(Filter(input, TextOf, t))
  {
    var visible := Filter(input, HiddenOf, false);
    var byText := SortBy(visible, TextOf, TextLt);
    TextLtIsStrictTotalOrder();
    SortBySorted(visible, TextOf, TextLt);
    DedupFirst(byText, TextOf, TextLt, t);
    SortByStable(visible, TextOf, TextLt, t);
    VisibleFilter(input, t);
  }

  /** An entry that survives the deduplication is not hidden and is the first input entry with its text. */
  lemma UniqueEntry(input: seq<CommandInfo>, y: CommandInfo)
    requires y in DedupBy(SortBy(Filter(input, HiddenOf, false), TextOf, TextLt), TextOf)
    ensures !y.text.hideHelp && IsFirstOfText(input, y)
  {
    var visible := Filter(input, HiddenOf, false);
    var unique := DedupBy(SortBy(visible, TextOf, TextLt), TextOf);
    var t := y.text;
    assert y in visible by {
      SortByMembers(visible, TextOf, TextLt, y);
    }
    assert !t.hideHelp;
    assert y in Filter(unique, TextOf, t) by {
      FilterContains(unique, TextOf, y);
    }
    assert Filter(unique, TextOf, t) == FirstOnly(Filter(input, TextOf, t)) by {
      AggregateText(input, t);
    }
  }

  /** An entry `set_cmds` keeps is not hidden and is the first input entry with its text. */
  lemma AggregateEntry(input: seq<CommandInfo>, hash: string -> int, y: CommandInfo)
    requires y in Aggregate(input, hash)
    ensures !y.text.hideHelp && IsFirstOfText(input, y)
  {
    var unique := DedupBy(SortBy(Filter(input, HiddenOf, false), TextOf, TextLt), TextOf);
    assert y in unique by {
      SortByMembers(unique, GroupHash(hash), IntLt, y);
    }
    UniqueEntry(input, y);
  }

  /** Every entry `set_cmds` keeps is not hidden and is the first input entry with its text. */
  lemma AggregateKeepsFirst(input: seq<CommandInfo>, hash: string -> int)
    ensures var r := Aggregate(input, hash);
      forall i :: 0 <= i < |r| ==> !r[i].text.hideHelp && IsFirstOfText(input, r[i])
  {
    var r := Aggregate(input, hash);
    forall i | 0 <= i < |r| ensures !r[i].text.hideHelp && IsFirstOfText(input, r[i]) {
      AggregateEntry(input, hash, r[i]);
    }
  }

  /** Every text of a non-hidden input entry survives `set_cmds`. */
  lemma AggregateComplete(input: seq<CommandInfo>, hash: string -> int)
    ensures var r := Aggregate(input, hash);
      forall e :: e in input && !e.text.hideHelp ==> exists i :: 0 <= i < |r| && r[i].text == e.text
  {
    forall e | e in input && !e.text.hideHelp
      ensures exists i :: 0 <= i < |Aggregate(input, hash)| && Aggregate(input, hash)[i].text == e.text
    {
      AggregateKeepsText(input, hash, e);
    }
  }

  lemma AggregateKeepsText(input: seq<CommandInfo>, hash: string -> int, e: CommandInfo)
    requires e in input && !e.text.hideHelp
    ensures exists i :: 0 <= i < |Aggregate(input, hash)| && Aggregate(input, hash)[i].text == e.text
  {
    var unique := DedupBy(SortBy(Filter(input, HiddenOf, false), TextOf, TextLt), TextOf);
    var r := Aggregate(input, hash);
    var t := e.text;
    assert Filter(input, TextOf, t) != [] by {
      FilterContains(input, TextOf, e);
    }
    var f := Filter(input, TextOf, t)[0];
    assert f in unique && f.text == t by {
      AggregateText(input, t);
      assert f in Filter(unique, TextOf, t);
    }
    assert f in r by {
      SortByMembers(unique, GroupHash(hash), IntLt, f);
    }
    var i :| 0 <= i < |r| && r[i] == f;
  }

  /** `set_cmds` produces the help list of its input. */
  lemma AggregateIsHelpList(input: seq<CommandInfo>, hash: string -> int)
    ensures IsHelpList(input, hash, Aggregate(input, hash))
  {
    AggregateOrdered(input, hash);
    AggregateKeepsFirst(input, hash);
    AggregateComplete(input, hash);
  }

  /** No text occurs twice in a help list. */
  lemma HelpListDistinct(input: seq<CommandInfo>, hash: string -> int, r: seq<CommandInfo>)
    requires IsHelpList(input, hash, r)
    ensures forall i, j :: 0 <= i < j < |r| ==> r[i].text != r[j].text
  {
    TextLtIsStrictTotalOrder();
  }

  /** The texts of a help list are exactly the texts of the non-hidden input entries. */
  lemma HelpListTexts(input: seq<CommandInfo>, hash: string -> int, r: seq<CommandInfo>)
    requires IsHelpList(input, hash, r)
    ensures Texts(r) == set e | e in input && !e.text.hideHelp :: e.text
  {
    forall c | c in r ensures c in input && !c.text.hideHelp {
      var i :| 0 <= i < |r| && r[i] == c;
      assert c in Filter(input, TextOf, c.text);
    }
  }

  /** A help list is determined by its input: `HelpBefore` orders it strictly and its entries are fixed. */
  lemma HelpListUnique(input: seq<CommandInfo>, hash: string -> int, r1: seq<CommandInfo>, r2: seq<CommandInfo>)
    requires IsHelpList(input, hash, r1) && IsHelpList(input, hash, r2)
    ensures r1 == r2
  {
    var before := (a: CommandInfo, b: CommandInfo) => HelpBefore(hash, a, b);
    TextLtIsStrictTotalOrder();
    assert StrictOrder(before);
    assert Chained(r1, before) && Chained(r2, before);
    forall x ensures x in r1 ==> x in r2 {
      if x in r1 {
        MemberOfOther(input, hash, r1, r2, x);
      }
    }
    forall x ensures x in r2 ==> x in r1 {
      if x in r2 {
        MemberOfOther(input, hash, r2, r1, x);
      }
    }
    ChainedUnique(r1, r2, before);
  }

  lemma MemberOfOther(input: seq<CommandInfo>, hash: string -> int, r1: seq<CommandInfo>, r2: seq<CommandInfo>, x: CommandInfo)
    requires IsHelpList(input, hash, r1) && IsHelpList(input, hash, r2) && x in r1
    ensures x in r2
  {
    var i :| 0 <= i < |r1| && r1[i] == x;
    assert x in Filter(input, TextOf, x.text);
    var j :| 0 <= j < |r2| && r2[j].text == x.text;
  }

  /** Aggregating an aggregated list changes nothing. */
  lemma AggregateIdempotent(input: seq<CommandInfo>, hash: string -> int)
    ensures Aggregate(Aggregate(input, hash), hash) == Aggregate(input, hash)
  {
    var r := Aggregate(input, hash);
    AggregateIsHelpList(input, hash);
    HelpListDistinct(input, hash, r);
    forall i | 0 <= i < |r| ensures IsFirstOfText(r, r[i]) {
      FilterFirst(r, TextOf, i);
    }
    assert IsHelpList(r, hash, r);
    AggregateIsHelpList(r, hash);
    HelpListUnique(r, hash, r, Aggregate(r, hash));
  }

  /** The texts of the entries of `r`, in order. */
  function TextSeq(r: seq<CommandInfo>): (ts: seq<CommandText>)
    ensures |ts| == |r| && forall i :: 0 <= i < |r| ==> ts[i] == r[i].text
  {
    seq(|r|, i requires 0 <= i < |r| => r[i].text)
  }

  /** `HelpBefore` on texts alone: lower group hash, or equal hash and lower text. */
  function TextHelpBefore(hash: string -> int): (CommandText, CommandText) -> bool {
    (s: CommandText, t: CommandText) => hash(s.group) < hash(t.group) || (hash(s.group) == hash(t.group) && TextLt(s, t))
  }

  /** The texts of a help list are chained by `HelpBefore` on texts. */
  lemma HelpListTextsChained(input: seq<CommandInfo>, hash: string -> int, r: seq<CommandInfo>)
    requires IsHelpList(input, hash, r)
    ensures Chained(TextSeq(r), TextHelpBefore(hash))
  {
    var ts := TextSeq(r);
    forall i, j | 0 <= i < j < |ts| ensures TextHelpBefore(hash)(ts[i], ts[j]) {
      assert HelpBefore(hash, r[i], r[j]);
    }
  }

  /** The texts of a help list are the visible texts of the input. */
  lemma HelpListTextsVisible(input: seq<CommandInfo>, hash: string -> int, r: seq<CommandInfo>)
    requires IsHelpList(input, hash, r)
    ensures forall t :: t in TextSeq(r) <==> exists e :: e in input && !e.text.hideHelp && e.text == t
  {
    var ts := TextSeq(r);
    HelpListTexts(input, hash, r);
    forall t ensures t in ts <==> exists e :: e in input && !e.text.hideHelp && e.text == t {
      if t in ts {
        var i :| 0 <= i < |ts| && ts[i] == t;
        assert r[i] in r;
        assert t in Texts(r);
      }
      if exists e :: e in input && !e.text.hideHelp && e.text == t {
        var e :| e in input && !e.text.hideHelp && e.text == t;
        assert t in Texts(r);
        var c :| c in r && c.text == t;
        var i :| 0 <= i < |r| && r[i] == c;
        assert ts[i] == t;
      }
    }
  }

  /**
   * The texts `set_cmds` keeps, and their order, do not depend on the order in
   * which the components reported their commands.
   */
  lemma AggregateTextsIgnoreBatchOrder(a: seq<CommandInfo>, b: seq<CommandInfo>, hash: string -> int)
    requires multiset(a) == multiset(b)
    ensures TextSeq(Aggregate(a, hash)) == TextSeq(Aggregate(b, hash))
  {
    var ta, tb := TextSeq(Aggregate(a, hash)), TextSeq(Aggregate(b, hash));
    AggregateIsHelpList(a, hash);
    AggregateIsHelpList(b, hash);
    HelpListTextsChained(a, hash, Aggregate(a, hash));
    HelpListTextsChained(b, hash, Aggregate(b, hash));
    HelpListTextsVisible(a, hash, Aggregate(a, hash));
    HelpListTextsVisible(b, hash, Aggregate(b, hash));
    forall e ensures e in a <==> e in b {
      assert e in a <==> e in multiset(a);
      assert e in b <==> e in multiset(b);
    }
    TextLtIsStrictTotalOrder();
    assert StrictOrder(TextHelpBefore(hash));
    ChainedUnique(ta, tb, TextHelpBefore(hash));
  }

  /** When `hash` tells apart the groups present, every group forms one contiguous block. */
  lemma AggregateGroupsContiguous(input: seq<CommandInfo>, hash: string -> int)
    requires forall a, b :: a in input && b in input && hash(a.text.group) == hash(b.text.group) ==> a.text.group == b.text.group
    ensures var r := Aggregate(input, hash);
      forall i, j, k :: 0 <= i < j < k < |r| && r[i].text.group == r[k].text.group ==> r[j].text.group == r[i].text.group
  {
    var r := Aggregate(input, hash);
    AggregateIsHelpList(input, hash);
    HelpListTexts(input, hash, r);
    forall i, j, k | 0 <= i < j < k < |r| && r[i].text.group == r[k].text.group ensures r[j].text.group == r[i].text.group {
      assert HelpBefore(hash, r[i], r[j]) && HelpBefore(hash, r[j], r[k]);
      assert r[i] in r && r[j] in r;
      assert r[i] in input && r[j] in input;
    }
  }
}
