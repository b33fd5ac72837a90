/** What renderMarkdown promises about a reply as a whole and line by line:
    the grouping of lines into maximal list runs, where every list line ends
    up, how many elements a reply yields, and the edge cases of headings,
    titles and list items under JavaScript's trim and slice. */
module MarkdownProperties {
  import opened Text
  import opened Markdown

  // =====================================================================
  // One line at a time

  /** A heading line yields one heading whose text is the trimmed line
      after its marker, and since the line is trimmed that text is never empty. */
  lemma {:induction false} HeadingText(raw: string)
    ensures var l := LineOf(raw);
      l.kind == Heading2 ==> LineBlocks(l) == [H2(l.text[3..])] && l.text[3..] != []
    ensures var l := LineOf(raw);
      l.kind == Heading1 ==> LineBlocks(l) == [H1(l.text[2..])] && l.text[2..] != []
  {
    var t := Trim(raw);
    if Classify(t) == Heading2 {
      assert t[2] == ' ';
      assert |t| > 3;
      assert Slice(t, 3, |t|) == t[3..];
    } else if Classify(t) == Heading1 {
      assert t[1] == ' ';
      assert |t| > 2;
      assert Slice(t, 2, |t|) == t[2..];
    }
  }

  /** A list line's item is the trimmed line after `* ` or `- `, and it is never empty. */
  lemma {:induction false} ListItemText(raw: string)
    requires LineOf(raw).kind == ListItem
    ensures ItemText(LineOf(raw).text) == LineOf(raw).text[2..] != []
  {
    var t := Trim(raw);
    assert t[1] == ' ';
    assert |t| > 2;
  }

  /** A title keeps its inner text as it is, without formatting, and that text holds no `**`. */
  lemma {:induction false} TitleText(raw: string)
    requires LineOf(raw).kind == BoldTitle
    ensures var t := LineOf(raw).text;
      LineBlocks(LineOf(raw)) == [Title(Slice(t, 2, -2))] && !Includes(Slice(t, 2, -2), "**")
  {
  }

  /** Under slice's clamping, `**` and `***` are titles with empty text. */
  lemma {:induction false} ShortTitles()
    ensures LineBlocks(LineOf("**")) == [Title("")]
    ensures LineBlocks(LineOf("***")) == [Title("")]
  {
    TrimAround([], "**", []);
    TrimAround([], "***", []);
    assert [] + "**" + [] == "**" && [] + "***" + [] == "***";
    assert Slice("**", 2, -2) == [];
    assert Slice("***", 2, -2) == [];
    assert !Includes([], "**");
    assert "**"[..2] == "**" && "***"[..2] == "**" && "***"[1..] == "**";
    assert !StartsWith("**", "## ") && !StartsWith("**", "# ");
    assert !StartsWith("***", "## ") && !StartsWith("***", "# ");
    assert Classify("**") == BoldTitle;
    assert Classify("***") == BoldTitle;
  }

  // =====================================================================
  // Groups: maximal runs of list lines and single other lines

  predicate GroupOk(g: Group) {
    match g
    case Run(ls) => ls != [] && AllListLines(ls)
    case Single(t) => t.kind != ListItem
  }

  /** Every group is well formed and every run is followed by a single line, so runs are maximal. */
  predicate WellGrouped(gs: seq<Group>) {
    forall k :: 0 <= k < |gs| ==> GroupOk(gs[k]) && (k + 1 < |gs| && gs[k].Run? ==> gs[k + 1].Single?)
  }

  lemma {:induction false} GroupsCons(ts: seq<Line>)
    requires ts != []
    ensures Groups(ts) == [HeadGroup(ts)] + Groups(ts[HeadLen(ts)..])
    ensures ts[..HeadLen(ts)] == GroupLines(HeadGroup(ts))
    ensures GroupOk(HeadGroup(ts))
    ensures HeadGroup(ts).Run? ==> ts[HeadLen(ts)..] == [] || ts[HeadLen(ts)].kind != ListItem
  {
    var n := ListRun(ts);
    if n > 0 {
      assert AllListLines(ts[..n]) by {
        forall k | 0 <= k < n ensures ts[..n][k].kind == ListItem {
          assert ts[..n][k] == ts[k];
        }
      }
    } else {
      assert ts[..1] == [ts[0]];
    }
  }

  /** Every line of the reply lands in exactly one group, in order. */
  lemma {:induction false} UngroupGroups(ts: seq<Line>)
    ensures Ungroup(Groups(ts)) == ts
    decreases |ts|
  {
    if ts != [] {
      var h := HeadLen(ts);
      var front, rest := ts[..h], ts[h..];
      UngroupHead(ts, h, front, rest);
      UngroupGroups(rest);
    }
  }

  lemma {:induction false} UngroupHead(ts: seq<Line>, h: nat, front: seq<Line>, rest: seq<Line>)
    requires ts != [] && h == HeadLen(ts) && front == ts[..h] && rest == ts[h..]
    ensures Ungroup(Groups(ts)) == front + Ungroup(Groups(rest))
    ensures ts == front + rest
  {
    var g, gs := HeadGroup(ts), Groups(rest);
    GroupsCons(ts);
    UngroupCons(g, gs);
    Rejoined(ts, h, front, rest);
  }

  /** Cutting a sequence at any point and joining the two halves gives it back. */
  lemma {:induction false} Rejoined<T>(ts: seq<T>, h: nat, front: seq<T>, rest: seq<T>)
    requires h <= |ts| && front == ts[..h] && rest == ts[h..]
    ensures ts == front + rest
  {
    assert ts == ts[..h] + ts[h..];
  }

  lemma {:induction false} UngroupCons(g: Group, gs: seq<Group>)
    ensures Ungroup([g] + gs) == GroupLines(g) + Ungroup(gs)
  {
    assert ([g] + gs)[0] == g && ([g] + gs)[1..] == gs;
  }

  /** Grouping takes maximal runs: no run is empty, mixed, or next to another run. */
  lemma {:induction false} GroupsMaximal(ts: seq<Line>)
    ensures WellGrouped(Groups(ts))
    decreases |ts|
  {
    if ts != [] {
      var h := HeadLen(ts);
      var rest := ts[h..];
      GroupsCons(ts);
      GroupsMaximal(rest);
      var gs := Groups(ts);
      assert gs[1..] == Groups(rest);
      if rest != [] {
        GroupsCons(rest);
        if HeadGroup(ts).Run? {
          assert ListRun(rest) == 0;
          assert gs[1] == HeadGroup(rest);
        }
      }
      forall k | 0 <= k < |gs|
        ensures GroupOk(gs[k]) && (k + 1 < |gs| && gs[k].Run? ==> gs[k + 1].Single?)
      {
        if k > 0 { assert gs[k] == Groups(rest)[k - 1]; }
        if k + 1 < |gs| && k > 0 { assert gs[k + 1] == Groups(rest)[k]; }
      }
    }
  }

  /** The first group of a reply is separate from the rest. */
  lemma {:induction false} HeadSeparate(ts: seq<Line>)
    requires ts != []
    ensures ts == ts[..HeadLen(ts)] + ts[HeadLen(ts)..]
    ensures SeparateRuns(ts[..HeadLen(ts)], ts[HeadLen(ts)..])
  {
    var h := HeadLen(ts);
    assert ts == ts[..h] + ts[h..];
    GroupsCons(ts);
    if HeadGroup(ts).Single? {
      assert h == 1;
      assert ts[..h][h - 1] == ts[0];
    } else if h < |ts| {
      assert ts[h..][0] == ts[h];
    }
  }

  // =====================================================================
  // Every list line in exactly one list, in input order

  /** The lines of `ts` that are list lines, in order. */
  function ListLines(ts: seq<Line>): seq<Line>
    decreases |ts|
  {
    if ts == [] then []
    else (if ts[0].kind == ListItem then [ts[0]] else []) + ListLines(ts[1..])
  }

  /** The items of all list elements, in order. */
  function ListedItems(bs: seq<Block>): seq<Inline>
    decreases |bs|
  {
    if bs == [] then []
    else (if bs[0].List? then bs[0].items else []) + ListedItems(bs[1..])
  }

  lemma {:induction false} ListLinesAppend(a: seq<Line>, b: seq<Line>)
    ensures ListLines(a + b) == ListLines(a) + ListLines(b)
    decreases |a|
  {
    if a == [] {
      assert a + b == b;
    } else {
      var h := if a[0].kind == ListItem then [a[0]] else [];
      assert (a + b)[0] == a[0] && (a + b)[1..] == a[1..] + b;
      ListLinesAppend(a[1..], b);
      assert ListLines(a + b) == h + ListLines(a[1..] + b);
      assert ListLines(a) == h + ListLines(a[1..]);
    }
  }

  lemma {:induction false} ListLinesAllList(ts: seq<Line>)
    requires AllListLines(ts)
    ensures ListLines(ts) == ts
    decreases |ts|
  {
    if ts != [] {
      ListLinesAllList(ts[1..]);
      assert ts == [ts[0]] + ts[1..];
    }
  }

  lemma {:induction false} ListedItemsAppend(a: seq<Block>, b: seq<Block>)
    ensures ListedItems(a + b) == ListedItems(a) + ListedItems(b)
    decreases |a|
  {
    if a == [] {
      assert a + b == b;
    } else {
      var h := if a[0].List? then a[0].items else [];
      assert (a + b)[0] == a[0] && (a + b)[1..] == a[1..] + b;
      ListedItemsAppend(a[1..], b);
      assert ListedItems(a + b) == h + ListedItems(a[1..] + b);
      assert ListedItems(a) == h + ListedItems(a[1..]);
    }
  }

  lemma {:induction false} ItemTextsAppend(a: seq<Line>, b: seq<Line>)
    ensures ItemTexts(a + b) == ItemTexts(a) + ItemTexts(b)
  {
    var l, r := ItemTexts(a + b), ItemTexts(a) + ItemTexts(b);
    forall k | 0 <= k < |l| ensures l[k] == r[k] {
      if k < |a| { assert (a + b)[k] == a[k]; } else { assert (a + b)[k] == b[k - |a|]; }
    }
  }

  lemma {:induction false} FormattedAppend(a: seq<string>, b: seq<string>)
    ensures Formatted(a + b) == Formatted(a) + Formatted(b)
  {
    var l, r := Formatted(a + b), Formatted(a) + Formatted(b);
    forall k | 0 <= k < |l| ensures l[k] == r[k] {
      if k < |a| { assert (a + b)[k] == a[k]; } else { assert (a + b)[k] == b[k - |a|]; }
    }
  }

  /** The elements of the first group, followed by those of the rest. */
  lemma {:induction false} LayoutCons(ts: seq<Line>)
    requires ts != []
    ensures Layout(ts) == GroupBlocks(HeadGroup(ts)) + Layout(ts[HeadLen(ts)..])
  {
    GroupsCons(ts);
  }

  /** The first group's list items are the formatted texts of its list lines. */
  lemma {:induction false} HeadListedItems(ts: seq<Line>)
    requires ts != []
    ensures ListedItems(GroupBlocks(HeadGroup(ts))) == Formatted(ItemTexts(ListLines(ts[..HeadLen(ts)])))
  {
    var head := ts[..HeadLen(ts)];
    var blocks := GroupBlocks(HeadGroup(ts));
    GroupsCons(ts);
    match HeadGroup(ts)
    case Run(ls) =>
      ListLinesAllList(head);
      assert blocks == [List(Formatted(ItemTexts(head)))];
      assert ListedItems(blocks) == Formatted(ItemTexts(head)) + ListedItems([]);
    case Single(t) =>
      assert head == [t];
      assert ListLines(head) == [] + ListLines([]);
      if blocks != [] {
        assert blocks[1..] == [];
      }
  }

  /** Every list line lands in exactly one list element, in input order, as its formatted item text. */
  lemma {:induction false} ListItemsInOrder(ts: seq<Line>)
    ensures ListedItems(Layout(ts)) == Formatted(ItemTexts(ListLines(ts)))
    decreases |ts|
  {
    if ts != [] {
      var h := HeadLen(ts);
      var head, rest := ts[..h], ts[h..];
      var blocks := GroupBlocks(HeadGroup(ts));
      assert ts == head + rest;
      calc {
        ListedItems(Layout(ts));
        { LayoutCons(ts); }
        ListedItems(blocks + Layout(rest));
        { ListedItemsAppend(blocks, Layout(rest)); }
        ListedItems(blocks) + ListedItems(Layout(rest));
        { HeadListedItems(ts); ListItemsInOrder(rest); }
        Formatted(ItemTexts(ListLines(head))) + Formatted(ItemTexts(ListLines(rest)));
        { FormattedAppend(ItemTexts(ListLines(head)), ItemTexts(ListLines(rest)));
          ItemTextsAppend(ListLines(head), ListLines(rest)); }
        Formatted(ItemTexts(ListLines(head) + ListLines(rest)));
        { ListLinesAppend(head, rest); }
        Formatted(ItemTexts(ListLines(ts)));
      }
    }
  }

  /** The first group yields no empty list element. */
  lemma {:induction false} HeadNoEmptyList(ts: seq<Line>)
    requires ts != []
    ensures forall k :: 0 <= k < |GroupBlocks(HeadGroup(ts))| && GroupBlocks(HeadGroup(ts))[k].List? ==>
      GroupBlocks(HeadGroup(ts))[k].items != []
  {
    GroupsCons(ts);
  }

  /** No list element is empty. */
  lemma {:induction false} NoEmptyList(ts: seq<Line>)
    ensures forall k :: 0 <= k < |Layout(ts)| && Layout(ts)[k].List? ==> Layout(ts)[k].items != []
    decreases |ts|
  {
    if ts != [] {
      var h := HeadLen(ts);
      var blocks := GroupBlocks(HeadGroup(ts));
      LayoutCons(ts);
      HeadNoEmptyList(ts);
      NoEmptyList(ts[h..]);
      var all := Layout(ts);
      forall k | 0 <= k < |all| && all[k].List? ensures all[k].items != [] {
        if k < |blocks| {
          assert all[k] == blocks[k];
        } else {
          assert all[k] == Layout(ts[h..])[k - |blocks|];
        }
      }
    }
  }

  // =====================================================================
  // How many elements a reply yields

  /** The number of lines that are neither blank nor list lines. */
  function Shown(ts: seq<Line>): nat
    decreases |ts|
  {
    if ts == [] then 0
    else (if ts[0].kind in {Blank, ListItem} then 0 else 1) + Shown(ts[1..])
  }

  /** Line `k` is a list line that follows no list line: a run of list lines starts there. */
  predicate StartsRun(ts: seq<Line>, k: nat)
    requires k < |ts|
  {
    ts[k].kind == ListItem && (k == 0 || ts[k - 1].kind != ListItem)
  }

  /** The number of maximal runs of list lines, counted where each starts. */
  function RunCount(ts: seq<Line>): nat
    decreases |ts|
  {
    if ts == [] then 0
    else RunCount(ts[..|ts| - 1]) + (if StartsRun(ts, |ts| - 1) then 1 else 0)
  }

  lemma {:induction false} ShownAppend(a: seq<Line>, b: seq<Line>)
    ensures Shown(a + b) == Shown(a) + Shown(b)
    decreases |a|
  {
    if a == [] {
      assert a + b == b;
    } else {
      assert (a + b)[1..] == a[1..] + b;
      ShownAppend(a[1..], b);
    }
  }

  lemma {:induction false} RunCountAppend(a: seq<Line>, b: seq<Line>)
    requires SeparateRuns(a, b)
    ensures RunCount(a + b) == RunCount(a) + RunCount(b)
    decreases |b|
  {
    if b == [] {
      assert a + b == a;
    } else {
      var ab := a + b;
      var b' := b[..|b| - 1];
      assert ab[..|ab| - 1] == a + b';
      SeparateInit(a, b, b');
      RunCountAppend(a, b');
      StartsRunLast(a, b, ab);
    }
  }

  lemma {:induction false} SeparateInit(a: seq<Line>, b: seq<Line>, b': seq<Line>)
    requires b != [] && b' == b[..|b| - 1] && SeparateRuns(a, b)
    ensures SeparateRuns(a, b')
  {
    if b' != [] {
      assert b'[0] == b[0];
    }
  }

  /** Where runs are separate, the last line of `a + b` starts a run exactly when it does in `b`. */
  lemma {:induction false} StartsRunLast(a: seq<Line>, b: seq<Line>, ab: seq<Line>)
    requires b != [] && ab == a + b && SeparateRuns(a, b)
    ensures StartsRun(ab, |ab| - 1) == StartsRun(b, |b| - 1)
  {
    assert ab[|ab| - 1] == b[|b| - 1];
    if |b| > 1 {
      assert ab[|ab| - 2] == b[|b| - 2];
    } else if a != [] {
      assert ab[|ab| - 2] == a[|a| - 1];
    }
  }

  /** A non-empty run of list lines is one run. */
  lemma {:induction false} RunCountAllList(ts: seq<Line>)
    requires ts != [] && AllListLines(ts)
    ensures RunCount(ts) == 1
    decreases |ts|
  {
    var init := ts[..|ts| - 1];
    if init == [] {
      assert RunCount(init) == 0;
    } else {
      RunCountAllList(init);
    }
  }

  lemma {:induction false} ShownAllList(ts: seq<Line>)
    requires AllListLines(ts)
    ensures Shown(ts) == 0
    decreases |ts|
  {
    if ts != [] {
      ShownAllList(ts[1..]);
    }
  }

  /** A reply yields one element per line that is neither blank nor a list
      line, and one list per maximal run of list lines. */
  lemma {:induction false} LayoutCount(ts: seq<Line>)
    ensures |Layout(ts)| == Shown(ts) + RunCount(ts)
    decreases |ts|
  {
    if ts != [] {
      var h := HeadLen(ts);
      var head, rest := ts[..h], ts[h..];
      HeadSeparate(ts);
      GroupsCons(ts);
      LayoutCons(ts);
      LayoutCount(rest);
      ShownAppend(head, rest);
      RunCountAppend(head, rest);
      match HeadGroup(ts)
      case Run(ls) =>
        ShownAllList(head);
        RunCountAllList(head);
      case Single(t) =>
        assert head == [t];
        assert Shown(head) == Shown([t][1..]) + (if t.kind in {Blank, ListItem} then 0 else 1);
        assert [t][..0] == [];
        assert RunCount(head) == 0;
    }
  }

  // =====================================================================
  // A blank line separates a reply into parts rendered on their own

  lemma {:induction false} LinesOfAppend(a: seq<string>, b: seq<string>)
    ensures LinesOf(a + b) == LinesOf(a) + LinesOf(b)
  {
    var l, r := LinesOf(a + b), LinesOf(a) + LinesOf(b);
    forall k | 0 <= k < |l| ensures l[k] == r[k] {
      if k < |a| { assert (a + b)[k] == a[k]; } else { assert (a + b)[k] == b[k - |a|]; }
    }
  }

  /** An empty line between two texts is an empty piece between their pieces. */
  lemma {:induction false} SplitBlankSeparated(x: string, y: string)
    ensures SplitLines(x + "\n\n" + y) == SplitLines(x) + ([[]] + SplitLines(y))
  {
    assert x + "\n\n" + y == x + "\n" + ([] + "\n" + y);
    SplitLinesAppend(x, [] + "\n" + y);
    SplitLinesAppend([], y);
  }

  lemma {:induction false} LinesBlankSeparated(x: string, y: string)
    ensures LinesOf(SplitLines(x + "\n\n" + y)) == LinesOf(SplitLines(x)) + ([Line(Blank, [])] + LinesOf(SplitLines(y)))
  {
    SplitBlankSeparated(x, y);
    LinesOfAppend(SplitLines(x), [[]] + SplitLines(y));
    LinesOfAppend([[]], SplitLines(y));
    LinesOfBlank();
  }

  lemma {:induction false} LinesOfBlank()
    ensures LinesOf([[]]) == [Line(Blank, [])]
  {
    assert LineOf([]) == Line(Blank, []);
  }

  /** A blank line between two runs of lines adds no element and ends any list. */
  lemma {:induction false} LayoutBlankSeparated(xs: seq<Line>, ys: seq<Line>)
    ensures Layout(xs + ([Line(Blank, [])] + ys)) == Layout(xs) + Layout(ys)
  {
    var tail := [Line(Blank, [])] + ys;
    assert tail[0] == Line(Blank, []);
    LayoutAppend(xs, tail);
    LayoutBlankCons(ys);
  }

  lemma {:induction false} LayoutBlankCons(ys: seq<Line>)
    ensures Layout([Line(Blank, [])] + ys) == Layout(ys)
  {
    var blank := Line(Blank, []);
    LayoutAppend([blank], ys);
    LayoutSingle(blank);
    assert LineBlocks(blank) == [];
  }

  /** Text joined by an empty line renders as the two parts rendered one after the other. */
  lemma {:induction false} RenderBlankSeparated(x: string, y: string)
    ensures Render(x + "\n\n" + y) == Render(x) + Render(y)
  {
    LinesBlankSeparated(x, y);
    LayoutBlankSeparated(LinesOf(SplitLines(x)), LinesOf(SplitLines(y)));
  }
}
