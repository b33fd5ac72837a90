/** The assistant view's line-oriented markdown renderer: `renderMarkdown`
    splits the reply into lines, trims each, classifies it, gathers runs of
    list lines into one list, and passes paragraph and list text through
    `formatInline`. The rendered output is modelled as Block values rather
    than markup. */
module Markdown {
  import opened Text

  // =====================================================================
  // formatInline

  /** The styles formatInline wraps around a matched span, in the order of its four passes. */
  datatype Style = StrongItalic | Strong | Emphasis | Code

  /** A piece of formatted inline text: a character of the original text, or
      an opening or closing tag that a substitution inserted. None of the
      inserted tags contains `*` or a backtick, so a tag is never a marker. */
  datatype Piece = Char(c: char) | Open(style: Style) | Close(style: Style)

  type Inline = seq<Piece>

  /** The marker that delimits a span of each style. */
  function Marker(st: Style): (m: string)
    ensures |m| > 0
  {
    match st
    case StrongItalic => "***"
    case Strong => "**"
    case Emphasis => "*"
    case Code => "`"
  }

  /** The characters a JavaScript regular expression's `.` does not match. */
  predicate IsLineTerminator(c: char) {
    c == '\n' || c == '\r' || c == '\U{2028}' || c == '\U{2029}'
  }

  /** Whether `.` matches this piece (an inserted tag is ordinary text there). */
  predicate Dot(p: Piece) {
    !(p.Char? && IsLineTerminator(p.c))
  }

  function Plain(s: string): (r: Inline)
    ensures |r| == |s|
    ensures forall k :: 0 <= k < |s| ==> r[k] == Char(s[k])
  {
    seq(|s|, k requires 0 <= k < |s| => Char(s[k]))
  }

  predicate MarkerAt(ps: Inline, m: string, i: int) {
    0 <= i && i + |m| <= |ps| && ps[i..i + |m|] == Plain(m)
  }

  /** `.` matches every piece from `lo` up to `hi`. */
  predicate DotsBetween(ps: Inline, lo: int, hi: int)
    requires 0 <= lo <= hi <= |ps|
  {
    forall b :: lo <= b < hi ==> Dot(ps[b])
  }

  /** The non-greedy `(.*?)` followed by the closing marker: the first
      position at or after `j` where the marker occurs, provided `.` matches
      everything in between. */
  function FindClose(ps: Inline, m: string, j: nat): (r: Option<nat>)
    requires j <= |ps|
    decreases |ps| - j
    ensures r.Some? ==> j <= r.value && MarkerAt(ps, m, r.value) && DotsBetween(ps, j, r.value)
    ensures r.Some? ==> forall k {:trigger MarkerAt(ps, m, k)} :: j <= k < r.value ==> !MarkerAt(ps, m, k)
    ensures r.None? ==> forall k {:trigger MarkerAt(ps, m, k)} :: j <= k <= |ps| && MarkerAt(ps, m, k) ==> !DotsBetween(ps, j, k)
  {
    if MarkerAt(ps, m, j) then Some(j)
    else if j == |ps| || !Dot(ps[j]) then None
    else FindClose(ps, m, j + 1)
  }

  /** What one step of a global `replace(/M(.*?)M/g, ...)` emits at a position, and where the scan resumes. */
  datatype Step = Step(out: Inline, next: nat)

  /** The replacement for a matched span: the text between the markers inside the style's tags. */
  function Tagged(st: Style, inner: Inline): Inline {
    [Open(st)] + inner + [Close(st)]
  }

  /** At position `i`, for the marker M of `st`: a marker with a closing
      marker after it becomes a tagged span and the scan resumes after the
      closing marker; anything else is kept and the scan moves on by one. */
  function Scan(ps: Inline, st: Style, i: nat): (r: Step)
    requires i < |ps|
    ensures i < r.next <= |ps|
  {
    var m := Marker(st);
    if MarkerAt(ps, m, i) then
      match FindClose(ps, m, i + |m|)
      case Some(k) => Step(Tagged(st, ps[i + |m|..k]), k + |m|)
      case None => Step([ps[i]], i + 1)
    else Step([ps[i]], i + 1)
  }

  /** One global, non-greedy substitution for the marker of `st`, scanning from position `i`. */
  function Pass(ps: Inline, st: Style, i: nat): Inline
    requires i <= |ps|
    decreases |ps| - i
  {
    if i == |ps| then []
    else
      var step := Scan(ps, st, i);
      step.out + Pass(ps, st, step.next)
  }

  /** formatInline: the four substitutions, bold-italic, bold, italic, code, each on the result of the previous one. */
  function FormatInline(s: string): Inline {
    Pass(Pass(Pass(Pass(Plain(s), StrongItalic, 0), Strong, 0), Emphasis, 0), Code, 0)
  }

  /** The text a formatted line came from: every tag read back as its marker. */
  function Unformat(ps: Inline): string
    decreases |ps|
  {
    if ps == [] then []
    else
      var head := match ps[0]
        case Char(c) => [c]
        case Open(st) => Marker(st)
        case Close(st) => Marker(st);
      head + Unformat(ps[1..])
  }

  lemma {:induction false} UnformatAppend(a: Inline, b: Inline)
    ensures Unformat(a + b) == Unformat(a) + Unformat(b)
    decreases |a|
  {
    if a != [] {
      assert (a + b)[1..] == a[1..] + b;
      UnformatAppend(a[1..], b);
    } else {
      assert a + b == b;
    }
  }

  lemma {:induction false} UnformatPlain(s: string)
    ensures Unformat(Plain(s)) == s
    decreases |s|
  {
    if s != [] {
      assert Plain(s)[1..] == Plain(s[1..]);
      UnformatPlain(s[1..]);
      assert s == [s[0]] + s[1..];
    }
  }

  lemma {:induction false} UnformatFrom(ps: Inline, i: nat)
    requires i < |ps|
    ensures Unformat(ps[i..]) == Unformat([ps[i]]) + Unformat(ps[i + 1..])
  {
    assert ps[i..] == [ps[i]] + ps[i + 1..];
    UnformatAppend([ps[i]], ps[i + 1..]);
  }

  lemma {:induction false} UnformatSplit(ps: Inline, i: nat, j: nat)
    requires i <= j <= |ps|
    ensures Unformat(ps[i..]) == Unformat(ps[i..j]) + Unformat(ps[j..])
  {
    assert ps[i..] == ps[i..j] + ps[j..];
    UnformatAppend(ps[i..j], ps[j..]);
  }

  lemma {:induction false} SliceSplit(ps: Inline, a: nat, b: nat, c: nat)
    requires a <= b <= c <= |ps|
    ensures ps[a..c] == ps[a..b] + ps[b..c]
  {
  }

  lemma {:induction false} UnformatThree(a: Inline, b: Inline, c: Inline)
    ensures Unformat(a + b + c) == Unformat(a) + Unformat(b) + Unformat(c)
  {
    UnformatAppend(a + b, c);
    UnformatAppend(a, b);
  }

  lemma {:induction false} UnformatTags(st: Style)
    ensures Unformat([Open(st)]) == Marker(st) && Unformat([Close(st)]) == Marker(st)
  {
    assert [Open(st)][1..] == [] && [Close(st)][1..] == [];
  }

  /** A tagged span reads back as the same text between plain markers. */
  lemma {:induction false} SpanReads(st: Style, inner: Inline)
    ensures Unformat(Tagged(st, inner)) == Unformat(Plain(Marker(st)) + inner + Plain(Marker(st)))
  {
    var m := Marker(st);
    UnformatThree([Open(st)], inner, [Close(st)]);
    UnformatThree(Plain(m), inner, Plain(m));
    UnformatPlain(m);
    UnformatTags(st);
  }

  /** A matched span reads back as the markers around it and the text between them. */
  lemma {:induction false} UnformatSpan(ps: Inline, st: Style, i: nat, k: nat)
    requires i + |Marker(st)| <= k
    requires MarkerAt(ps, Marker(st), i) && MarkerAt(ps, Marker(st), k)
    ensures Unformat(Tagged(st, ps[i + |Marker(st)|..k])) == Unformat(ps[i..k + |Marker(st)|])
  {
    var m := Marker(st);
    var inner := ps[i + |m|..k];
    SliceSplit(ps, i, k, k + |m|);
    SliceSplit(ps, i, i + |m|, k);
    SpanReads(st, inner);
  }

  /** What a step emits reads back as the text it consumed. */
  lemma {:induction false} ScanUnformat(ps: Inline, st: Style, i: nat)
    requires i < |ps|
    ensures Unformat(Scan(ps, st, i).out) == Unformat(ps[i..Scan(ps, st, i).next])
  {
    var m := Marker(st);
    if MarkerAt(ps, m, i) && FindClose(ps, m, i + |m|).Some? {
      ScanSpanUnformat(ps, st, i);
    } else {
      ScanKeepUnformat(ps, st, i);
    }
  }

  lemma {:induction false} ScanSpanUnformat(ps: Inline, st: Style, i: nat)
    requires i < |ps|
    requires MarkerAt(ps, Marker(st), i) && FindClose(ps, Marker(st), i + |Marker(st)|).Some?
    ensures Unformat(Scan(ps, st, i).out) == Unformat(ps[i..Scan(ps, st, i).next])
  {
    var k := FindClose(ps, Marker(st), i + |Marker(st)|).value;
    ScanSpan(ps, st, i, k);
    UnformatSpan(ps, st, i, k);
  }

  /** A marker with a closing marker at `k` after it: the step emits the tagged span and resumes after the closing marker. */
  lemma {:induction false} ScanSpan(ps: Inline, st: Style, i: nat, k: nat)
    requires i < |ps|
    requires MarkerAt(ps, Marker(st), i) && FindClose(ps, Marker(st), i + |Marker(st)|) == Some(k)
    ensures i + |Marker(st)| <= k && MarkerAt(ps, Marker(st), k)
    ensures Scan(ps, st, i).out == Tagged(st, ps[i + |Marker(st)|..k])
    ensures Scan(ps, st, i).next == k + |Marker(st)|
  {
    var m := Marker(st);
    var j := i + |m|;
    var r := FindClose(ps, m, j);
    assert r.Some? && r.value == k;
    assert j <= k && MarkerAt(ps, m, k);
    assert Scan(ps, st, i) == Step(Tagged(st, ps[j..k]), k + |m|);
  }

  lemma {:induction false} ScanKeepUnformat(ps: Inline, st: Style, i: nat)
    requires i < |ps|
    requires !(MarkerAt(ps, Marker(st), i) && FindClose(ps, Marker(st), i + |Marker(st)|).Some?)
    ensures Unformat(Scan(ps, st, i).out) == Unformat(ps[i..Scan(ps, st, i).next])
  {
    assert Scan(ps, st, i) == Step([ps[i]], i + 1);
    assert ps[i..i + 1] == [ps[i]];
  }

  /** A pass only replaces matched markers by tags: reading the tags back as
      markers gives the text it scanned. */
  lemma {:induction false} PassUnformat(ps: Inline, st: Style, i: nat)
    requires i <= |ps|
    ensures Unformat(Pass(ps, st, i)) == Unformat(ps[i..])
    decreases |ps| - i
  {
    if i < |ps| {
      var step := Scan(ps, st, i);
      var rest := Pass(ps, st, step.next);
      assert Pass(ps, st, i) == step.out + rest;
      UnformatAppend(step.out, rest);
      ScanUnformat(ps, st, i);
      PassUnformat(ps, st, step.next);
      UnformatSplit(ps, i, step.next);
    }
  }

  /** formatInline keeps the text: reading every tag back as its marker gives the line it formatted. */
  lemma {:induction false} FormatInlineUnformat(s: string)
    ensures Unformat(FormatInline(s)) == s
  {
    var p0 := Plain(s);
    var p1 := Pass(p0, StrongItalic, 0);
    var p2 := Pass(p1, Strong, 0);
    var p3 := Pass(p2, Emphasis, 0);
    PassUnformat(p0, StrongItalic, 0);
    PassUnformat(p1, Strong, 0);
    PassUnformat(p2, Emphasis, 0);
    PassUnformat(p3, Code, 0);
    assert p0[0..] == p0 && p1[0..] == p1 && p2[0..] == p2 && p3[0..] == p3;
    UnformatPlain(s);
  }

  /** A marker at `i` begins with the marker's first character, and its second when it has one. */
  lemma {:induction false} MarkerHead(ps: Inline, m: string, i: int)
    requires |m| > 0
    ensures MarkerAt(ps, m, i) ==> ps[i] == Char(m[0]) && (|m| > 1 ==> ps[i + 1] == Char(m[1]))
  {
    if MarkerAt(ps, m, i) {
      assert ps[i] == ps[i..i + |m|][0];
      if |m| > 1 {
        assert ps[i + 1] == ps[i..i + |m|][1];
      }
    }
  }

  /** formatInline is the identity on text without `*` and without a backtick. */
  lemma {:induction false} FormatInlineIdentity(s: string)
    requires '*' !in s && '`' !in s
    ensures FormatInline(s) == Plain(s)
  {
    FormatInlineLone(s);
  }

  /** A marker character that occurs once has no partner: the pass leaves it as literal text. */
  /** With at most one copy of `x` from `i` on, the rest after `i` has at most one, and none when `ps[i]` is it. */
  lemma {:induction false} LoneSplit(ps: Inline, x: Piece, i: nat)
    requires i < |ps| && multiset(ps[i..])[x] <= 1
    ensures multiset(ps[i + 1..])[x] <= 1
    ensures ps[i] == x ==> x !in ps[i + 1..]
  {
    assert ps[i..] == [ps[i]] + ps[i + 1..];
  }

  /** A marker character with no copy after it neither opens a span nor is one. */
  lemma {:induction false} LoneScan(ps: Inline, st: Style, i: nat)
    requires i < |ps|
    requires ps[i] == Char(Marker(st)[0]) ==> Char(Marker(st)[0]) !in ps[i + 1..]
    ensures Scan(ps, st, i) == Step([ps[i]], i + 1)
  {
    var m := Marker(st);
    MarkerHead(ps, m, i);
    if MarkerAt(ps, m, i) {
      if |m| > 1 {
        assert false;
      } else if FindClose(ps, m, i + 1).Some? {
        assert false;
      }
    }
  }

  /** A position the scan keeps as it is, followed by a rest the pass keeps, is kept too. */
  lemma {:induction false} PassKeep(ps: Inline, st: Style, i: nat)
    requires i < |ps|
    requires Scan(ps, st, i) == Step([ps[i]], i + 1)
    requires Pass(ps, st, i + 1) == ps[i + 1..]
    ensures Pass(ps, st, i) == ps[i..]
  {
    assert ps[i..] == [ps[i]] + ps[i + 1..];
  }

  lemma {:induction false} PassLone(ps: Inline, st: Style, i: nat)
    requires i <= |ps|
    requires multiset(ps[i..])[Char(Marker(st)[0])] <= 1
    ensures Pass(ps, st, i) == ps[i..]
    decreases |ps| - i
  {
    if i < |ps| {
      var x := Char(Marker(st)[0]);
      LoneSplit(ps, x, i);
      LoneScan(ps, st, i);
      PassLone(ps, st, i + 1);
      PassKeep(ps, st, i);
    }
  }

  /** A line with at most one `*` and at most one backtick keeps every marker as literal text. */
  lemma {:induction false} FormatInlineLone(s: string)
    requires multiset(s)['*'] <= 1 && multiset(s)['`'] <= 1
    ensures FormatInline(s) == Plain(s)
  {
    var p := Plain(s);
    assert p[0..] == p;
    PlainCount(s, '*');
    PlainCount(s, '`');
    PassLone(p, StrongItalic, 0);
    PassLone(p, Strong, 0);
    PassLone(p, Emphasis, 0);
    PassLone(p, Code, 0);
  }

  lemma {:induction false} PlainCons(c: char, t: string)
    ensures Plain([c] + t) == [Char(c)] + Plain(t)
  {
    assert |Plain([c] + t)| == |[Char(c)] + Plain(t)|;
    forall k | 0 <= k < |[c] + t|
      ensures Plain([c] + t)[k] == ([Char(c)] + Plain(t))[k]
    {
      if k > 0 { assert ([c] + t)[k] == t[k - 1]; }
    }
  }

  /** Plain text holds each character exactly as often as the line does. */
  lemma {:induction false} PlainCount(s: string, c: char)
    ensures multiset(Plain(s))[Char(c)] == multiset(s)[c]
    decreases |s|
  {
    if s != [] {
      var rest := s[1..];
      PlainCount(rest, c);
      assert s == [s[0]] + rest;
      PlainCons(s[0], rest);
    }
  }

  // =====================================================================
  // Line classification

  /** What a trimmed line is, by the first of renderMarkdown's tests it passes. */
  datatype LineKind = Blank | Heading2 | Heading1 | BoldTitle | ListItem | Paragraph

  /** Starts and ends with `**` with no `**` in `slice(2, -2)`. */
  predicate IsBoldTitle(t: string) {
    StartsWith(t, "**") && EndsWith(t, "**") && !Includes(Slice(t, 2, -2), "**")
  }

  /** renderMarkdown's tests pick out each kind of line on their own: no
      line passes two of them, so their order decides nothing. */
  function Classify(t: string): (k: LineKind)
    ensures k == Blank <==> t == []
    ensures k == Heading2 <==> StartsWith(t, "## ")
    ensures k == Heading1 <==> StartsWith(t, "# ")
    ensures k == BoldTitle <==> IsBoldTitle(t)
    ensures k == ListItem <==> StartsWith(t, "* ") || StartsWith(t, "- ")
  {
    TestsExclusive(t);
    if t == [] then Blank
    else if StartsWith(t, "## ") then Heading2
    else if StartsWith(t, "# ") then Heading1
    else if IsBoldTitle(t) then BoldTitle
    else if StartsWith(t, "* ") || StartsWith(t, "- ") then ListItem
    else Paragraph
  }

  /** A line that starts with one test's prefix fails every other test: the second character tells them apart. */
  lemma {:induction false} TestsExclusive(t: string)
    ensures StartsWith(t, "## ") ==> !StartsWith(t, "# ") && !IsBoldTitle(t) && !StartsWith(t, "* ") && !StartsWith(t, "- ")
    ensures StartsWith(t, "# ") ==> !IsBoldTitle(t) && !StartsWith(t, "* ") && !StartsWith(t, "- ")
    ensures IsBoldTitle(t) ==> !StartsWith(t, "* ") && !StartsWith(t, "- ")
  {
    PrefixChars(t, "## ");
    PrefixChars(t, "# ");
    PrefixChars(t, "**");
    PrefixChars(t, "* ");
    PrefixChars(t, "- ");
  }

  /** The first two characters of a line that starts with `p`. */
  lemma {:induction false} PrefixChars(t: string, p: string)
    requires |p| >= 2
    ensures StartsWith(t, p) ==> t[0] == p[0] && t[1] == p[1]
  {
    if StartsWith(t, p) {
      assert t[0] == t[..|p|][0] && t[1] == t[..|p|][1];
    }
  }

  /** An element of the rendered reply. Heading and title text is shown as
      it is; list items and paragraphs go through formatInline. */
  datatype Block =
    | H2(text: string)
    | H1(text: string)
    | Title(text: string)
    | List(items: seq<Inline>)
    | Para(content: Inline)

  /** A line of the reply after `trim`, with what it was classified as. */
  datatype Line = Line(kind: LineKind, text: string)

  /** The start of the forEach body for a raw line: trim it, then classify it. */
  function LineOf(raw: string): Line {
    var t := Trim(raw);
    Line(Classify(t), t)
  }

  function LinesOf(raws: seq<string>): (r: seq<Line>)
    ensures |r| == |raws|
    ensures forall k :: 0 <= k < |raws| ==> r[k] == LineOf(raws[k])
  {
    seq(|raws|, k requires 0 <= k < |raws| => LineOf(raws[k]))
  }

  /** The text of a list line after its two-character marker (`slice(2)`). */
  function ItemText(t: string): string {
    Slice(t, 2, |t|)
  }

  /** The elements a line contributes on its own: nothing for a blank
      line, its heading or title, its formatted paragraph, and for a list
      line the one-item list that flushList would emit for it alone. */
  function LineBlocks(l: Line): (r: seq<Block>)
    ensures |r| == if l.kind == Blank then 0 else 1
    ensures forall k :: 0 <= k < |r| ==> (r[k].List? <==> l.kind == ListItem)
  {
    var t := l.text;
    match l.kind
    case Blank => []
    case Heading2 => [H2(Slice(t, 3, |t|))]
    case Heading1 => [H1(Slice(t, 2, |t|))]
    case BoldTitle => [Title(Slice(t, 2, -2))]
    case ListItem => [List([FormatInline(ItemText(t))])]
    case Paragraph => [Para(FormatInline(t))]
  }

  function Formatted(items: seq<string>): (r: seq<Inline>)
    ensures |r| == |items|
    ensures forall k :: 0 <= k < |items| ==> r[k] == FormatInline(items[k])
  {
    seq(|items|, k requires 0 <= k < |items| => FormatInline(items[k]))
  }

  /** What flushList emits for the pending items: one list, or nothing when there are none. */
  function Flushed(items: seq<string>): seq<Block> {
    if items == [] then [] else [List(Formatted(items))]
  }

  function ItemTexts(ls: seq<Line>): (r: seq<string>)
    ensures |r| == |ls|
    ensures forall k :: 0 <= k < |ls| ==> r[k] == ItemText(ls[k].text)
  {
    seq(|ls|, k requires 0 <= k < |ls| => ItemText(ls[k].text))
  }

  // =====================================================================
  // The layout of a reply, by maximal runs of list lines

  /** The number of list lines at the front of `ls`. */
  function ListRun(ls: seq<Line>): (n: nat)
    decreases |ls|
    ensures n <= |ls|
    ensures forall k :: 0 <= k < n ==> ls[k].kind == ListItem
    ensures n == |ls| || ls[n].kind != ListItem
  {
    if ls != [] && ls[0].kind == ListItem then 1 + ListRun(ls[1..]) else 0
  }

  /** A group of consecutive lines: a maximal run of list lines, or one other line. */
  datatype Group = Run(lines: seq<Line>) | Single(line: Line)

  /** How many lines the first group of `ls` takes: its whole leading run of list lines, or its first line. */
  function HeadLen(ls: seq<Line>): (n: nat)
    requires ls != []
    ensures 0 < n <= |ls|
  {
    var run := ListRun(ls);
    if run > 0 then run else 1
  }

  function HeadGroup(ls: seq<Line>): Group
    requires ls != []
  {
    var run := ListRun(ls);
    if run > 0 then Run(ls[..run]) else Single(ls[0])
  }

  /** The lines of a reply cut into groups, front to back. */
  function Groups(ls: seq<Line>): seq<Group>
    decreases |ls|
  {
    if ls == [] then [] else [HeadGroup(ls)] + Groups(ls[HeadLen(ls)..])
  }

  function GroupLines(g: Group): seq<Line> {
    match g
    case Run(ls) => ls
    case Single(l) => [l]
  }

  /** The lines of a sequence of groups, in order. */
  function Ungroup(gs: seq<Group>): seq<Line>
    decreases |gs|
  {
    if gs == [] then [] else GroupLines(gs[0]) + Ungroup(gs[1..])
  }

  /** The elements of one group: a run is the list flushList emits for it. */
  function GroupBlocks(g: Group): seq<Block> {
    match g
    case Run(ls) => Flushed(ItemTexts(ls))
    case Single(l) => LineBlocks(l)
  }

  function Blocks(gs: seq<Group>): seq<Block>
    decreases |gs|
  {
    if gs == [] then [] else GroupBlocks(gs[0]) + Blocks(gs[1..])
  }

  /** The elements for a sequence of classified lines, defined without a
      pending buffer: each maximal run of list lines is one list, and every
      other line contributes its own elements. */
  function Layout(ls: seq<Line>): seq<Block> {
    Blocks(Groups(ls))
  }

  /** What renderMarkdown returns for a reply. */
  function Render(text: string): seq<Block> {
    Layout(LinesOf(SplitLines(text)))
  }

  predicate AllListLines(ls: seq<Line>) {
    forall k :: 0 <= k < |ls| ==> ls[k].kind == ListItem
  }

  /** Two line sequences are laid out apart when no run of list lines crosses where they meet. */
  predicate SeparateRuns(a: seq<Line>, b: seq<Line>) {
    a == [] || b == [] || a[|a| - 1].kind != ListItem || b[0].kind != ListItem
  }

  /** Where runs are separate, the first group of `a + b` is the first group of `a`. */
  lemma {:induction false} HeadAppend(a: seq<Line>, b: seq<Line>)
    requires a != [] && SeparateRuns(a, b)
    ensures HeadLen(a + b) == HeadLen(a)
    ensures HeadGroup(a + b) == HeadGroup(a)
  {
    ListRunAppend(a, b);
    var n := ListRun(a);
    assert (a + b)[0] == a[0];
    assert (a + b)[..n] == a[..n];
  }

  lemma {:induction false} ListRunAppend(a: seq<Line>, b: seq<Line>)
    requires a != [] && SeparateRuns(a, b)
    ensures ListRun(a + b) == ListRun(a)
    decreases |a|
  {
    assert (a + b)[0] == a[0];
    if a[0].kind == ListItem {
      assert (a + b)[1..] == a[1..] + b;
      if |a| == 1 {
        assert a[1..] + b == b;
      } else {
        assert a[1..][|a[1..]| - 1] == a[|a| - 1];
        ListRunAppend(a[1..], b);
      }
    }
  }

  /** Where runs are separate, grouping `a + b` starts with the first group of `a`. */
  lemma {:induction false} GroupsAppendHead(a: seq<Line>, b: seq<Line>)
    requires a != [] && SeparateRuns(a, b)
    ensures Groups(a + b) == [HeadGroup(a)] + Groups(a[HeadLen(a)..] + b)
    ensures SeparateRuns(a[HeadLen(a)..], b)
  {
    var h := HeadLen(a);
    HeadAppend(a, b);
    assert (a + b)[h..] == a[h..] + b;
    if a[h..] != [] { assert a[h..][|a[h..]| - 1] == a[|a| - 1]; }
  }

  /** Grouping is compositional where no run of list lines is cut. */
  lemma {:induction false} GroupsAppend(a: seq<Line>, b: seq<Line>)
    requires SeparateRuns(a, b)
    ensures Groups(a + b) == Groups(a) + Groups(b)
    decreases |a|
  {
    if a == [] {
      assert a + b == b;
    } else {
      GroupsAppendHead(a, b);
      GroupsAppend(a[HeadLen(a)..], b);
    }
  }

  lemma {:induction false} BlocksAppend(g: seq<Group>, h: seq<Group>)
    ensures Blocks(g + h) == Blocks(g) + Blocks(h)
    decreases |g|
  {
    if g == [] {
      assert g + h == h;
    } else {
      assert (g + h)[1..] == g[1..] + h;
      BlocksAppend(g[1..], h);
    }
  }

  /** Layout is compositional where no run of list lines is cut: a blank
      line or any line that is not a list line separates two groups. */
  lemma {:induction false} LayoutAppend(a: seq<Line>, b: seq<Line>)
    requires SeparateRuns(a, b)
    ensures Layout(a + b) == Layout(a) + Layout(b)
  {
    GroupsAppend(a, b);
    BlocksAppend(Groups(a), Groups(b));
  }

  /** A non-empty run made only of list lines is one group. */
  lemma {:induction false} GroupsListRun(ls: seq<Line>)
    requires ls != [] && AllListLines(ls)
    ensures Groups(ls) == [Run(ls)]
  {
    var n := ListRun(ls);
    assert n == |ls|;
    assert ls[..n] == ls;
    assert ls[n..] == [];
  }

  /** A run made only of list lines lays out as the one list flushList emits for it. */
  lemma {:induction false} LayoutListRun(ls: seq<Line>)
    requires AllListLines(ls)
    ensures Layout(ls) == Flushed(ItemTexts(ls))
  {
    if ls != [] {
      GroupsListRun(ls);
      assert Blocks([Run(ls)]) == GroupBlocks(Run(ls)) + Blocks([]);
    }
  }

  lemma {:induction false} LayoutSingle(l: Line)
    requires l.kind != ListItem
    ensures Layout([l]) == LineBlocks(l)
  {
    assert ListRun([l]) == 0;
    assert [l][1..] == [];
    assert Groups([l]) == [Single(l)];
    assert Blocks([Single(l)]) == GroupBlocks(Single(l)) + Blocks([]);
  }

  // =====================================================================
  // renderMarkdown, with flushList as a method over the closure's state

  /** The state that renderMarkdown's closures share: the elements emitted
      so far and the pending list items. */
  class Renderer {
    var elements: seq<Block>
    var listItems: seq<string>

    constructor ()
      ensures elements == [] && listItems == []
    {
      elements := [];
      listItems := [];
    }

    /** flushList: emits the pending items as one list when there are any, and always leaves none pending. */
    method FlushList()
      modifies this
      ensures listItems == []
      ensures elements == old(elements) + Flushed(old(listItems))
    {
      if |listItems| > 0 {
        elements := elements + [List(Formatted(listItems))];
        listItems := [];
      }
    }

    /** The body of the forEach for one line: a list line is only buffered;
        any other line flushes the buffer and then adds its own elements. */
    method Visit(line: string)
      modifies this
      ensures LineOf(line).kind == ListItem ==>
        elements == old(elements) && listItems == old(listItems) + [ItemText(LineOf(line).text)]
      ensures LineOf(line).kind != ListItem ==>
        listItems == [] && elements == old(elements) + Flushed(old(listItems)) + LineBlocks(LineOf(line))
    {
      var trimmedLine := Trim(line);
      ghost var kind := Classify(trimmedLine);
      ghost var l := Line(kind, trimmedLine);
      assert LineOf(line) == l;
      if trimmedLine == [] {
        assert kind == Blank;
        FlushList();
        return;
      }
      if StartsWith(trimmedLine, "## ") {
        assert kind == Heading2;
        assert LineBlocks(l) == [H2(Slice(trimmedLine, 3, |trimmedLine|))];
        FlushList();
        elements := elements + [H2(Slice(trimmedLine, 3, |trimmedLine|))];
        return;
      }
      if StartsWith(trimmedLine, "# ") {
        assert kind == Heading1;
        assert LineBlocks(l) == [H1(Slice(trimmedLine, 2, |trimmedLine|))];
        FlushList();
        elements := elements + [H1(Slice(trimmedLine, 2, |trimmedLine|))];
        return;
      }
      if StartsWith(trimmedLine, "**") && EndsWith(trimmedLine, "**")
        && !Includes(Slice(trimmedLine, 2, -2), "**")
      {
        assert kind == BoldTitle;
        assert LineBlocks(l) == [Title(Slice(trimmedLine, 2, -2))];
        FlushList();
        var title := Slice(trimmedLine, 2, -2);
        elements := elements + [Title(title)];
        return;
      }
      if StartsWith(trimmedLine, "* ") || StartsWith(trimmedLine, "- ") {
        assert kind == ListItem;
        listItems := listItems + [Slice(trimmedLine, 2, |trimmedLine|)];
        return;
      }
      assert kind == Paragraph;
      assert LineBlocks(l) == [Para(FormatInline(trimmedLine))];
      FlushList();
      elements := elements + [Para(FormatInline(trimmedLine))];
    }
  }

  /** One more line that is not a list line: the pending run since `start` is flushed, then the line's own elements follow. */
  lemma {:induction false} LayoutStep(ls: seq<Line>, start: nat, i: nat)
    requires start <= i < |ls|
    requires AllListLines(ls[start..i])
    requires start == 0 || ls[start - 1].kind != ListItem
    requires ls[i].kind != ListItem
    ensures Layout(ls[..i + 1]) == Layout(ls[..start]) + Flushed(ItemTexts(ls[start..i])) + LineBlocks(ls[i])
  {
    var pre, run := ls[..start], ls[start..i];
    assert ls[..i + 1] == pre + run + [ls[i]];
    LayoutListRun(run);
    LayoutSingle(ls[i]);
    assert SeparateRuns(pre, run) by {
      if start > 0 && run != [] { assert pre[start - 1] == ls[start - 1]; }
    }
    LayoutAppend(pre, run);
    LayoutAppend(pre + run, [ls[i]]);
  }

  /** At the end the pending run since `start` is flushed. */
  lemma {:induction false} LayoutFinish(ls: seq<Line>, start: nat, i: nat)
    requires start <= i == |ls|
    requires AllListLines(ls[start..i])
    requires start == 0 || ls[start - 1].kind != ListItem
    ensures Layout(ls) == Layout(ls[..start]) + Flushed(ItemTexts(ls[start..i]))
  {
    var pre, run := ls[..start], ls[start..i];
    assert ls == pre + run;
    LayoutListRun(run);
    assert SeparateRuns(pre, run) by {
      if start > 0 && run != [] { assert pre[start - 1] == ls[start - 1]; }
    }
    LayoutAppend(pre, run);
  }

  /** One more list line extends the pending run and its item texts. */
  lemma {:induction false} RunGrows(ls: seq<Line>, start: nat, i: nat)
    requires start <= i < |ls|
    requires AllListLines(ls[start..i]) && ls[i].kind == ListItem
    ensures AllListLines(ls[start..i + 1])
    ensures ItemTexts(ls[start..i + 1]) == ItemTexts(ls[start..i]) + [ItemText(ls[i].text)]
  {
    assert ls[start..i + 1] == ls[start..i] + [ls[i]];
  }

  /** The renderer's state after the first `i` lines, with the pending run
      of list lines starting at `start`: everything before the run is laid
      out, and the run's item texts are pending. */
  ghost predicate Replayed(ls: seq<Line>, start: nat, i: nat, elements: seq<Block>, listItems: seq<string>) {
    && start <= i <= |ls|
    && AllListLines(ls[start..i])
    && (start == 0 || ls[start - 1].kind != ListItem)
    && listItems == ItemTexts(ls[start..i])
    && elements == Layout(ls[..start])
  }

  /** Where the pending run starts once line `i` is visited. */
  function NextStart(ls: seq<Line>, start: nat, i: nat): nat
    requires i < |ls|
  {
    if ls[i].kind == ListItem then start else i + 1
  }

  /** Visiting line `i` as Visit promises keeps the state replayed. */
  lemma {:induction false} VisitStep(ls: seq<Line>, start: nat, i: nat,
                  elements: seq<Block>, listItems: seq<string>,
                  elements': seq<Block>, listItems': seq<string>)
    requires i < |ls| && Replayed(ls, start, i, elements, listItems)
    requires ls[i].kind == ListItem ==>
      elements' == elements && listItems' == listItems + [ItemText(ls[i].text)]
    requires ls[i].kind != ListItem ==>
      listItems' == [] && elements' == elements + Flushed(listItems) + LineBlocks(ls[i])
    ensures Replayed(ls, NextStart(ls, start, i), i + 1, elements', listItems')
  {
    if ls[i].kind == ListItem {
      assert NextStart(ls, start, i) == start;
      RunGrows(ls, start, i);
    } else {
      assert NextStart(ls, start, i) == i + 1;
      assert elements' == Layout(ls[..i + 1]) by {
        LayoutStep(ls, start, i);
      }
      assert ls[i + 1..i + 1] == [];
    }
  }

  /** The forEach of renderMarkdown over the split lines, then its last
      flushList: the elements are the layout of the classified lines by
      maximal list runs. */
  method RenderLines(lines: seq<string>) returns (elements: seq<Block>)
    ensures elements == Layout(LinesOf(lines))
  {
    var r := new Renderer();
    ghost var ls := LinesOf(lines);
    ghost var start := 0;
    var i := 0;
    assert ls[0..0] == [] && ls[..0] == [];
    while i < |lines|
      invariant i <= |lines|
      invariant Replayed(ls, start, i, r.elements, r.listItems)
    {
      ghost var elements0, listItems0 := r.elements, r.listItems;
      r.Visit(lines[i]);
      VisitStep(ls, start, i, elements0, listItems0, r.elements, r.listItems);
      start := NextStart(ls, start, i);
      i := i + 1;
    }
    r.FlushList();
    LayoutFinish(ls, start, i);
    elements := r.elements;
  }

  /** renderMarkdown: the reply split on line feeds, each line visited in order. */
  method RenderMarkdown(text: string) returns (elements: seq<Block>)
    ensures elements == Render(text)
  {
    var lines := SplitLines(text);
    elements := RenderLines(lines);
  }
}
