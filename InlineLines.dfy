/** formatInline on a whole line: every substitution is global, so a line
    made of literal text and spans of any of the four styles comes out with
    every span inside its tags and the text between the spans as it was. */
module InlineLines {
  import opened Text
  import opened Markdown
  import opened InlineSpans

  // ---------------------------------------------------------------------
  // Positions in a sequence of pieces

  /** `t` stands in `ps` from position `o` on. */
  predicate At(ps: Inline, o: int, t: Inline) {
    0 <= o && o + |t| <= |ps| && ps[o..o + |t|] == t
  }

  lemma {:induction false} AtPiece(ps: Inline, o: int, t: Inline, r: int)
    requires At(ps, o, t) && 0 <= r < |t|
    ensures ps[o + r] == t[r]
  {
    assert ps[o..o + |t|][r] == t[r];
  }

  lemma {:induction false} AtSplit(ps: Inline, o: int, a: Inline, b: Inline)
    requires At(ps, o, a + b)
    ensures At(ps, o, a) && At(ps, o + |a|, b)
  {
    var w := ps[o..o + |a| + |b|];
    assert w[..|a|] == a && w[|a|..] == b;
    assert ps[o..o + |a|] == w[..|a|];
    assert ps[o + |a|..o + |a| + |b|] == w[|a|..];
  }

  lemma {:induction false} PlainAppend(a: string, b: string)
    ensures Plain(a + b) == Plain(a) + Plain(b)
  {
    assert forall k :: 0 <= k < |a| + |b| ==> Plain(a + b)[k] == (Plain(a) + Plain(b))[k];
  }

  /** The pieces of a marker occurrence are the marker's characters. */
  lemma {:induction false} MarkerChars(ps: Inline, m: string, k: nat, j: nat)
    requires MarkerAt(ps, m, k) && j < |m|
    ensures ps[k + j] == Char(m[j])
  {
    assert ps[k..k + |m|][j] == Plain(m)[j];
  }

  // ---------------------------------------------------------------------
  // One pass, a stretch at a time

  /** Where no marker starts, a pass copies the piece and moves on by one. */
  lemma {:induction false} PassKeepStep(ps: Inline, st: Style, i: nat)
    requires i < |ps| && !MarkerAt(ps, Marker(st), i)
    ensures Pass(ps, st, i) == [ps[i]] + Pass(ps, st, i + 1)
  {
  }

  lemma {:induction false} SliceCons(s: Inline, i: nat, j: nat)
    requires i < j <= |s|
    ensures [s[i]] + s[i + 1..j] == s[i..j]
  {
  }

  lemma {:induction false} ConsAppend(x: Piece, b: Inline, c: Inline, bc: Inline)
    requires bc == b + c
    ensures [x] + bc == ([x] + b) + c
  {
  }

  /** A stretch in which no marker starts is copied as it is. */
  lemma {:induction false} PassKeepRun(ps: Inline, st: Style, i: nat, j: nat)
    requires i <= j <= |ps|
    requires forall k :: i <= k < j ==> !MarkerAt(ps, Marker(st), k)
    ensures Pass(ps, st, i) == ps[i..j] + Pass(ps, st, j)
    decreases j - i
  {
    if i < j {
      PassKeepStep(ps, st, i);
      PassKeepRun(ps, st, i + 1, j);
      ConsAppend(ps[i], ps[i + 1..j], Pass(ps, st, j), Pass(ps, st, i + 1));
      SliceCons(ps, i, j);
    }
  }

  /** Where `a` stands and no marker starts inside it, the pass copies `a`. */
  lemma {:induction false} PassKeepAt(ps: Inline, st: Style, o: nat, a: Inline, e: nat)
    requires At(ps, o, a) && e == o + |a|
    requires forall k :: o <= k < e ==> !MarkerAt(ps, Marker(st), k)
    ensures Pass(ps, st, o) == a + Pass(ps, st, e)
  {
    AtSlice(ps, o, a, e);
    PassKeepRun(ps, st, o, e);
  }

  lemma {:induction false} AtSlice(ps: Inline, o: nat, a: Inline, e: nat)
    requires At(ps, o, a) && e == o + |a|
    ensures e <= |ps| && ps[o..e] == a
  {
  }

  /** No marker starts on a piece that is not the marker's character. */
  lemma {:induction false} NoCharStretch(ps: Inline, st: Style, o: nat, a: Inline, e: nat)
    requires At(ps, o, a) && e == o + |a|
    requires forall r :: 0 <= r < |a| ==> a[r] != Char(MarkerChar(st))
    ensures forall k :: o <= k < e ==> !MarkerAt(ps, Marker(st), k)
  {
    forall k | o <= k < e
      ensures !MarkerAt(ps, Marker(st), k)
    {
      AtPiece(ps, o, a, k - o);
      MarkerHead(ps, Marker(st), k);
    }
  }

  /** Where `a` stands and holds none of the marker's character, the pass copies `a`. */
  lemma {:induction false} PassCopyAt(ps: Inline, st: Style, o: nat, a: Inline, e: nat)
    requires At(ps, o, a) && e == o + |a|
    requires forall r :: 0 <= r < |a| ==> a[r] != Char(MarkerChar(st))
    ensures Pass(ps, st, o) == a + Pass(ps, st, e)
  {
    NoCharStretch(ps, st, o, a, e);
    PassKeepAt(ps, st, o, a, e);
  }

  /** A marker with a closing marker after it becomes the tagged text between them, and the scan resumes after the closing marker. */
  lemma {:induction false} ScanSpanAt(ps: Inline, st: Style, i: nat, j: nat, k: nat, inner: Inline)
    requires i < |ps| && MarkerAt(ps, Marker(st), i) && j == i + |Marker(st)|
    requires j <= |ps| && FindClose(ps, Marker(st), j).Some? && FindClose(ps, Marker(st), j).value == k
    requires At(ps, j, inner) && k == j + |inner|
    ensures Scan(ps, st, i).out == Tagged(st, inner)
    ensures Scan(ps, st, i).next == k + |Marker(st)|
  {
  }

  lemma {:induction false} PassUnfold(ps: Inline, st: Style, i: nat, out: Inline, next: nat)
    requires i < |ps| && Scan(ps, st, i).out == out && Scan(ps, st, i).next == next
    ensures Pass(ps, st, i) == out + Pass(ps, st, next)
  {
  }

  lemma {:induction false} AtSub(ps: Inline, o: int, t: Inline, a: int, b: int)
    requires At(ps, o, t) && 0 <= a <= b <= |t|
    ensures At(ps, o + a, t[a..b])
  {
    var w, u := ps[o..o + |t|], ps[o + a..o + b];
    assert forall i :: 0 <= i < |u| ==> u[i] == w[a..b][i];
    assert u == w[a..b];
  }

  /** A part `t == s[a..b]` of a text standing at `o` stands at `p == o + a`. */
  lemma {:induction false} AtPart(ps: Inline, o: nat, s: string, a: nat, b: nat, t: string, p: nat)
    requires At(ps, o, Plain(s)) && a <= b <= |s| && s[a..b] == t && p == o + a
    ensures At(ps, p, Plain(t))
  {
    AtSub(ps, o, Plain(s), a, b);
    PlainSlice(s, a, b);
  }

  lemma {:induction false} AtMarker(ps: Inline, m: string, p: nat)
    requires At(ps, p, Plain(m))
    ensures MarkerAt(ps, m, p)
  {
  }

  /** Where `M + x + M` stands, a marker stands at each end and `x` between them. */
  lemma {:induction false} SpanAtParts(ps: Inline, st: Style, o: nat, x: string)
    requires At(ps, o, Plain(Marker(st) + x + Marker(st)))
    ensures var m := Marker(st);
      MarkerAt(ps, m, o) && MarkerAt(ps, m, o + |m| + |x|) && At(ps, o + |m|, Plain(x))
  {
    var m := Marker(st);
    var s := m + x + m;
    var n := |m| + |x|;
    var j, k := o + |m|, o + |m| + |x|;
    SpanParts(st, x);
    AtPart(ps, o, s, 0, |m|, m, o);
    AtPart(ps, o, s, |m|, n, x, j);
    AtPart(ps, o, s, n, n + |m|, m, k);
    AtMarker(ps, m, o);
    AtMarker(ps, m, k);
  }

  /** No marker starts in a stretch of literal text, and `.` matches all of it. */
  lemma {:induction false} LiteralStretch(ps: Inline, lo: nat, x: string, st: Style)
    requires Literal(x) && At(ps, lo, Plain(x))
    ensures forall q :: lo <= q < lo + |x| ==> !MarkerAt(ps, Marker(st), q)
    ensures DotsBetween(ps, lo, lo + |x|)
  {
    forall q | lo <= q < lo + |x|
      ensures ps[q] == Char(x[q - lo])
    {
      AtPiece(ps, lo, Plain(x), q - lo);
    }
    forall q | lo <= q < lo + |x|
      ensures !MarkerAt(ps, Marker(st), q)
    {
      MarkerHead(ps, Marker(st), q);
    }
  }

  /** Past the opening marker, the search for the closing marker crosses `x` and stops at the closing marker. */
  lemma {:induction false} SpanClose(ps: Inline, st: Style, o: nat, x: string)
    requires Literal(x) && At(ps, o + |Marker(st)|, Plain(x)) && MarkerAt(ps, Marker(st), o + |Marker(st)| + |x|)
    ensures var m := Marker(st);
      o + |m| <= |ps| && FindClose(ps, m, o + |m|).Some? && FindClose(ps, m, o + |m|).value == o + |m| + |x|
  {
    var m := Marker(st);
    LiteralStretch(ps, o + |m|, x, st);
    FindCloseAt(ps, m, o + |m|, o + |m| + |x|);
  }

  /** Where `M + x + M` stands, the scan emits `x` inside the style's tags and resumes after the span. */
  lemma {:induction false} ScanSpanText(ps: Inline, st: Style, o: nat, x: string)
    requires Literal(x) && At(ps, o, Plain(Marker(st) + x + Marker(st)))
    ensures o < |ps|
    ensures Scan(ps, st, o).out == Tagged(st, Plain(x))
    ensures Scan(ps, st, o).next == o + 2 * |Marker(st)| + |x|
  {
    var m := Marker(st);
    var n := o + |m| + |x|;
    SpanAtParts(ps, st, o, x);
    SpanClose(ps, st, o, x);
    ScanSpanAt(ps, st, o, o + |m|, n, Plain(x));
  }

  /** Wherever `M + x + M` stands, its own pass tags it, whatever comes
      before or after: the closing marker is the first marker after the
      opening one. */
  lemma {:induction false} PassSpanAt(ps: Inline, st: Style, o: nat, x: string, a: Inline, e: nat)
    requires Literal(x) && At(ps, o, Plain(Marker(st) + x + Marker(st)))
    requires a == Tagged(st, Plain(x)) && e == o + 2 * |Marker(st)| + |x|
    ensures Pass(ps, st, o) == a + Pass(ps, st, e)
  {
    ScanSpanText(ps, st, o, x);
    PassUnfold(ps, st, o, a, e);
  }

  /** A marker of a longer run of the same character cannot start inside
      `M + x + M` when `x` is not empty and the piece after the span is not
      that character: the run it would need is broken by the first character
      of `x`, or by the piece after the closing marker. */
  lemma {:induction false} LongerNotAt(ps: Inline, st: Style, longer: Style, x: string, o: nat, e: nat, k: nat)
    requires Literal(x) && x != []
    requires MarkerChar(longer) == MarkerChar(st) && |Marker(longer)| > |Marker(st)|
    requires At(ps, o, Plain(Marker(st) + x + Marker(st))) && e == o + 2 * |Marker(st)| + |x|
    requires e == |ps| || ps[e] != Char(MarkerChar(st))
    requires o <= k < e
    ensures !MarkerAt(ps, Marker(longer), k)
  {
    var m, ml := Marker(st), Marker(longer);
    if MarkerAt(ps, ml, k) {
      // the first piece after the run of markers that holds k
      var b := if k < o + |m| then o + |m| else if k < o + |m| + |x| then k else e;
      if b == |ps| {
        assert false;
      }
      MarkerChars(ps, ml, k, b - k);
      if b < e {
        AtPiece(ps, o, Plain(m + x + m), b - o);
        SpanCharAt(st, x, b - o);
      }
      assert false;
    }
  }

  /** The pass for a longer marker of the same character copies such a span as it is. */
  lemma {:induction false} PassLongerAt(ps: Inline, st: Style, longer: Style, x: string, o: nat, a: Inline, e: nat)
    requires Literal(x) && x != []
    requires MarkerChar(longer) == MarkerChar(st) && |Marker(longer)| > |Marker(st)|
    requires a == Plain(Marker(st) + x + Marker(st)) && At(ps, o, a) && e == o + |a|
    requires e == |ps| || ps[e] != Char(MarkerChar(st))
    ensures Pass(ps, longer, o) == a + Pass(ps, longer, e)
  {
    LongerNotInSpan(ps, st, longer, x, o, e);
    PassKeepAt(ps, longer, o, a, e);
  }

  lemma {:induction false} LongerNotInSpan(ps: Inline, st: Style, longer: Style, x: string, o: nat, e: nat)
    requires Literal(x) && x != []
    requires MarkerChar(longer) == MarkerChar(st) && |Marker(longer)| > |Marker(st)|
    requires At(ps, o, Plain(Marker(st) + x + Marker(st))) && e == o + 2 * |Marker(st)| + |x|
    requires e == |ps| || ps[e] != Char(MarkerChar(st))
    ensures forall k :: o <= k < e ==> !MarkerAt(ps, Marker(longer), k)
  {
    forall k | o <= k < e
      ensures !MarkerAt(ps, Marker(longer), k)
    {
      LongerNotAt(ps, st, longer, x, o, e, k);
    }
  }

  // ---------------------------------------------------------------------
  // A line of text and spans

  /** A stretch of a line: literal text, or a span of one style around literal text. */
  datatype Chunk = Text(t: string) | Span(style: Style, t: string)

  function ChunkSource(c: Chunk): string {
    match c
    case Text(t) => t
    case Span(st, t) => Marker(st) + t + Marker(st)
  }

  /** The markdown text of a line made of chunks. */
  function Source(cs: seq<Chunk>): string
    decreases |cs|
  {
    if cs == [] then "" else ChunkSource(cs[0]) + Source(cs[1..])
  }

  /** What a chunk should become: text as it is, a span inside its style's tags. */
  function ChunkRendered(c: Chunk): Inline {
    match c
    case Text(t) => Plain(t)
    case Span(st, t) => Tagged(st, Plain(t))
  }

  /** What the line should become: the text as it is, every span in its style's tags. */
  function Rendered(cs: seq<Chunk>): Inline
    decreases |cs|
  {
    if cs == [] then [] else ChunkRendered(cs[0]) + Rendered(cs[1..])
  }

  /** Every chunk holds non-empty literal text, and some text stands between
      any two spans (two adjacent spans of one character would make a longer
      marker: `*a**b*` holds a `**`). */
  predicate WellSeparated(cs: seq<Chunk>) {
    (forall i :: 0 <= i < |cs| ==> Literal(cs[i].t) && cs[i].t != []) &&
    (forall i :: 0 <= i < |cs| - 1 && cs[i].Span? ==> cs[i + 1].Text?)
  }

  /** The position of a style's pass in formatInline. */
  function Order(st: Style): (r: nat)
    ensures r < 4
  {
    match st
    case StrongItalic => 0
    case Strong => 1
    case Emphasis => 2
    case Code => 3
  }

  /** The style of formatInline's pass number `n`. */
  function PassStyle(n: nat): (st: Style)
    requires n < 4
    ensures Order(st) == n
  {
    if n == 0 then StrongItalic else if n == 1 then Strong else if n == 2 then Emphasis else Code
  }

  /** A pass for a later style of the same character has a shorter marker: the star passes run from the longest marker to the shortest. */
  lemma {:induction false} LaterIsShorter(st: Style, later: Style)
    requires MarkerChar(st) == MarkerChar(later) && Order(st) < Order(later)
    ensures |Marker(st)| > |Marker(later)|
  {
  }

  /** A chunk after the first `n` passes: spans of those passes tagged, the rest still as written. */
  function ChunkAt(c: Chunk, n: nat): Inline {
    match c
    case Text(t) => Plain(t)
    case Span(st, t) => if Order(st) < n then Tagged(st, Plain(t)) else Plain(Marker(st) + t + Marker(st))
  }

  /** The line after the first `n` passes. */
  function Stage(cs: seq<Chunk>, n: nat): Inline
    decreases |cs|
  {
    if cs == [] then [] else ChunkAt(cs[0], n) + Stage(cs[1..], n)
  }

  /** Neither a star nor a backtick. */
  predicate NoMarkerPiece(p: Piece) {
    p != Char('*') && p != Char('`')
  }

  /** Literal text holds neither marker character. */
  lemma {:induction false} PlainNoChar(t: string, st: Style)
    requires Literal(t)
    ensures forall r :: 0 <= r < |Plain(t)| ==> Plain(t)[r] != Char(MarkerChar(st))
  {
  }

  /** Tagged literal text holds neither marker character. */
  lemma {:induction false} TaggedNoChar(s0: Style, t: string, st: Style)
    requires Literal(t)
    ensures var a := Tagged(s0, Plain(t)); forall r :: 0 <= r < |a| ==> a[r] != Char(MarkerChar(st))
  {
    var a := Tagged(s0, Plain(t));
    forall r | 0 <= r < |a|
      ensures a[r] != Char(MarkerChar(st))
    {
      if 0 < r < |a| - 1 {
        assert a[r] == Char(t[r - 1]);
      }
    }
  }

  /** A span of one character holds none of the other character. */
  lemma {:induction false} OtherSpanNoChar(s0: Style, t: string, st: Style)
    requires Literal(t) && MarkerChar(s0) != MarkerChar(st)
    ensures var a := Plain(Marker(s0) + t + Marker(s0)); forall r :: 0 <= r < |a| ==> a[r] != Char(MarkerChar(st))
  {
    var a := Plain(Marker(s0) + t + Marker(s0));
    forall r | 0 <= r < |a|
      ensures a[r] != Char(MarkerChar(st))
    {
      SpanCharAt(s0, t, r);
    }
  }

  /** Pass `n` copies a text chunk. */
  lemma {:induction false} ChunkPassText(ps: Inline, c: Chunk, n: nat, st: Style, o: nat, e: nat)
    requires n < 4 && st == PassStyle(n) && c.Text? && Literal(c.t)
    requires At(ps, o, ChunkAt(c, n)) && e == o + |ChunkAt(c, n)|
    ensures Pass(ps, st, o) == ChunkAt(c, n + 1) + Pass(ps, st, e)
  {
    var a := ChunkAt(c, n + 1);
    PlainNoChar(c.t, st);
    PassCopyAt(ps, st, o, a, e);
  }

  /** Pass `n` copies a span an earlier pass tagged. */
  lemma {:induction false} ChunkPassTagged(ps: Inline, c: Chunk, n: nat, st: Style, o: nat, e: nat)
    requires n < 4 && st == PassStyle(n) && c.Span? && Order(c.style) < n && Literal(c.t)
    requires At(ps, o, ChunkAt(c, n)) && e == o + |ChunkAt(c, n)|
    ensures Pass(ps, st, o) == ChunkAt(c, n + 1) + Pass(ps, st, e)
  {
    var a := ChunkAt(c, n + 1);
    TaggedNoChar(c.style, c.t, st);
    PassCopyAt(ps, st, o, a, e);
  }

  /** Pass `n` tags a span of its own style. */
  lemma {:induction false} ChunkPassOwn(ps: Inline, c: Chunk, n: nat, st: Style, o: nat, e: nat)
    requires n < 4 && st == PassStyle(n) && c.Span? && Order(c.style) == n && Literal(c.t)
    requires At(ps, o, ChunkAt(c, n)) && e == o + |ChunkAt(c, n)|
    ensures Pass(ps, st, o) == ChunkAt(c, n + 1) + Pass(ps, st, e)
  {
    var a := ChunkAt(c, n + 1);
    PassSpanAt(ps, st, o, c.t, a, e);
  }

  /** Pass `n` copies a later span whose marker is made of another character. */
  lemma {:induction false} ChunkPassOther(ps: Inline, c: Chunk, n: nat, st: Style, o: nat, e: nat)
    requires n < 4 && st == PassStyle(n) && c.Span? && Order(c.style) > n && MarkerChar(c.style) != MarkerChar(st)
    requires Literal(c.t) && At(ps, o, ChunkAt(c, n)) && e == o + |ChunkAt(c, n)|
    ensures Pass(ps, st, o) == ChunkAt(c, n + 1) + Pass(ps, st, e)
  {
    var a := ChunkAt(c, n + 1);
    OtherSpanNoChar(c.style, c.t, st);
    PassCopyAt(ps, st, o, a, e);
  }

  /** Pass `n` copies a later span with a shorter marker of the same character. */
  lemma {:induction false} ChunkPassShorter(ps: Inline, c: Chunk, n: nat, st: Style, o: nat, e: nat)
    requires n < 4 && st == PassStyle(n) && c.Span? && Order(c.style) > n && MarkerChar(c.style) == MarkerChar(st)
    requires Literal(c.t) && c.t != [] && At(ps, o, ChunkAt(c, n)) && e == o + |ChunkAt(c, n)|
    requires e == |ps| || NoMarkerPiece(ps[e])
    ensures Pass(ps, st, o) == ChunkAt(c, n + 1) + Pass(ps, st, e)
  {
    var a := ChunkAt(c, n + 1);
    LaterIsShorter(st, c.style);
    PassLongerAt(ps, c.style, st, c.t, o, a, e);
  }

  /** Pass `n` turns the chunk at `o` into the chunk after `n + 1` passes, and carries on at `e`, right after it. */
  lemma {:induction false} ChunkPass(ps: Inline, c: Chunk, n: nat, st: Style, o: nat, e: nat)
    requires n < 4 && st == PassStyle(n) && Literal(c.t) && c.t != []
    requires At(ps, o, ChunkAt(c, n)) && e == o + |ChunkAt(c, n)|
    requires c.Span? ==> e == |ps| || NoMarkerPiece(ps[e])
    ensures Pass(ps, st, o) == ChunkAt(c, n + 1) + Pass(ps, st, e)
  {
    if c.Text? {
      ChunkPassText(ps, c, n, st, o, e);
    } else if Order(c.style) < n {
      ChunkPassTagged(ps, c, n, st, o, e);
    } else if Order(c.style) == n {
      ChunkPassOwn(ps, c, n, st, o, e);
    } else if MarkerChar(c.style) != MarkerChar(st) {
      ChunkPassOther(ps, c, n, st, o, e);
    } else {
      ChunkPassShorter(ps, c, n, st, o, e);
    }
  }

  /** Pass `n` over the chunks that stand from `o` to the end of `ps`. */
  lemma {:induction false} PassStageFrom(ps: Inline, cs: seq<Chunk>, n: nat, st: Style, o: nat)
    requires n < 4 && st == PassStyle(n) && WellSeparated(cs)
    requires At(ps, o, Stage(cs, n)) && o + |Stage(cs, n)| == |ps|
    ensures Pass(ps, st, o) == Stage(cs, n + 1)
    decreases |cs|
  {
    if cs != [] {
      var rest := cs[1..];
      var e := FirstChunkPass(ps, cs, rest, n, st, o);
      PassStageFrom(ps, rest, n, st, e);
      Rejoin(Pass(ps, st, o), ChunkAt(cs[0], n + 1), Pass(ps, st, e), Stage(rest, n + 1), Stage(cs, n + 1));
    }
  }

  /** Pass `n` over the first chunk of a line: it leaves the rest of the line at `e`, still a well-separated line after `n` passes. */
  lemma {:induction false} FirstChunkPass(ps: Inline, cs: seq<Chunk>, rest: seq<Chunk>, n: nat, st: Style, o: nat) returns (e: nat)
    requires cs != [] && rest == cs[1..]
    requires n < 4 && st == PassStyle(n) && WellSeparated(cs)
    requires At(ps, o, Stage(cs, n)) && o + |Stage(cs, n)| == |ps|
    ensures WellSeparated(rest) && At(ps, e, Stage(rest, n)) && e + |Stage(rest, n)| == |ps|
    ensures Pass(ps, st, o) == ChunkAt(cs[0], n + 1) + Pass(ps, st, e)
    ensures Stage(cs, n + 1) == ChunkAt(cs[0], n + 1) + Stage(rest, n + 1)
  {
    var c := cs[0];
    e := o + |ChunkAt(c, n)|;
    StageSplit(ps, cs, c, rest, n, o, e);
    WellSeparatedTail(cs, rest);
    WellSeparatedHead(cs, c);
    if c.Span? {
      AfterSpan(ps, cs, rest, n, e);
    }
    ChunkPass(ps, c, n, st, o, e);
  }

  lemma {:induction false} Rejoin(p: Inline, a: Inline, q: Inline, r: Inline, whole: Inline)
    requires p == a + q && q == r && whole == a + r
    ensures p == whole
  {
  }

  /** The first chunk stands at `o` and the rest of the line after it, from `e`. */
  lemma {:induction false} StageSplit(ps: Inline, cs: seq<Chunk>, c: Chunk, rest: seq<Chunk>, n: nat, o: nat, e: nat)
    requires cs != [] && c == cs[0] && rest == cs[1..] && e == o + |ChunkAt(c, n)|
    requires At(ps, o, Stage(cs, n)) && o + |Stage(cs, n)| == |ps|
    ensures At(ps, o, ChunkAt(c, n)) && At(ps, e, Stage(rest, n)) && e + |Stage(rest, n)| == |ps|
  {
    var a, b := ChunkAt(c, n), Stage(rest, n);
    assert Stage(cs, n) == a + b;
    AtSplit(ps, o, a, b);
  }

  /** After a span comes the end of the line or the first character of some text, which is no marker character. */
  lemma {:induction false} AfterSpan(ps: Inline, cs: seq<Chunk>, rest: seq<Chunk>, n: nat, e: nat)
    requires cs != [] && rest == cs[1..] && WellSeparated(cs) && cs[0].Span?
    requires At(ps, e, Stage(rest, n)) && e + |Stage(rest, n)| == |ps|
    ensures e == |ps| || NoMarkerPiece(ps[e])
  {
    if rest != [] {
      var t := rest[0].t;
      assert cs[1].Text? && Literal(cs[1].t) && cs[1].t != [];
      assert Stage(rest, n) == Plain(t) + Stage(rest[1..], n);
      AtPiece(ps, e, Stage(rest, n), 0);
    }
  }

  lemma {:induction false} WellSeparatedHead(cs: seq<Chunk>, c: Chunk)
    requires cs != [] && c == cs[0] && WellSeparated(cs)
    ensures Literal(c.t) && c.t != []
  {
  }

  lemma {:induction false} WellSeparatedTail(cs: seq<Chunk>, rest: seq<Chunk>)
    requires cs != [] && rest == cs[1..] && WellSeparated(cs)
    ensures WellSeparated(rest)
  {
    assert forall i :: 0 <= i < |cs| - 1 ==> rest[i] == cs[i + 1];
  }

  /** A well-separated line one chunk longer: the new chunk holds literal text, and a span is not followed by a span. */
  lemma {:induction false} WellSeparatedCons(c: Chunk, cs: seq<Chunk>, line: seq<Chunk>)
    requires line == [c] + cs && Literal(c.t) && c.t != [] && WellSeparated(cs)
    requires c.Span? && cs != [] ==> cs[0].Text?
    ensures WellSeparated(line)
  {
    assert forall i :: 0 < i < |line| ==> line[i] == cs[i - 1];
  }

  /** Pass `n` takes the line after `n` passes, `ps`, to the line after `n + 1`, `qs`. */
  lemma {:induction false} PassStage(cs: seq<Chunk>, n: nat, st: Style, ps: Inline, qs: Inline)
    requires n < 4 && WellSeparated(cs) && st == PassStyle(n) && ps == Stage(cs, n) && qs == Stage(cs, n + 1)
    ensures Pass(ps, st, 0) == qs
  {
    assert ps[0..|ps|] == ps;
    PassStageFrom(ps, cs, n, st, 0);
  }

  /** Before any pass the line is its plain text. */
  lemma {:induction false} PlainSource(cs: seq<Chunk>)
    ensures Plain(Source(cs)) == Stage(cs, 0)
    decreases |cs|
  {
    if cs != [] {
      PlainAppend(ChunkSource(cs[0]), Source(cs[1..]));
      PlainSource(cs[1..]);
    }
  }

  /** After all four passes every span is tagged. */
  lemma {:induction false} StageRendered(cs: seq<Chunk>)
    ensures Stage(cs, 4) == Rendered(cs)
    decreases |cs|
  {
    if cs != [] {
      StageRendered(cs[1..]);
    }
  }

  /** formatInline is two pairs of passes over the plain text. */
  lemma {:induction false} FormatInlineHalves(s: string, p0: Inline, p2: Inline, p4: Inline)
    requires p0 == Plain(s)
    requires Pass(Pass(p0, StrongItalic, 0), Strong, 0) == p2
    requires Pass(Pass(p2, Emphasis, 0), Code, 0) == p4
    ensures FormatInline(s) == p4
  {
  }

  /** The two star-pair passes tag every `***` and `**` span. */
  lemma {:induction false} StrongPasses(cs: seq<Chunk>)
    requires WellSeparated(cs)
    ensures Pass(Pass(Stage(cs, 0), StrongItalic, 0), Strong, 0) == Stage(cs, 2)
  {
    var p0, p1, p2 := Stage(cs, 0), Stage(cs, 1), Stage(cs, 2);
    PassStage(cs, 0, StrongItalic, p0, p1);
    PassStage(cs, 1, Strong, p1, p2);
  }

  /** The last two passes tag every `*` and backtick span. */
  lemma {:induction false} EmphasisCodePasses(cs: seq<Chunk>)
    requires WellSeparated(cs)
    ensures Pass(Pass(Stage(cs, 2), Emphasis, 0), Code, 0) == Stage(cs, 4)
  {
    var p2, p3, p4 := Stage(cs, 2), Stage(cs, 3), Stage(cs, 4);
    PassStage(cs, 2, Emphasis, p2, p3);
    PassStage(cs, 3, Code, p3, p4);
  }

  /** formatInline replaces every span on the line, of every style, and leaves the text between them as it is. */
  lemma {:induction false} FormatInlineLine(cs: seq<Chunk>)
    requires WellSeparated(cs)
    ensures FormatInline(Source(cs)) == Rendered(cs)
  {
    PlainSource(cs);
    StageRendered(cs);
    StrongPasses(cs);
    EmphasisCodePasses(cs);
    FormatInlineHalves(Source(cs), Stage(cs, 0), Stage(cs, 2), Stage(cs, 4));
  }

  /** The source and rendering of a line one chunk longer. */
  lemma {:induction false} ChunkCons(c: Chunk, cs: seq<Chunk>, line: seq<Chunk>)
    requires line == [c] + cs
    ensures Source(line) == ChunkSource(c) + Source(cs)
    ensures Rendered(line) == ChunkRendered(c) + Rendered(cs)
  {
    assert line[1..] == cs;
  }

  /** The text of a span, some text and a second span, read back left to right. */
  lemma {:induction false} Regroup3<T>(m: seq<T>, x: seq<T>, y: seq<T>, z: seq<T>, p: seq<T>, q: seq<T>, r: seq<T>)
    requires r == m + z + m + [] && q == y + r && p == m + x + m + q
    ensures p == m + x + m + y + m + z + m
  {
    assert r == m + z + m;
    assert q == y + m + z + m;
  }

  /** A rendering of three chunks, read back left to right. */
  lemma {:induction false} Flatten3<T>(p: seq<T>, a: seq<T>, b: seq<T>, c: seq<T>, q1: seq<T>, q2: seq<T>)
    requires p == a + q1 && q1 == b + q2 && q2 == c + []
    ensures p == a + b + c
  {
  }

  /** A line of two spans of one style with text between them. */
  function TwoSpanLine(st: Style, x: string, y: string, z: string): seq<Chunk> {
    [Span(st, x), Text(y), Span(st, z)]
  }

  /** The markdown text of a two-span line. */
  lemma {:induction false} TwoSpanSource(st: Style, x: string, y: string, z: string)
    ensures Source(TwoSpanLine(st, x, y, z)) == Marker(st) + x + Marker(st) + y + Marker(st) + z + Marker(st)
  {
    var c2 := [Span(st, z)];
    ChunkCons(Span(st, z), [], c2);
    var c1 := [Text(y)] + c2;
    ChunkCons(Text(y), c2, c1);
    var cs := [Span(st, x)] + c1;
    ChunkCons(Span(st, x), c1, cs);
    assert cs == TwoSpanLine(st, x, y, z);
    Regroup3(Marker(st), x, y, z, Source(cs), Source(c1), Source(c2));
  }

  /** The rendering of a two-span line. */
  lemma {:induction false} TwoSpanRendered(st: Style, x: string, y: string, z: string)
    ensures Rendered(TwoSpanLine(st, x, y, z)) == Tagged(st, Plain(x)) + Plain(y) + Tagged(st, Plain(z))
  {
    var c2 := [Span(st, z)];
    ChunkCons(Span(st, z), [], c2);
    var c1 := [Text(y)] + c2;
    ChunkCons(Text(y), c2, c1);
    var cs := [Span(st, x)] + c1;
    ChunkCons(Span(st, x), c1, cs);
    assert cs == TwoSpanLine(st, x, y, z);
    Flatten3(Rendered(cs), ChunkRendered(Span(st, x)), ChunkRendered(Text(y)), ChunkRendered(Span(st, z)), Rendered(c1), Rendered(c2));
  }

  /** A two-span line of non-empty literal text is well separated. */
  lemma {:induction false} TwoSpanSeparated(st: Style, x: string, y: string, z: string)
    requires Literal(x) && Literal(y) && Literal(z) && x != [] && y != [] && z != []
    ensures WellSeparated(TwoSpanLine(st, x, y, z))
  {
    var c2 := [Span(st, z)];
    WellSeparatedCons(Span(st, z), [], c2);
    var c1 := [Text(y)] + c2;
    WellSeparatedCons(Text(y), c2, c1);
    var cs := [Span(st, x)] + c1;
    WellSeparatedCons(Span(st, x), c1, cs);
    assert cs == TwoSpanLine(st, x, y, z);
  }

  /** Two spans of one style with text between them: formatInline tags both,
      not only the first, and keeps the text between them. */
  lemma {:induction false} FormatInlineTwoSpans(st: Style, x: string, y: string, z: string)
    requires Literal(x) && Literal(y) && Literal(z) && x != [] && y != [] && z != []
    ensures FormatInline(Marker(st) + x + Marker(st) + y + Marker(st) + z + Marker(st))
         == Tagged(st, Plain(x)) + Plain(y) + Tagged(st, Plain(z))
  {
    var cs := TwoSpanLine(st, x, y, z);
    TwoSpanSource(st, x, y, z);
    TwoSpanRendered(st, x, y, z);
    TwoSpanSeparated(st, x, y, z);
    FormatInlineLine(cs);
  }

  /** The text of three spans with text between them, read back left to right. */
  lemma {:induction false} Regroup5<T>(m1: seq<T>, x: seq<T>, y: seq<T>, m2: seq<T>, z: seq<T>, w: seq<T>, m3: seq<T>, v: seq<T>,
                    p: seq<T>, q: seq<T>)
    requires q == m2 + z + m2 + (w + (m3 + v + m3 + [])) && p == m1 + x + m1 + (y + q)
    ensures p == m1 + x + m1 + y + m2 + z + m2 + w + m3 + v + m3
  {
    assert q == m2 + z + m2 + w + m3 + v + m3;
  }

  /** A rendering of five chunks, read back left to right. */
  lemma {:induction false} Flatten5<T>(p: seq<T>, a: seq<T>, b: seq<T>, c: seq<T>, d: seq<T>, e: seq<T>, q1: seq<T>, q2: seq<T>, q3: seq<T>, q4: seq<T>)
    requires p == a + q1 && q1 == b + q2 && q2 == c + q3 && q3 == d + q4 && q4 == e + []
    ensures p == a + b + c + d + e
  {
  }

  /** A line of three spans with text between them. */
  function ThreeSpanLine(s1: Style, x: string, y: string, s2: Style, z: string, w: string, s3: Style, v: string): seq<Chunk> {
    [Span(s1, x), Text(y), Span(s2, z), Text(w), Span(s3, v)]
  }

  /** The markdown text of a three-span line. */
  lemma {:induction false} ThreeSpanSource(s1: Style, x: string, y: string, s2: Style, z: string, w: string, s3: Style, v: string)
    ensures Source(ThreeSpanLine(s1, x, y, s2, z, w, s3, v))
         == Marker(s1) + x + Marker(s1) + y + Marker(s2) + z + Marker(s2) + w + Marker(s3) + v + Marker(s3)
  {
    var c4 := [Span(s3, v)];
    ChunkCons(Span(s3, v), [], c4);
    var c3 := [Text(w)] + c4;
    ChunkCons(Text(w), c4, c3);
    var c2 := [Span(s2, z)] + c3;
    ChunkCons(Span(s2, z), c3, c2);
    var c1 := [Text(y)] + c2;
    ChunkCons(Text(y), c2, c1);
    var cs := [Span(s1, x)] + c1;
    ChunkCons(Span(s1, x), c1, cs);
    assert cs == ThreeSpanLine(s1, x, y, s2, z, w, s3, v);
    Regroup5(Marker(s1), x, y, Marker(s2), z, w, Marker(s3), v, Source(cs), Source(c2));
  }

  /** The rendering of a three-span line. */
  lemma {:induction false} ThreeSpanRendered(s1: Style, x: string, y: string, s2: Style, z: string, w: string, s3: Style, v: string)
    ensures Rendered(ThreeSpanLine(s1, x, y, s2, z, w, s3, v))
         == Tagged(s1, Plain(x)) + Plain(y) + Tagged(s2, Plain(z)) + Plain(w) + Tagged(s3, Plain(v))
  {
    var c4 := [Span(s3, v)];
    ChunkCons(Span(s3, v), [], c4);
    var c3 := [Text(w)] + c4;
    ChunkCons(Text(w), c4, c3);
    var c2 := [Span(s2, z)] + c3;
    ChunkCons(Span(s2, z), c3, c2);
    var c1 := [Text(y)] + c2;
    ChunkCons(Text(y), c2, c1);
    var cs := [Span(s1, x)] + c1;
    ChunkCons(Span(s1, x), c1, cs);
    assert cs == ThreeSpanLine(s1, x, y, s2, z, w, s3, v);
    Flatten5(Rendered(cs), ChunkRendered(Span(s1, x)), ChunkRendered(Text(y)), ChunkRendered(Span(s2, z)), ChunkRendered(Text(w)),
             ChunkRendered(Span(s3, v)), Rendered(c1), Rendered(c2), Rendered(c3), Rendered(c4));
  }

  /** A three-span line of non-empty literal text is well separated. */
  lemma {:induction false} ThreeSpanSeparated(s1: Style, x: string, y: string, s2: Style, z: string, w: string, s3: Style, v: string)
    requires Literal(x) && Literal(y) && Literal(z) && Literal(w) && Literal(v)
    requires x != [] && y != [] && z != [] && w != [] && v != []
    ensures WellSeparated(ThreeSpanLine(s1, x, y, s2, z, w, s3, v))
  {
    var c4 := [Span(s3, v)];
    WellSeparatedCons(Span(s3, v), [], c4);
    var c3 := [Text(w)] + c4;
    WellSeparatedCons(Text(w), c4, c3);
    var c2 := [Span(s2, z)] + c3;
    WellSeparatedCons(Span(s2, z), c3, c2);
    var c1 := [Text(y)] + c2;
    WellSeparatedCons(Text(y), c2, c1);
    var cs := [Span(s1, x)] + c1;
    WellSeparatedCons(Span(s1, x), c1, cs);
    assert cs == ThreeSpanLine(s1, x, y, s2, z, w, s3, v);
  }

  /** Three spans, each of any style, with text between them: each is tagged
      in its own style and the text between them is kept. */
  lemma {:induction false} FormatInlineThreeSpans(s1: Style, x: string, y: string, s2: Style, z: string, w: string, s3: Style, v: string)
    requires Literal(x) && Literal(y) && Literal(z) && Literal(w) && Literal(v)
    requires x != [] && y != [] && z != [] && w != [] && v != []
    ensures FormatInline(Marker(s1) + x + Marker(s1) + y + Marker(s2) + z + Marker(s2) + w + Marker(s3) + v + Marker(s3))
         == Tagged(s1, Plain(x)) + Plain(y) + Tagged(s2, Plain(z)) + Plain(w) + Tagged(s3, Plain(v))
  {
    var cs := ThreeSpanLine(s1, x, y, s2, z, w, s3, v);
    ThreeSpanSource(s1, x, y, s2, z, w, s3, v);
    ThreeSpanRendered(s1, x, y, s2, z, w, s3, v);
    ThreeSpanSeparated(s1, x, y, s2, z, w, s3, v);
    FormatInlineLine(cs);
  }

  /** A line mixing the three common styles. */
  lemma {:induction false} FormatInlineMixed()
    ensures FormatInline("**bold** and *italic* and `code`")
         == Tagged(Strong, Plain("bold")) + Plain(" and ") + Tagged(Emphasis, Plain("italic"))
            + Plain(" and ") + Tagged(Code, Plain("code"))
  {
    var t := "**" + "bold";
    assert t == "**bold";
    t := t + "**" + " and ";
    assert t == "**bold** and ";
    t := t + "*" + "italic";
    assert t == "**bold** and *italic";
    t := t + "*" + " and ";
    assert t == "**bold** and *italic* and ";
    t := t + "`" + "code" + "`";
    assert t == "**bold** and *italic* and `code`";
    FormatInlineThreeSpans(Strong, "bold", " and ", Emphasis, "italic", " and ", Code, "code");
  }
}
