/** What formatInline does to one span of each style: the passes for longer
    markers of the same character leave it alone, its own pass wraps the
    text between the markers in the style's tags, and the passes after it
    find nothing left to match. */
module InlineSpans {
  import opened Text
  import opened Markdown

  /** Text no substitution can touch: no `*`, no backtick and no line terminator. */
  predicate Literal(x: string) {
    forall k :: 0 <= k < |x| ==> x[k] != '*' && x[k] != '`' && !IsLineTerminator(x[k])
  }

  /** The character a style's marker is made of. */
  function MarkerChar(st: Style): (c: char)
    ensures forall k :: 0 <= k < |Marker(st)| ==> Marker(st)[k] == c
    ensures c == '*' || c == '`'
  {
    if st == Code then '`' else '*'
  }

  /** In `M + x + M` the marker's character stands exactly in the two markers, and the text between them is `x`. */
  lemma {:induction false} SpanCharAt(st: Style, x: string, k: int)
    requires Literal(x) && 0 <= k < 2 * |Marker(st)| + |x|
    ensures var m := Marker(st);
      k < |m| || k >= |m| + |x| ==> (m + x + m)[k] == MarkerChar(st)
    ensures var m := Marker(st);
      |m| <= k < |m| + |x| ==> (m + x + m)[k] == x[k - |m|] && (m + x + m)[k] != MarkerChar(st)
  {
    var m := Marker(st);
    if k >= |m| + |x| {
      assert (m + x + m)[k] == m[k - |m| - |x|];
    }
  }

  /** The first closing marker at or after `j`, reached through dots only, is what the non-greedy match finds. */
  lemma {:induction false} FindCloseAt(ps: Inline, m: string, j: nat, k: nat)
    requires j <= k && MarkerAt(ps, m, k) && DotsBetween(ps, j, k)
    requires forall q :: j <= q < k ==> !MarkerAt(ps, m, q)
    ensures FindClose(ps, m, j).Some? && FindClose(ps, m, j).value == k
    decreases k - j
  {
    if j < k {
      FindCloseAt(ps, m, j + 1, k);
    }
  }

  /** A pass in which no marker has a closing marker after it changes nothing. */
  lemma {:induction false} PassNoMatch(ps: Inline, st: Style, i: nat)
    requires i <= |ps|
    requires forall k :: i <= k < |ps| && MarkerAt(ps, Marker(st), k) ==> FindClose(ps, Marker(st), k + |Marker(st)|).None?
    ensures Pass(ps, st, i) == ps[i..]
    decreases |ps| - i
  {
    if i < |ps| {
      assert Scan(ps, st, i) == Step([ps[i]], i + 1);
      PassNoMatch(ps, st, i + 1);
      PassKeep(ps, st, i);
    }
  }

  /** A pass over pieces none of which is its marker's character changes nothing. */
  lemma {:induction false} PassNoChar(ps: Inline, st: Style)
    requires forall k :: 0 <= k < |ps| ==> ps[k] != Char(Marker(st)[0])
    ensures Pass(ps, st, 0) == ps
  {
    forall k | 0 <= k < |ps|
      ensures !MarkerAt(ps, Marker(st), k)
    {
      MarkerHead(ps, Marker(st), k);
    }
    PassNoMatch(ps, st, 0);
    assert ps[0..] == ps;
  }

  /** Every marker of a longer run of the same character starts inside the opening marker of `M + x + M`. */
  lemma {:induction false} LongerMarkerStart(st: Style, longer: Style, x: string, k: int)
    requires Literal(x)
    requires MarkerChar(longer) == MarkerChar(st) && |Marker(longer)| > |Marker(st)|
    requires MarkerAt(Plain(Marker(st) + x + Marker(st)), Marker(longer), k)
    ensures k < |Marker(st)|
  {
    var m := Marker(st);
    var ps := Plain(m + x + m);
    MarkerHead(ps, Marker(longer), k);
    SpanCharAt(st, x, k);
  }

  /** The pass for a longer marker of the same character leaves `M + x + M` as it is:
      two of its markers would need more of that character than the span holds. */
  lemma {:induction false} PassLonger(st: Style, longer: Style, x: string)
    requires Literal(x)
    requires MarkerChar(longer) == MarkerChar(st) && |Marker(longer)| > |Marker(st)|
    ensures var ps := Plain(Marker(st) + x + Marker(st)); Pass(ps, longer, 0) == ps
  {
    var m, ml := Marker(st), Marker(longer);
    var ps := Plain(m + x + m);
    forall k | 0 <= k < |ps| && MarkerAt(ps, ml, k)
      ensures FindClose(ps, ml, k + |ml|).None?
    {
      LongerMarkerStart(st, longer, x, k);
      var r := FindClose(ps, ml, k + |ml|);
      if r.Some? {
        LongerMarkerStart(st, longer, x, r.value);
        assert false;
      }
    }
    PassNoMatch(ps, longer, 0);
    assert ps[0..] == ps;
  }

  /** A slice of plain text is the plain text of the slice. */
  lemma {:induction false} PlainSlice(s: string, a: nat, b: nat)
    requires a <= b <= |s|
    ensures Plain(s)[a..b] == Plain(s[a..b])
  {
  }

  /** `M + x + M` cut at its markers. */
  lemma {:induction false} SpanParts(st: Style, x: string)
    ensures var m := Marker(st); var n := |m| + |x|;
      var s := m + x + m; s[..|m|] == m && s[|m|..n] == x && s[n..n + |m|] == m
  {
  }

  /** Its own pass turns `M + x + M` into `x` inside the style's tags. */
  lemma {:induction false} PassSpan(st: Style, x: string)
    requires Literal(x)
    ensures Pass(Plain(Marker(st) + x + Marker(st)), st, 0) == Tagged(st, Plain(x))
  {
    var m := Marker(st);
    var s := m + x + m;
    var ps := Plain(s);
    var n := |m| + |x|;
    SpanParts(st, x);
    PlainSlice(s, 0, |m|);
    PlainSlice(s, |m|, n);
    PlainSlice(s, n, n + |m|);
    forall q | |m| <= q < n
      ensures !MarkerAt(ps, m, q) && Dot(ps[q])
    {
      MarkerHead(ps, m, q);
      SpanCharAt(st, x, q);
    }
    FindCloseAt(ps, m, |m|, n);
    assert Scan(ps, st, 0) == Step(Tagged(st, Plain(x)), |ps|);
  }

  /** The tags around literal text hold neither `*` nor a backtick, so no later pass matches anything in them. */
  lemma {:induction false} TaggedUntouched(st: Style, later: Style, x: string)
    requires Literal(x)
    ensures Pass(Tagged(st, Plain(x)), later, 0) == Tagged(st, Plain(x))
  {
    var t := Tagged(st, Plain(x));
    forall k | 0 <= k < |t|
      ensures t[k] != Char(Marker(later)[0])
    {
      if 0 < k < |t| - 1 {
        assert t[k] == Char(x[k - 1]);
      }
    }
    PassNoChar(t, later);
  }

  /** A code span holds no `*`, so the three star passes leave it alone. */
  lemma {:induction false} CodeUntouched(x: string, star: Style)
    requires Literal(x) && star != Code
    ensures var ps := Plain(Marker(Code) + x + Marker(Code)); Pass(ps, star, 0) == ps
  {
    var ps := Plain(Marker(Code) + x + Marker(Code));
    forall k | 0 <= k < |ps|
      ensures ps[k] != Char(Marker(star)[0])
    {
      SpanCharAt(Code, x, k);
    }
    PassNoChar(ps, star);
  }

  /** A span of any style around literal text comes out of formatInline as that text inside the style's tags. */
  lemma {:induction false} FormatInlineSpan(st: Style, x: string)
    requires Literal(x)
    ensures FormatInline(Marker(st) + x + Marker(st)) == Tagged(st, Plain(x))
  {
    match st
    case StrongItalic =>
      PassSpan(st, x);
      TaggedUntouched(st, Strong, x);
      TaggedUntouched(st, Emphasis, x);
      TaggedUntouched(st, Code, x);
    case Strong =>
      PassLonger(st, StrongItalic, x);
      PassSpan(st, x);
      TaggedUntouched(st, Emphasis, x);
      TaggedUntouched(st, Code, x);
    case Emphasis =>
      PassLonger(st, StrongItalic, x);
      PassLonger(st, Strong, x);
      PassSpan(st, x);
      TaggedUntouched(st, Code, x);
    case Code =>
      CodeUntouched(x, StrongItalic);
      CodeUntouched(x, Strong);
      CodeUntouched(x, Emphasis);
      PassSpan(st, x);
  }
}
