/** The string operations of the two runtimes that the modelled code calls:
    JavaScript's String.prototype (split on a line feed, trim, startsWith,
    endsWith, includes, slice) and Python's str (startswith, replace with a
    count, find). A string is a sequence of Unicode scalar values. */
module Text {

  datatype Option<+T> = None | Some(value: T)

  predicate StartsWith(s: string, prefix: string) {
    |prefix| <= |s| && s[..|prefix|] == prefix
  }

  predicate EndsWith(s: string, suffix: string) {
    |suffix| <= |s| && s[|s| - |suffix|..] == suffix
  }

  predicate OccursAt(s: string, p: string, i: int) {
    0 <= i && i + |p| <= |s| && s[i..i + |p|] == p
  }

  /** The leftmost position at or after `from` where `p` occurs in `s`. */
  function IndexOfFrom(s: string, p: string, from: nat): (r: Option<nat>)
    decreases |s| - from
    ensures r.Some? ==> from <= r.value && OccursAt(s, p, r.value)
    ensures forall i :: from <= i && (r.None? || i < r.value) ==> !OccursAt(s, p, i)
  {
    if from + |p| > |s| then None
    else if OccursAt(s, p, from) then Some(from)
    else IndexOfFrom(s, p, from + 1)
  }

  function IndexOf(s: string, p: string): Option<nat> {
    IndexOfFrom(s, p, 0)
  }

  /** JavaScript's `s.includes(p)`. */
  predicate Includes(s: string, p: string): (b: bool)
    ensures b <==> exists i :: OccursAt(s, p, i)
  {
    IndexOf(s, p).Some?
  }

  /** Python's `s.replace(target, replacement, 1)`: the leftmost occurrence of `target`, if any, becomes `replacement`. */
  function ReplaceFirst(s: string, target: string, replacement: string): (r: string)
    ensures !Includes(s, target) ==> r == s
    ensures Includes(s, target) ==> |r| == |s| - |target| + |replacement|
    ensures StartsWith(s, target) ==> r == replacement + s[|target|..]
  {
    match IndexOf(s, target)
    case None => s
    case Some(i) => s[..i] + replacement + s[i + |target|..]
  }

  /** How JavaScript's `slice` reads a position: a negative one counts back
      from the end, and the result is clamped to 0..len. */
  function SlicePosition(i: int, len: nat): (r: nat)
    ensures r <= len
  {
    if i < 0 then (if len + i < 0 then 0 else len + i)
    else if i > len then len
    else i
  }

  /** JavaScript's `s.slice(start, end)`: empty when the clamped start is not before the clamped end. */
  function Slice(s: string, start: int, end: int): (r: string)
    ensures 0 <= start <= end <= |s| ==> r == s[start..end]
    ensures 0 <= start && -|s| <= end < 0 ==> r == if start < |s| + end then s[start..|s| + end] else []
    ensures |r| <= |s|
  {
    var from, to := SlicePosition(start, |s|), SlicePosition(end, |s|);
    if from < to then s[from..to] else []
  }

  // ---------------------------------------------------------------------
  // split('\n')

  /** JavaScript's `s.split('\n')`: the pieces between line feeds, one more piece than there are line feeds. */
  function SplitLines(s: string): (r: seq<string>)
    decreases |s|
    ensures |r| >= 1
    ensures forall k :: 0 <= k < |r| ==> '\n' !in r[k]
  {
    if s == [] then [[]]
    else
      var rest := SplitLines(s[1..]);
      if s[0] == '\n' then [[]] + rest
      else [[s[0]] + rest[0]] + rest[1..]
  }

  /** `lines.join('\n')`, the inverse of SplitLines. */
  function JoinLines(lines: seq<string>): string
    decreases |lines|
  {
    if lines == [] then []
    else if |lines| == 1 then lines[0]
    else lines[0] + "\n" + JoinLines(lines[1..])
  }

  lemma {:induction false} JoinSplitLines(s: string)
    ensures JoinLines(SplitLines(s)) == s
    decreases |s|
  {
    if s != [] {
      var rest := SplitLines(s[1..]);
      JoinSplitLines(s[1..]);
      if s[0] == '\n' {
        assert s == "\n" + s[1..];
      } else if |rest| == 1 {
        assert s == [s[0]] + s[1..];
      } else {
        assert JoinLines(rest) == rest[0] + "\n" + JoinLines(rest[1..]);
        assert s == [s[0]] + s[1..];
      }
    }
  }

  /** A piece without a line feed, followed by a line feed, starts a new piece. */
  lemma {:induction false} SplitLinesCons(a: string, b: string)
    requires '\n' !in a
    ensures SplitLines(a + "\n" + b) == [a] + SplitLines(b)
    decreases |a|
  {
    if a == [] {
      assert a + "\n" + b == "\n" + b;
      assert ("\n" + b)[1..] == b;
    } else {
      SplitLinesCons(a[1..], b);
      assert (a + "\n" + b)[1..] == a[1..] + "\n" + b;
      assert a == [a[0]] + a[1..];
    }
  }

  /** A piece without a line feed splits to itself. */
  lemma {:induction false} SplitLinesSingle(a: string)
    requires '\n' !in a
    ensures SplitLines(a) == [a]
    decreases |a|
  {
    if a != [] {
      SplitLinesSingle(a[1..]);
      assert a == [a[0]] + a[1..];
    }
  }

  lemma {:induction false} SplitJoinLines(lines: seq<string>)
    requires |lines| >= 1
    requires forall k :: 0 <= k < |lines| ==> '\n' !in lines[k]
    ensures SplitLines(JoinLines(lines)) == lines
    decreases |lines|
  {
    if |lines| == 1 {
      SplitLinesSingle(lines[0]);
    } else {
      SplitJoinLines(lines[1..]);
      SplitLinesCons(lines[0], JoinLines(lines[1..]));
    }
  }

  /** Splitting text joined by a line feed splits each side on its own. */
  lemma {:induction false} SplitLinesAppend(x: string, y: string)
    ensures SplitLines(x + "\n" + y) == SplitLines(x) + SplitLines(y)
  {
    var xs, ys := SplitLines(x), SplitLines(y);
    JoinSplitLines(x);
    JoinSplitLines(y);
    JoinLinesAppend(xs, ys);
    SplitJoinLines(xs + ys);
  }

  lemma {:induction false} JoinLinesAppend(xs: seq<string>, ys: seq<string>)
    requires |xs| >= 1 && |ys| >= 1
    ensures JoinLines(xs + ys) == JoinLines(xs) + "\n" + JoinLines(ys)
    decreases |xs|
  {
    if |xs| == 1 {
      assert (xs + ys)[1..] == ys;
    } else {
      JoinLinesAppend(xs[1..], ys);
      assert (xs + ys)[1..] == xs[1..] + ys;
    }
  }

  // ---------------------------------------------------------------------
  // trim()

  /** The WhiteSpace and LineTerminator code points of ECMAScript (tab,
      vertical tab, form feed, space, no-break space, byte order mark, the
      space separators of category Zs, line feed, carriage return, line and
      paragraph separators): what `trim` removes. */
  predicate IsJsSpace(c: char) {
    || c == '\t' || c == '\U{000B}' || c == '\U{000C}' || c == ' '
    || c == '\U{00A0}' || c == '\U{FEFF}' || c == '\U{1680}'
    || ('\U{2000}' <= c <= '\U{200A}') || c == '\U{202F}' || c == '\U{205F}' || c == '\U{3000}'
    || c == '\n' || c == '\r' || c == '\U{2028}' || c == '\U{2029}'
  }

  predicate AllSpace(s: string) {
    forall k :: 0 <= k < |s| ==> IsJsSpace(s[k])
  }

  /** A string `trim` leaves alone: empty, or neither end is white space. */
  predicate IsTrimmed(s: string) {
    s == [] || (!IsJsSpace(s[0]) && !IsJsSpace(s[|s| - 1]))
  }

  /** JavaScript's `s.trim()`: `s` without its leading and trailing white space. */
  function Trim(s: string): (r: string)
    decreases |s|
    ensures IsTrimmed(r)
    ensures |r| <= |s|
  {
    if s == [] then s
    else if IsJsSpace(s[0]) then Trim(s[1..])
    else if IsJsSpace(s[|s| - 1]) then Trim(s[..|s| - 1])
    else s
  }

  /** Trim leaves nothing exactly when the whole string is white space. */
  lemma {:induction false} TrimEmpty(s: string)
    ensures Trim(s) == [] <==> AllSpace(s)
    decreases |s|
  {
    if s != [] {
      if IsJsSpace(s[0]) {
        TrimEmpty(s[1..]);
        assert AllSpace(s) <==> AllSpace(s[1..]) by {
          if AllSpace(s[1..]) {
            forall k | 0 <= k < |s| ensures IsJsSpace(s[k]) {
              if k > 0 { assert s[k] == s[1..][k - 1]; }
            }
          }
        }
      } else if IsJsSpace(s[|s| - 1]) {
        var init := s[..|s| - 1];
        assert init[0] == s[0];
        TrimEmpty(init);
      } else {
        assert !AllSpace(s);
      }
    }
  }

  /** Leading white space makes no difference to Trim. */
  lemma {:induction false} TrimLeading(pre: string, rest: string)
    requires AllSpace(pre)
    ensures Trim(pre + rest) == Trim(rest)
    decreases |pre|
  {
    if pre == [] {
      assert pre + rest == rest;
    } else {
      var s := pre + rest;
      assert s[0] == pre[0];
      assert s[1..] == pre[1..] + rest;
      TrimLeading(pre[1..], rest);
    }
  }

  /** Trailing white space after a trimmed core is all that Trim removes. */
  lemma {:induction false} TrimTrailing(core: string, post: string)
    requires IsTrimmed(core) && AllSpace(post)
    ensures Trim(core + post) == core
    decreases |post|
  {
    var s := core + post;
    if post == [] {
      assert s == core;
    } else if core == [] {
      assert s == post;
      assert s[1..] == [] + post[1..];
      TrimTrailing([], post[1..]);
    } else {
      assert s[0] == core[0];
      assert s[|s| - 1] == post[|post| - 1];
      assert s[..|s| - 1] == core + post[..|post| - 1];
      TrimTrailing(core, post[..|post| - 1]);
    }
  }

  /** Trim removes exactly the white space around a trimmed core, whatever that white space is. */
  lemma {:induction false} TrimAround(pre: string, core: string, post: string)
    requires AllSpace(pre) && AllSpace(post) && IsTrimmed(core)
    ensures Trim(pre + core + post) == core
  {
    assert pre + core + post == pre + (core + post);
    TrimLeading(pre, core + post);
    TrimTrailing(core, post);
  }

  lemma {:induction false} TrimIdempotent(s: string)
    ensures Trim(Trim(s)) == Trim(s)
  {
    TrimAround([], Trim(s), []);
    assert [] + Trim(s) + [] == Trim(s);
  }
}
