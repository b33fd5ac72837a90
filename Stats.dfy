/** The catalogue statistics of the backend's `GET /stats/stats` handler:
    four histograms built by one pass over the stored series, and the
    summaries derived from them. Python's `float` and `int` conversions are
    parameters; arithmetic is exact. */
module Stats {
  import opened Text

  // =====================================================================
  // Errors the handler can raise

  /** The exceptions that end the handler: `IndexError` from `findall(...)[0]`,
      `ValueError` from `float`, `int` or `max` of an empty dict,
      `ZeroDivisionError` from an average over no keys, and `NotFound`, the
      HTTP 404 the handler raises itself. */
  datatype Error = IndexError | ValueError | ZeroDivisionError | NotFound

  datatype Result<+T> = Success(value: T) | Failure(error: Error)
  {
    predicate IsFailure() {
      Failure?
    }

    function PropagateFailure<U>(): Result<U>
      requires Failure?
    {
      Failure(error)
    }

    function Extract(): T
      requires Success?
    {
      value
    }
  }

  // =====================================================================
  // A stored series, as far as the statistics read it

  /** The columns of a series that the statistics read; each is a nullable string. */
  datatype Serie = Serie(released: Option<string>, imdbRating: Option<string>, totalSeasons: Option<string>, genre: Option<string>)

  /** Python truthiness of a nullable string: present and non-empty. */
  predicate Truthy(field: Option<string>) {
    field.Some? && field.value != []
  }

  // =====================================================================
  // Keys extracted from one field

  predicate IsDigit(c: char) {
    '0' <= c <= '9'
  }

  /** Four digits start at position `i` of `s`: a match of `\d{4}`. */
  predicate YearAt(s: string, i: int) {
    0 <= i && i + 4 <= |s| && IsDigit(s[i]) && IsDigit(s[i + 1]) && IsDigit(s[i + 2]) && IsDigit(s[i + 3])
  }

  /** The leftmost match of `\d{4}` at or after `from`. */
  function FindYear(s: string, from: nat): (r: Option<nat>)
    decreases |s| - from
    ensures r.Some? ==> from <= r.value && YearAt(s, r.value)
    ensures forall i :: from <= i && (r.None? || i < r.value) ==> !YearAt(s, i)
  {
    if from + 4 > |s| then None
    else if YearAt(s, from) then Some(from)
    else FindYear(s, from + 1)
  }

  /** `re.findall(r'\d{4}', released)[0]`: the first match, or an IndexError when there is none. */
  function ReleaseYear(released: string): (r: Result<string>)
    ensures r.Failure? <==> forall i :: !YearAt(released, i)
    ensures r.Failure? ==> r.error == IndexError
    ensures r.Success? ==> exists i :: YearAt(released, i) && r.value == released[i..i + 4] &&
                                       (forall j :: 0 <= j < i ==> !YearAt(released, j))
  {
    match FindYear(released, 0)
    case None => Failure(IndexError)
    case Some(i) => Success(released[i..i + 4])
  }

  /** `genre.split(', ')[0]`: the genre up to the first ", ", or all of it.
      It is a prefix free of ", ", and it ends the genre or is followed by ", ". */
  function FirstGenre(genre: string): (g: string)
    ensures StartsWith(genre, g)
    ensures forall j :: !OccursAt(g, ", ", j)
    ensures g == genre || OccursAt(genre, ", ", |g|)
  {
    match IndexOf(genre, ", ")
    case None => genre
    case Some(i) =>
      var g := genre[..i];
      assert forall j :: OccursAt(g, ", ", j) ==> OccursAt(genre, ", ", j) by {
        forall j | OccursAt(g, ", ", j) ensures OccursAt(genre, ", ", j) {
          assert g[j..j + 2] == genre[j..j + 2];
        }
      }
      g
  }

  // =====================================================================
  // Python dicts with insertion order

  /** A dict from keys to counts; `keys` is its insertion order. */
  datatype Dict = Dict(keys: seq<string>, count: map<string, nat>)
  {
    /** The keys are listed once each, and exactly the keys are mapped. */
    ghost predicate Valid() {
      && (forall i, j :: 0 <= i < j < |keys| ==> keys[i] != keys[j])
      && (forall k :: k in count <==> k in keys)
    }

    /** `d.get(k, default)`. */
    function Get(k: string, default: nat): nat {
      if k in count then count[k] else default
    }

    /** `d[k] = v`: a new key goes to the end of the order, an existing one keeps its place. */
    function Set(k: string, v: nat): (r: Dict)
      requires Valid()
      ensures r.Valid()
      ensures r.count == count[k := v]
      ensures k in count ==> r.keys == keys
      ensures k !in count ==> r.keys == keys + [k]
    {
      if k in count then Dict(keys, count[k := v]) else Dict(keys + [k], count[k := v])
    }
  }

  const EmptyDict := Dict([], map[])

  /** `d[k] = d.get(k, 0) + 1`, the update the loop makes for each key it meets. */
  function Bump(d: Dict, k: string): (r: Dict)
    requires d.Valid()
    ensures r.Valid()
    ensures r.count == d.count[k := d.Get(k, 0) + 1]
    ensures r.keys == if k in d.count then d.keys else d.keys + [k]
  {
    d.Set(k, d.Get(k, 0) + 1)
  }

  /** The dict the loop builds from the keys it meets, in order; it holds at most one key per key met. */
  function Histogram(xs: seq<string>): (d: Dict)
    decreases |xs|
    ensures d.Valid()
    ensures |d.keys| <= |xs|
  {
    if xs == [] then EmptyDict else Bump(Histogram(xs[..|xs| - 1]), xs[|xs| - 1])
  }

  /** Each key is counted as often as it occurs, and only occurring keys are present. */
  lemma {:induction false} HistogramCounts(xs: seq<string>)
    ensures forall k :: k in Histogram(xs).count <==> k in xs
    ensures forall k :: Histogram(xs).Get(k, 0) == multiset(xs)[k]
    decreases |xs|
  {
    if xs != [] {
      var init, x := xs[..|xs| - 1], xs[|xs| - 1];
      assert xs == init + [x];
      HistogramCounts(init);
    }
  }

  /** The position of the first occurrence of `k` in `xs`. */
  function FirstIndex(xs: seq<string>, k: string): (i: nat)
    requires k in xs
    ensures i < |xs| && xs[i] == k
    ensures forall j :: 0 <= j < i ==> xs[j] != k
  {
    if xs[0] == k then 0 else 1 + FirstIndex(xs[1..], k)
  }

  /** A later element keeps the first occurrence of an earlier key. */
  lemma {:induction false} FirstIndexAppend(xs: seq<string>, x: string, k: string)
    requires k in xs
    ensures FirstIndex(xs + [x], k) == FirstIndex(xs, k)
  {
    assert (xs + [x])[FirstIndex(xs, k)] == k;
  }

  /** The keys appear in the order of their first occurrence. */
  lemma {:induction false} HistogramOrder(xs: seq<string>)
    ensures FirstOccurrenceOrder(Histogram(xs).keys, xs)
    decreases |xs|
  {
    if xs != [] {
      var init, x := xs[..|xs| - 1], xs[|xs| - 1];
      assert xs == init + [x];
      HistogramOrder(init);
      HistogramOrderSnoc(init, x);
    }
  }

  /** The keys of a histogram are listed in the order their first occurrences have in `xs`. */
  ghost predicate FirstOccurrenceOrder(keys: seq<string>, xs: seq<string>) {
    && (forall k :: k in keys ==> k in xs)
    && (forall i, j :: 0 <= i < j < |keys| ==> FirstIndex(xs, keys[i]) < FirstIndex(xs, keys[j]))
  }

  /** Meeting one more key keeps the keys in the order of first occurrence. */
  lemma {:induction false} HistogramOrderSnoc(init: seq<string>, x: string)
    requires FirstOccurrenceOrder(Histogram(init).keys, init)
    ensures FirstOccurrenceOrder(Histogram(init + [x]).keys, init + [x])
  {
    var d := Histogram(init);
    HistogramSnoc(init, x);
    HistogramCounts(init);
    FirstOccurrenceKept(d.keys, init, x);
    if x !in d.count {
      FirstOccurrenceNew(d.keys, init, x);
    }
  }

  /** Keys already met keep their first occurrences when one more key is met. */
  lemma {:induction false} FirstOccurrenceKept(keys: seq<string>, init: seq<string>, x: string)
    requires FirstOccurrenceOrder(keys, init)
    ensures FirstOccurrenceOrder(keys, init + [x])
    ensures forall i :: 0 <= i < |keys| ==> FirstIndex(init + [x], keys[i]) == FirstIndex(init, keys[i])
  {
    forall i | 0 <= i < |keys| ensures FirstIndex(init + [x], keys[i]) == FirstIndex(init, keys[i]) {
      FirstIndexAppend(init, x, keys[i]);
    }
  }

  /** A key met for the first time goes after all the keys met before. */
  lemma {:induction false} FirstOccurrenceNew(keys: seq<string>, init: seq<string>, x: string)
    requires FirstOccurrenceOrder(keys, init) && x !in init
    ensures FirstOccurrenceOrder(keys + [x], init + [x])
  {
    var xs, keys' := init + [x], keys + [x];
    FirstOccurrenceKept(keys, init, x);
    assert FirstIndex(xs, x) == |init|;
    forall i, j | 0 <= i < j < |keys'| ensures FirstIndex(xs, keys'[i]) < FirstIndex(xs, keys'[j]) {
      assert keys'[i] == keys[i];
      if j < |keys| {
        assert keys'[j] == keys[j];
      }
    }
  }

  lemma {:induction false} HistogramSnoc(xs: seq<string>, x: string)
    ensures Histogram(xs + [x]) == Bump(Histogram(xs), x)
  {
    assert (xs + [x])[..|xs|] == xs;
  }

  // =====================================================================
  // The total of a dict's counts

  /** The counts of `keys`, added up. */
  function SumCounts(keys: seq<string>, count: map<string, nat>): nat
    requires forall k :: k in keys ==> k in count
    decreases |keys|
  {
    if keys == [] then 0 else SumCounts(keys[..|keys| - 1], count) + count[keys[|keys| - 1]]
  }

  function Total(d: Dict): nat
    requires d.Valid()
  {
    SumCounts(d.keys, d.count)
  }

  /** Changing the count of a key that is not listed changes no total. */
  lemma {:induction false} SumCountsOther(keys: seq<string>, count: map<string, nat>, k: string, v: nat)
    requires forall x :: x in keys ==> x in count
    requires k !in keys
    ensures SumCounts(keys, count[k := v]) == SumCounts(keys, count)
    decreases |keys|
  {
    if keys != [] {
      SumCountsOther(keys[..|keys| - 1], count, k, v);
    }
  }

  /** Adding one to a listed key's count adds one to the total. */
  lemma {:induction false} SumCountsBump(keys: seq<string>, count: map<string, nat>, k: string)
    requires forall x :: x in keys ==> x in count
    requires forall i, j :: 0 <= i < j < |keys| ==> keys[i] != keys[j]
    requires k in keys
    ensures SumCounts(keys, count[k := count[k] + 1]) == SumCounts(keys, count) + 1
    decreases |keys|
  {
    var init, last := keys[..|keys| - 1], keys[|keys| - 1];
    if last == k {
      assert k !in init;
      SumCountsOther(init, count, k, count[k] + 1);
    } else {
      assert k in init by {
        var i :| 0 <= i < |keys| && keys[i] == k;
        assert init[i] == k;
      }
      SumCountsBump(init, count, k);
    }
  }

  /** The counts of a histogram add up to the number of keys met. */
  lemma {:induction false} HistogramTotal(xs: seq<string>)
    ensures Total(Histogram(xs)) == |xs|
    decreases |xs|
  {
    if xs != [] {
      var init, x := xs[..|xs| - 1], xs[|xs| - 1];
      HistogramTotal(init);
      TotalBump(Histogram(init), x);
    }
  }

  /** One more key met is one more in the total. */
  lemma {:induction false} TotalBump(d: Dict, x: string)
    requires d.Valid()
    ensures Total(Bump(d, x)) == Total(d) + 1
  {
    if x in d.count {
      SumCountsBump(d.keys, d.count, x);
    } else {
      TotalBumpNew(d, x);
    }
  }

  lemma {:induction false} TotalBumpNew(d: Dict, x: string)
    requires d.Valid() && x !in d.count
    ensures Total(Bump(d, x)) == Total(d) + 1
  {
    var keys, count := d.keys + [x], d.count[x := 1];
    assert Bump(d, x).keys == keys && Bump(d, x).count == count by {
      assert d.Get(x, 0) == 0;
    }
    assert SumCounts(keys, count) == SumCounts(d.keys, count) + 1 by {
      assert keys[..|d.keys|] == d.keys;
    }
    SumCountsOther(d.keys, d.count, x, 1);
  }


  // =====================================================================
  // sorted(d.items())

  /** Python's `a < b` on str: lexicographic by code point, a proper prefix first. */
  predicate Below(a: string, b: string)
    decreases |a|
  {
    b != [] && (a == [] || a[0] < b[0] || (a[0] == b[0] && Below(a[1..], b[1..])))
  }

  lemma {:induction false} BelowIrreflexive(a: string)
    ensures !Below(a, a)
    decreases |a|
  {
    if a != [] {
      BelowIrreflexive(a[1..]);
    }
  }

  lemma {:induction false} BelowTransitive(a: string, b: string, c: string)
    requires Below(a, b) && Below(b, c)
    ensures Below(a, c)
    decreases |a|
  {
    if a != [] && a[0] == b[0] && b[0] == c[0] {
      BelowTransitive(a[1..], b[1..], c[1..]);
    }
  }

  /** Two different strings are ordered one way or the other. */
  lemma {:induction false} BelowTotal(a: string, b: string)
    requires a != b
    ensures Below(a, b) || Below(b, a)
    decreases |a|
  {
    if a != [] && b != [] && a[0] == b[0] {
      assert a == [a[0]] + a[1..] && b == [b[0]] + b[1..];
      BelowTotal(a[1..], b[1..]);
    }
  }

  type Item = (string, nat)

  /** `d.items()`, in insertion order. */
  function Items(d: Dict): (r: seq<Item>)
    requires d.Valid()
    ensures |r| == |d.keys|
    ensures forall i :: 0 <= i < |r| ==> r[i] == (d.keys[i], d.count[d.keys[i]])
  {
    seq(|d.keys|, i requires 0 <= i < |d.keys| => (d.keys[i], d.count[d.keys[i]]))
  }

  /** The keys of the items strictly increase. */
  predicate Ascending(s: seq<Item>) {
    forall i, j :: 0 <= i < j < |s| ==> Below(s[i].0, s[j].0)
  }

  predicate DistinctKeys(s: seq<Item>) {
    forall i, j :: 0 <= i < j < |s| ==> s[i].0 != s[j].0
  }

  /** `x` put in its place in ascending `s`, whose keys differ from its key. */
  function Insert(x: Item, s: seq<Item>): (r: seq<Item>)
    requires Ascending(s)
    requires forall i :: 0 <= i < |s| ==> s[i].0 != x.0
    decreases |s|
    ensures multiset(r) == multiset(s) + multiset{x}
    ensures Ascending(r)
  {
    if s == [] then [x]
    else if Below(x.0, s[0].0) then
      BelowAfter(x, s);
      [x] + s
    else
      BelowTotal(x.0, s[0].0);
      var rest := Insert(x, s[1..]);
      assert s == [s[0]] + s[1..];
      BelowHead(s[0], rest, s[1..], x);
      [s[0]] + rest
  }

  /** An item below the head of ascending `s` is below all of `s`. */
  lemma {:induction false} BelowAfter(x: Item, s: seq<Item>)
    requires Ascending(s) && s != [] && Below(x.0, s[0].0)
    ensures Ascending([x] + s)
  {
    forall j | 1 <= j < |s| + 1 ensures Below(x.0, ([x] + s)[j].0) {
      if j > 1 {
        BelowTransitive(x.0, s[0].0, s[j - 1].0);
      }
    }
  }

  /** An item below everything that `rest` is made of goes in front of it. */
  lemma {:induction false} BelowHead(h: Item, rest: seq<Item>, tail: seq<Item>, x: Item)
    requires Ascending(rest)
    requires multiset(rest) == multiset(tail) + multiset{x}
    requires forall i :: 0 <= i < |tail| ==> Below(h.0, tail[i].0)
    requires Below(h.0, x.0)
    ensures Ascending([h] + rest)
  {
    forall j | 0 <= j < |rest| ensures Below(h.0, rest[j].0) {
      assert rest[j] in multiset(rest);
      if rest[j] != x {
        assert rest[j] in multiset(tail);
        var i :| 0 <= i < |tail| && tail[i] == rest[j];
      }
    }
  }

  /** `sorted(items)`, for items whose keys are distinct. */
  function Sort(s: seq<Item>): (r: seq<Item>)
    requires DistinctKeys(s)
    decreases |s|
    ensures multiset(r) == multiset(s)
    ensures Ascending(r)
  {
    if s == [] then []
    else
      var rest := Sort(s[1..]);
      assert s == [s[0]] + s[1..];
      forall i | 0 <= i < |rest| ensures rest[i].0 != s[0].0 {
        assert rest[i] in multiset(s[1..]);
        var j :| 0 <= j < |s[1..]| && s[1..][j] == rest[i];
        assert s[j + 1] == rest[i];
      }
      Insert(s[0], rest)
  }

  /** `sorted(d.items())`: the items of `d` in ascending key order. */
  function SortedItems(d: Dict): (r: seq<Item>)
    requires d.Valid()
    ensures multiset(r) == multiset(Items(d))
    ensures Ascending(r)
  {
    Sort(Items(d))
  }

  /** A sorted dict has exactly the keys and counts of the dict. */
  lemma {:induction false} SortedItemsContent(d: Dict)
    requires d.Valid()
    ensures forall k, n :: (k, n) in SortedItems(d) <==> k in d.count && d.count[k] == n
  {
    var r, items := SortedItems(d), Items(d);
    forall k, n ensures (k, n) in r <==> (k, n) in items {
      assert (k, n) in r <==> (k, n) in multiset(r);
    }
    forall k | k in d.count ensures (k, d.count[k]) in items {
      var i :| 0 <= i < |d.keys| && d.keys[i] == k;
      assert items[i] == (k, d.count[k]);
    }
  }
}
