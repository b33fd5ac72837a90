/** The handler `get_stats`: one pass over the series fills four histograms
    (release year, IMDb rating, number of seasons, first genre), then the
    averages, the most popular year, the count of ratings of 8 or more and
    the key-sorted histograms are derived from them. */
module StatsReport {
  import opened Text
  import opened Stats

  // =====================================================================
  // The four columns and the keys they yield

  datatype Column = Released | Rating | Seasons | Genre

  function FieldOf(s: Serie, c: Column): Option<string> {
    match c
    case Released => s.released
    case Rating => s.imdbRating
    case Seasons => s.totalSeasons
    case Genre => s.genre
  }

  /** The key a set field counts under: the release year, the first genre,
      or the rating and the number of seasons as they are stored. */
  function KeyOf(c: Column, v: string): (r: Result<string>)
    ensures r.Failure? ==> c == Released && r.error == IndexError
  {
    match c
    case Released => ReleaseYear(v)
    case Genre => Success(FirstGenre(v))
    case _ => Success(v)
  }

  /** The keys the loop meets in column `c`, in order: one per series whose
      field is set. A release date without a year ends the loop with an
      IndexError. */
  function ColumnKeys(series: seq<Serie>, c: Column): (r: Result<seq<string>>)
    decreases |series|
    ensures r.Failure? ==> c == Released && r.error == IndexError
  {
    if series == [] then Success([])
    else
      var ks :- ColumnKeys(series[..|series| - 1], c);
      var f := FieldOf(series[|series| - 1], c);
      if Truthy(f) then
        var k :- KeyOf(c, f.value);
        Success(ks + [k])
      else Success(ks)
  }

  /** The four dicts the loop leaves behind. */
  datatype Tallies = Tallies(years: Dict, ratings: Dict, seasons: Dict, genres: Dict)
  {
    ghost predicate Valid() {
      years.Valid() && ratings.Valid() && seasons.Valid() && genres.Valid()
    }
  }

  /** What the loop computes: each dict is the histogram of its column's keys. */
  function Tally(series: seq<Serie>): (r: Result<Tallies>)
    ensures r.Success? ==> r.value.Valid()
    ensures r.Failure? ==> r.error == IndexError
  {
    var ys :- ColumnKeys(series, Released);
    var rs, ss, gs := ColumnKeys(series, Rating).value, ColumnKeys(series, Seasons).value, ColumnKeys(series, Genre).value;
    Success(Tallies(Histogram(ys), Histogram(rs), Histogram(ss), Histogram(gs)))
  }

  // =====================================================================
  // What the histograms count

  /** How many series have column `c` set. */
  function WithField(series: seq<Serie>, c: Column): nat
    decreases |series|
  {
    if series == [] then 0
    else WithField(series[..|series| - 1], c) + if Truthy(FieldOf(series[|series| - 1], c)) then 1 else 0
  }

  /** How many series have column `c` set to a value that yields key `k`. */
  function Yielding(series: seq<Serie>, c: Column, k: string): nat
    decreases |series|
  {
    if series == [] then 0
    else
      var f := FieldOf(series[|series| - 1], c);
      Yielding(series[..|series| - 1], c, k) + if Truthy(f) && KeyOf(c, f.value) == Success(k) then 1 else 0
  }

  /** The keys of a column are one per series with the field set, and key `k`
      occurs once per series that yields it. */
  lemma {:induction false} ColumnKeysCount(series: seq<Serie>, c: Column)
    requires ColumnKeys(series, c).Success?
    ensures |ColumnKeys(series, c).value| == WithField(series, c)
    ensures forall k :: multiset(ColumnKeys(series, c).value)[k] == Yielding(series, c, k)
    decreases |series|
  {
    if series != [] {
      var init := series[..|series| - 1];
      ColumnKeysLast(series, c);
      ColumnKeysCount(init, c);
    }
  }

  /** The keys of a non-empty list of series: those of all but the last, then the last one's key if it sets the field. */
  lemma {:induction false} ColumnKeysLast(series: seq<Serie>, c: Column)
    requires series != [] && ColumnKeys(series, c).Success?
    ensures ColumnKeys(series[..|series| - 1], c).Success?
    ensures var f := FieldOf(series[|series| - 1], c);
      Truthy(f) ==> (KeyOf(c, f.value).Success? &&
                     ColumnKeys(series, c).value == ColumnKeys(series[..|series| - 1], c).value + [KeyOf(c, f.value).value])
    ensures !Truthy(FieldOf(series[|series| - 1], c)) ==> ColumnKeys(series, c) == ColumnKeys(series[..|series| - 1], c)
  {
  }

  /** Each histogram maps a key to the number of series that yield it, and its counts add up to the number of series with the field set. */
  lemma {:induction false} HistogramMeaning(series: seq<Serie>, c: Column)
    requires ColumnKeys(series, c).Success?
    ensures forall k :: k in Histogram(ColumnKeys(series, c).value).count ==>
      Histogram(ColumnKeys(series, c).value).count[k] == Yielding(series, c, k)
    ensures forall k :: k !in Histogram(ColumnKeys(series, c).value).count ==> Yielding(series, c, k) == 0
    ensures Total(Histogram(ColumnKeys(series, c).value)) == WithField(series, c)
  {
    var ks := ColumnKeys(series, c).value;
    ColumnKeysCount(series, c);
    HistogramCounts(ks);
    HistogramTotal(ks);
  }

  /** Only a release date without a year stops the loop, wherever it is. */
  lemma {:induction false} ColumnKeysFail(series: seq<Serie>, c: Column)
    ensures ColumnKeys(series, c).Failure? <==>
      c == Released && exists i :: 0 <= i < |series| && Truthy(series[i].released) && ReleaseYear(series[i].released.value).Failure?
    decreases |series|
  {
    if series != [] {
      var init := series[..|series| - 1];
      ColumnKeysFail(init, c);
      if c == Released {
        if exists i :: 0 <= i < |init| && Truthy(init[i].released) && ReleaseYear(init[i].released.value).Failure? {
          var i :| 0 <= i < |init| && Truthy(init[i].released) && ReleaseYear(init[i].released.value).Failure?;
          assert series[i] == init[i];
        }
        forall i | 0 <= i < |init| ensures series[i] == init[i] { }
      }
    }
  }

  // =====================================================================
  // The summaries after the loop

  /** A conversion that raises ValueError when it fails. */
  function Parsed(o: Option<real>): Result<real> {
    match o
    case None => Failure(ValueError)
    case Some(v) => Success(v)
  }

  /** Python's `int` as a conversion to an exact number. */
  function IntAsReal(parseInt: string -> Option<int>): string -> Option<real> {
    s => if parseInt(s).Some? then Some(parseInt(s).value as real) else None
  }

  /** `sum(parse(k) for k in keys)`: a ValueError when any key does not parse. */
  function SumParsed(keys: seq<string>, parse: string -> Option<real>): (r: Result<real>)
    decreases |keys|
    ensures r.Failure? <==> exists i :: 0 <= i < |keys| && parse(keys[i]).None?
    ensures r.Failure? ==> r.error == ValueError
  {
    if keys == [] then Success(0.0)
    else
      var total :- SumParsed(keys[..|keys| - 1], parse);
      var v :- Parsed(parse(keys[|keys| - 1]));
      Success(total + v)
  }

  /** `sum(parse(k) for k in keys) / len(keys)`: each key counts once, however many series share it. */
  function Mean(keys: seq<string>, parse: string -> Option<real>): (r: Result<real>)
    ensures r.Failure? && r.error == ValueError <==> exists i :: 0 <= i < |keys| && parse(keys[i]).None?
    ensures r.Failure? && r.error == ZeroDivisionError <==> keys == []
    ensures r.Failure? ==> r.error in {ValueError, ZeroDivisionError}
  {
    var total :- SumParsed(keys, parse);
    if |keys| == 0 then Failure(ZeroDivisionError) else Success(total / |keys| as real)
  }

  /** The sum of values that all lie between `lo` and `hi` lies between `n * lo` and `n * hi`. */
  lemma {:induction false} SumParsedBounds(keys: seq<string>, parse: string -> Option<real>, lo: real, hi: real)
    requires forall i :: 0 <= i < |keys| ==> parse(keys[i]).Some? && lo <= parse(keys[i]).value <= hi
    ensures SumParsed(keys, parse).Success?
    ensures |keys| as real * lo <= SumParsed(keys, parse).value <= |keys| as real * hi
    decreases |keys|
  {
    if keys != [] {
      var init := keys[..|keys| - 1];
      forall i | 0 <= i < |init| ensures init[i] == keys[i] { }
      SumParsedBounds(init, parse, lo, hi);
      SumParsedLast(keys, init, parse, lo, hi);
    }
  }

  /** The bounds carry over from all keys but the last to all keys. */
  lemma {:induction false} SumParsedLast(keys: seq<string>, init: seq<string>, parse: string -> Option<real>, lo: real, hi: real)
    requires keys != [] && init == keys[..|keys| - 1]
    requires parse(keys[|keys| - 1]).Some? && lo <= parse(keys[|keys| - 1]).value <= hi
    requires SumParsed(init, parse).Success?
    requires |init| as real * lo <= SumParsed(init, parse).value <= |init| as real * hi
    ensures SumParsed(keys, parse).Success?
    ensures |keys| as real * lo <= SumParsed(keys, parse).value <= |keys| as real * hi
  {
    var t, v := SumParsed(init, parse).value, parse(keys[|keys| - 1]).value;
    SumParsedSnoc(keys, init, parse, t, v);
    BoundsStep(|keys| as real, |init| as real, t, v, SumParsed(keys, parse).value, lo, hi);
  }

  /** The sum over all keys is the sum over all but the last plus the last value. */
  lemma {:induction false} SumParsedSnoc(keys: seq<string>, init: seq<string>, parse: string -> Option<real>, t: real, v: real)
    requires keys != [] && init == keys[..|keys| - 1]
    requires SumParsed(init, parse).Success? && SumParsed(init, parse).value == t
    requires parse(keys[|keys| - 1]).Some? && parse(keys[|keys| - 1]).value == v
    ensures SumParsed(keys, parse).Success? && SumParsed(keys, parse).value == t + v
  {
  }

  /** One more value between `lo` and `hi` keeps a sum of `m` such values between `(m + 1) * lo` and `(m + 1) * hi`. */
  lemma {:induction false} BoundsStep(n: real, m: real, t: real, v: real, s: real, lo: real, hi: real)
    requires n == m + 1.0 && m * lo <= t <= m * hi && lo <= v <= hi && s == t + v
    ensures n * lo <= s <= n * hi
  {
    assert n * lo == m * lo + lo && n * hi == m * hi + hi;
  }

  /** An average lies between the least and the greatest value averaged. */
  lemma {:induction false} MeanBounds(keys: seq<string>, parse: string -> Option<real>, lo: real, hi: real)
    requires keys != []
    requires forall i :: 0 <= i < |keys| ==> parse(keys[i]).Some? && lo <= parse(keys[i]).value <= hi
    ensures Mean(keys, parse).Success?
    ensures lo <= Mean(keys, parse).value <= hi
  {
    SumParsedBounds(keys, parse, lo, hi);
    var n, total := |keys| as real, SumParsed(keys, parse).value;
    assert n * lo <= total <= n * hi;
    assert lo <= total / n by {
      assert total / n - lo == (total - n * lo) / n;
    }
    assert total / n <= hi by {
      assert hi - total / n == (n * hi - total) / n;
    }
  }

  /** Python's `max` over a dict's keys by count: the first key whose count no later key exceeds. */
  function FirstMaxIndex(keys: seq<string>, count: map<string, nat>): (i: nat)
    requires keys != []
    requires forall k :: k in keys ==> k in count
    decreases |keys|
    ensures i < |keys|
    ensures forall j :: 0 <= j < |keys| ==> count[keys[j]] <= count[keys[i]]
    ensures forall j :: 0 <= j < i ==> count[keys[j]] < count[keys[i]]
  {
    if |keys| == 1 then 0
    else
      var last := |keys| - 1;
      var best := FirstMaxIndex(keys[..last], count);
      if count[keys[last]] > count[keys[best]] then last else best
  }

  /** `max(d, key=d.get)`: a ValueError on an empty dict; otherwise a key with the largest count, the earliest inserted on ties. */
  function MostPopular(d: Dict): (r: Result<string>)
    requires d.Valid()
    ensures r.Failure? <==> d.keys == []
    ensures r.Failure? ==> r.error == ValueError
    ensures r.Success? ==> r.value in d.count && forall k :: k in d.count ==> d.count[k] <= d.count[r.value]
    ensures r.Success? ==> exists i :: 0 <= i < |d.keys| && d.keys[i] == r.value &&
                                       (forall j :: 0 <= j < i ==> d.count[d.keys[j]] < d.count[r.value])
  {
    if d.keys == [] then Failure(ValueError)
    else
      var i := FirstMaxIndex(d.keys, d.count);
      assert d.keys[i] in d.keys;
      Success(d.keys[i])
  }

  /** The count came out, and came out as n. */
  predicate Yields(r: Result<nat>, n: nat)
  {
    r.Success? && r.value == n
  }

  /** Whether a stored value converts to a rating of 8 or more. */
  predicate AtLeast8(v: string, parse: string -> Option<real>) {
    parse(v).Some? && parse(v).value >= 8.0
  }

  /** `sum(value for key, value in d.items() if float(key) >= 8)`: a ValueError when a key does not convert. */
  function RatedAtLeast8(keys: seq<string>, count: map<string, nat>, parse: string -> Option<real>): (r: Result<nat>)
    requires forall k :: k in keys ==> k in count
    decreases |keys|
    ensures r.Failure? <==> exists i :: 0 <= i < |keys| && parse(keys[i]).None?
    ensures r.Failure? ==> r.error == ValueError
  {
    if keys == [] then Success(0)
    else
      var last := keys[|keys| - 1];
      var rest :- RatedAtLeast8(keys[..|keys| - 1], count, parse);
      if parse(last).None? then Failure(ValueError)
      else Success(rest + if AtLeast8(last, parse) then count[last] else 0)
  }

  /** The ratings of 8 or more are no more than all the ratings counted. */
  lemma {:induction false} RatedAtLeast8Bound(keys: seq<string>, count: map<string, nat>, parse: string -> Option<real>)
    requires forall k :: k in keys ==> k in count
    ensures RatedAtLeast8(keys, count, parse).Success? ==> RatedAtLeast8(keys, count, parse).value <= SumCounts(keys, count)
    decreases |keys|
  {
    if keys != [] {
      assert forall k :: k in keys[..|keys| - 1] ==> k in keys;
      RatedAtLeast8Bound(keys[..|keys| - 1], count, parse);
    }
  }

  /** When every rating is 8 or more, every rated series is counted. */
  lemma {:induction false} RatedAtLeast8All(keys: seq<string>, count: map<string, nat>, parse: string -> Option<real>)
    requires forall k :: k in keys ==> k in count
    requires forall i :: 0 <= i < |keys| ==> parse(keys[i]).Some? && parse(keys[i]).value >= 8.0
    ensures RatedAtLeast8(keys, count, parse) == Success(SumCounts(keys, count))
    decreases |keys|
  {
    if keys != [] {
      var init := keys[..|keys| - 1];
      forall i | 0 <= i < |init| ensures init[i] == keys[i] { }
      RatedAtLeast8All(init, count, parse);
    }
  }

  /** When every rating is below 8, nothing is counted. */
  lemma {:induction false} RatedAtLeast8None(keys: seq<string>, count: map<string, nat>, parse: string -> Option<real>)
    requires forall k :: k in keys ==> k in count
    requires forall i :: 0 <= i < |keys| ==> parse(keys[i]).Some? && parse(keys[i]).value < 8.0
    ensures RatedAtLeast8(keys, count, parse) == Success(0)
    decreases |keys|
  {
    if keys != [] {
      var init := keys[..|keys| - 1];
      forall i | 0 <= i < |init| ensures init[i] == keys[i] { }
      RatedAtLeast8None(init, count, parse);
    }
  }

  /** How many series have a rating that converts to 8 or more. */
  function RatedSeries(series: seq<Serie>, parse: string -> Option<real>): nat
    decreases |series|
  {
    if series == [] then 0
    else
      var f := series[|series| - 1].imdbRating;
      RatedSeries(series[..|series| - 1], parse) + if Truthy(f) && AtLeast8(f.value, parse) then 1 else 0
  }

  /** How many of the keys met convert to 8 or more, repeats included. */
  function KeysAtLeast8(ks: seq<string>, parse: string -> Option<real>): nat
    decreases |ks|
  {
    if ks == [] then 0 else KeysAtLeast8(ks[..|ks| - 1], parse) + if AtLeast8(ks[|ks| - 1], parse) then 1 else 0
  }

  /** Counted over the distinct ratings with their counts, the ratings of 8 or more
      are as many as the series whose rating is 8 or more, when every rating converts. */
  lemma {:induction false} RatedAtLeast8Series(series: seq<Serie>, parse: string -> Option<real>)
    requires forall j :: 0 <= j < |series| && Truthy(series[j].imdbRating) ==> parse(series[j].imdbRating.value).Some?
    ensures var d := Histogram(ColumnKeys(series, Rating).value);
      RatedAtLeast8(d.keys, d.count, parse) == Success(RatedSeries(series, parse))
  {
    var ks := ColumnKeys(series, Rating).value;
    RatingKeysConvert(series, parse);
    assert forall i :: 0 <= i < |ks| ==> ks[i] in ks;
    RatedHistogram(ks, parse);
    RatingKeysAtLeast8(series, parse);
    var d := Histogram(ks);
    var r := RatedAtLeast8(d.keys, d.count, parse);
    assert r.Success? && r.value == RatedSeries(series, parse);
  }

  /** The series rated 8 or more are the rating keys of 8 or more. */
  lemma {:induction false} RatingKeysAtLeast8(series: seq<Serie>, parse: string -> Option<real>)
    ensures RatedSeries(series, parse) == KeysAtLeast8(ColumnKeys(series, Rating).value, parse)
    decreases |series|
  {
    if series != [] {
      ColumnKeysLast(series, Rating);
      RatingKeysAtLeast8(series[..|series| - 1], parse);
      var ks := ColumnKeys(series, Rating).value;
      if Truthy(series[|series| - 1].imdbRating) {
        assert ks[..|ks| - 1] == ColumnKeys(series[..|series| - 1], Rating).value;
      }
    }
  }

  /** Over a histogram, the ratings of 8 or more weighted by their counts are the keys of 8 or more met. */
  lemma {:induction false} RatedHistogram(xs: seq<string>, parse: string -> Option<real>)
    requires forall i :: 0 <= i < |xs| ==> parse(xs[i]).Some?
    ensures Yields(RatedAtLeast8(Histogram(xs).keys, Histogram(xs).count, parse), KeysAtLeast8(xs, parse))
    decreases |xs|
  {
    if xs != [] {
      var init := xs[..|xs| - 1];
      assert forall i :: 0 <= i < |init| ==> init[i] == xs[i];
      RatedHistogram(init, parse);
      RatedHistogramNext(xs, parse);
    }
  }

  /** The induction step: from the keys but the last to all of them. */
  lemma {:induction false} RatedHistogramNext(xs: seq<string>, parse: string -> Option<real>)
    requires xs != [] && parse(xs[|xs| - 1]).Some?
    requires var d := Histogram(xs[..|xs| - 1]);
      Yields(RatedAtLeast8(d.keys, d.count, parse), KeysAtLeast8(xs[..|xs| - 1], parse))
    ensures Yields(RatedAtLeast8(Histogram(xs).keys, Histogram(xs).count, parse), KeysAtLeast8(xs, parse))
  {
    RatedHistogramStep(xs, parse, KeysAtLeast8(xs[..|xs| - 1], parse));
    KeysAtLeast8Last(xs, parse);
  }

  lemma {:induction false} KeysAtLeast8Last(xs: seq<string>, parse: string -> Option<real>)
    requires xs != []
    ensures KeysAtLeast8(xs, parse) == KeysAtLeast8(xs[..|xs| - 1], parse) + if AtLeast8(xs[|xs| - 1], parse) then 1 else 0
  {
  }

  /** One more key met: the count of ratings of 8 or more grows by one exactly when the key is one. */
  lemma {:induction false} RatedHistogramStep(xs: seq<string>, parse: string -> Option<real>, n: nat)
    requires xs != [] && parse(xs[|xs| - 1]).Some?
    requires var d := Histogram(xs[..|xs| - 1]); Yields(RatedAtLeast8(d.keys, d.count, parse), n)
    ensures Yields(RatedAtLeast8(Histogram(xs).keys, Histogram(xs).count, parse), n + if AtLeast8(xs[|xs| - 1], parse) then 1 else 0)
  {
    var d, x := Histogram(xs[..|xs| - 1]), xs[|xs| - 1];
    var b := Bump(d, x);
    assert Histogram(xs).keys == b.keys && Histogram(xs).count == b.count;
    RatedDictBump(d, x, parse, n);
  }

  /** Bumping a key adds one rating of 8 or more exactly when the key is one. */
  lemma {:induction false} RatedDictBump(d: Dict, x: string, parse: string -> Option<real>, n: nat)
    requires d.Valid() && parse(x).Some?
    requires Yields(RatedAtLeast8(d.keys, d.count, parse), n)
    ensures Yields(RatedAtLeast8(Bump(d, x).keys, Bump(d, x).count, parse), n + if AtLeast8(x, parse) then 1 else 0)
  {
    if x in d.count {
      RatedBumpMet(d, x, parse, n);
    } else {
      RatedNew(d.keys, d.count, x, parse, n);
    }
  }

  lemma {:induction false} RatedBumpMet(d: Dict, x: string, parse: string -> Option<real>, n: nat)
    requires d.Valid() && x in d.count
    requires Yields(RatedAtLeast8(d.keys, d.count, parse), n)
    ensures Yields(RatedAtLeast8(Bump(d, x).keys, Bump(d, x).count, parse), n + if AtLeast8(x, parse) then 1 else 0)
  {
    var c := d.count[x := d.count[x] + 1];
    assert Bump(d, x).keys == d.keys && Bump(d, x).count == c by {
      assert d.Get(x, 0) == d.count[x];
    }
    RatedBump(d.keys, d.count, x, parse, n);
  }

  /** One more series with a rating already met adds one when that rating is 8 or more. */
  lemma {:induction false} RatedBump(keys: seq<string>, count: map<string, nat>, x: string, parse: string -> Option<real>, n: nat)
    requires forall k :: k in keys ==> k in count
    requires forall i, j :: 0 <= i < j < |keys| ==> keys[i] != keys[j]
    requires x in keys
    requires Yields(RatedAtLeast8(keys, count, parse), n)
    ensures Yields(RatedAtLeast8(keys, count[x := count[x] + 1], parse), n + if AtLeast8(x, parse) then 1 else 0)
    decreases |keys|
  {
    var init, last := keys[..|keys| - 1], keys[|keys| - 1];
    var count' := count[x := count[x] + 1];
    assert forall k :: k in init ==> k in keys;
    var m := RatedLast(keys, count, parse, n);
    if last == x {
      assert x !in init;
      RatedOther(init, count, x, count[x] + 1, parse);
      RatedExtend(keys, count', parse, m);
    } else {
      assert x in init by {
        var i :| 0 <= i < |keys| && keys[i] == x;
        assert init[i] == x;
      }
      RatedBump(init, count, x, parse, m);
      RatedExtend(keys, count', parse, m + if AtLeast8(x, parse) then 1 else 0);
    }
  }

  /** Taking the last key off: what the others count, and the last one's share. */
  lemma {:induction false} RatedLast(keys: seq<string>, count: map<string, nat>, parse: string -> Option<real>, n: nat) returns (m: nat)
    requires keys != [] && forall k :: k in keys ==> k in count
    requires Yields(RatedAtLeast8(keys, count, parse), n)
    ensures Yields(RatedAtLeast8(keys[..|keys| - 1], count, parse), m)
    ensures parse(keys[|keys| - 1]).Some?
    ensures n == m + if AtLeast8(keys[|keys| - 1], parse) then count[keys[|keys| - 1]] else 0
  {
    m := RatedAtLeast8(keys[..|keys| - 1], count, parse).value;
  }

  /** Putting the last key back on. */
  lemma {:induction false} RatedExtend(keys: seq<string>, count: map<string, nat>, parse: string -> Option<real>, m: nat)
    requires keys != [] && forall k :: k in keys ==> k in count
    requires Yields(RatedAtLeast8(keys[..|keys| - 1], count, parse), m)
    requires parse(keys[|keys| - 1]).Some?
    ensures Yields(RatedAtLeast8(keys, count, parse), m + if AtLeast8(keys[|keys| - 1], parse) then count[keys[|keys| - 1]] else 0)
  {
    var r := RatedAtLeast8(keys, count, parse);
    assert Yields(r, m + if AtLeast8(keys[|keys| - 1], parse) then count[keys[|keys| - 1]] else 0);
  }

  /** One more series with a rating not met before adds that rating as a key counted once. */
  lemma {:induction false} RatedNew(keys: seq<string>, count: map<string, nat>, x: string, parse: string -> Option<real>, n: nat)
    requires forall k :: k in keys ==> k in count
    requires x !in keys && parse(x).Some?
    requires Yields(RatedAtLeast8(keys, count, parse), n)
    ensures Yields(RatedAtLeast8(keys + [x], count[x := 1], parse), n + if AtLeast8(x, parse) then 1 else 0)
  {
    assert (keys + [x])[..|keys|] == keys;
    RatedOther(keys, count, x, 1, parse);
  }

  /** The count of a key that is not listed does not matter. */
  lemma {:induction false} RatedOther(keys: seq<string>, count: map<string, nat>, x: string, v: nat, parse: string -> Option<real>)
    requires forall k :: k in keys ==> k in count
    requires x !in keys
    ensures RatedAtLeast8(keys, count[x := v], parse) == RatedAtLeast8(keys, count, parse)
    decreases |keys|
  {
    if keys != [] {
      assert forall k :: k in keys[..|keys| - 1] ==> k in keys;
      RatedOther(keys[..|keys| - 1], count, x, v, parse);
    }
  }

  // =====================================================================
  // The handler

  /** The response body of the handler. */
  datatype Report = Report(
    seriesByReleaseYear: seq<Item>,
    seriesByImdbRating: seq<Item>,
    seriesByTotalSeasons: seq<Item>,
    averageImdbRating: real,
    mostPopularYear: string,
    averageTotalSeasons: real,
    seriesWithRating8OrHigher: nat,
    totalSeriesCount: nat,
    seriesByGenre: seq<Item>)

  /** What the handler returns or raises for the queried series, with the
      steps in the order the handler takes them: the loop, the average rating,
      the most popular year, the average number of seasons, the count of
      ratings of 8 or more, and only then the check for an empty catalogue. */
  function StatsOf(series: seq<Serie>, parseFloat: string -> Option<real>, parseInt: string -> Option<int>): (r: Result<Report>)
    ensures r.Failure? ==> r.error in {IndexError, ValueError, ZeroDivisionError}
    ensures r.Success? ==> r.value.totalSeriesCount == |series| > 0
    ensures r.Success? ==> Tally(series).Success?
    ensures r.Success? ==> var t := Tally(series).value;
      && r.value.seriesByReleaseYear == SortedItems(t.years) && r.value.seriesByImdbRating == SortedItems(t.ratings)
      && r.value.seriesByTotalSeasons == SortedItems(t.seasons) && r.value.seriesByGenre == SortedItems(t.genres)
  {
    var t :- Tally(series);
    var averageImdbRating :- Mean(t.ratings.keys, parseFloat);
    var mostPopularYear :- MostPopular(t.years);
    var averageTotalSeasons :- Mean(t.seasons.keys, IntAsReal(parseInt));
    var rated8 := RatedAtLeast8(t.ratings.keys, t.ratings.count, parseFloat).value;
    if series == [] then Failure(NotFound)
    else
      Success(Report(SortedItems(t.years), SortedItems(t.ratings), SortedItems(t.seasons), averageImdbRating,
                     mostPopularYear, averageTotalSeasons, rated8, |series|, SortedItems(t.genres)))
  }

  /** `d` is the histogram of the keys column `c` of `series` yields. */
  ghost predicate Counted(series: seq<Serie>, c: Column, d: Dict) {
    ColumnKeys(series, c).Success? && d == Histogram(ColumnKeys(series, c).value)
  }

  /** Once every column is counted, the four dicts are what the loop computes. */
  lemma {:induction false} TallyCounted(series: seq<Serie>, years: Dict, ratings: Dict, seasons: Dict, genres: Dict)
    requires Counted(series, Released, years) && Counted(series, Rating, ratings)
    requires Counted(series, Seasons, seasons) && Counted(series, Genre, genres)
    ensures Tally(series) == Success(Tallies(years, ratings, seasons, genres))
  {
  }

  /** One more series met: the dict of column `c` counts its key once more if it sets the field. */
  lemma {:induction false} ColumnStep(series: seq<Serie>, i: nat, c: Column, d: Dict, d': Dict)
    requires i < |series| && Counted(series[..i], c, d)
    requires !Truthy(FieldOf(series[i], c)) ==> d' == d
    requires Truthy(FieldOf(series[i], c)) ==>
      KeyOf(c, FieldOf(series[i], c).value).Success? && d' == Bump(d, KeyOf(c, FieldOf(series[i], c).value).value)
    ensures Counted(series[..i + 1], c, d')
  {
    var ks := ColumnKeys(series[..i], c).value;
    var f := FieldOf(series[i], c);
    ColumnKeysNext(series, i, c);
    if Truthy(f) {
      HistogramSnoc(ks, KeyOf(c, f.value).value);
    }
  }

  /** The keys of one more series: those before, then its own key if it sets the field. */
  lemma {:induction false} ColumnKeysNext(series: seq<Serie>, i: nat, c: Column)
    requires i < |series| && ColumnKeys(series[..i], c).Success?
    ensures !Truthy(FieldOf(series[i], c)) ==> ColumnKeys(series[..i + 1], c) == ColumnKeys(series[..i], c)
    ensures Truthy(FieldOf(series[i], c)) && KeyOf(c, FieldOf(series[i], c).value).Success? ==>
      ColumnKeys(series[..i + 1], c) == Success(ColumnKeys(series[..i], c).value + [KeyOf(c, FieldOf(series[i], c).value).value])
  {
    assert series[..i + 1][..i] == series[..i];
  }

  /** A release date without a year in series `i` makes the whole loop fail. */
  lemma {:induction false} YearMissing(series: seq<Serie>, i: nat)
    requires i < |series| && Truthy(series[i].released) && ReleaseYear(series[i].released.value).Failure?
    ensures Tally(series) == Failure(IndexError)
  {
    ColumnKeysFail(series, Released);
  }

  /** The loop has met the first `i` series, and each dict counts its column's keys among them. */
  ghost predicate CountedUpTo(series: seq<Serie>, i: nat, years: Dict, ratings: Dict, seasons: Dict, genres: Dict) {
    && i <= |series|
    && Counted(series[..i], Released, years) && Counted(series[..i], Rating, ratings)
    && Counted(series[..i], Seasons, seasons) && Counted(series[..i], Genre, genres)
  }

  /** Meeting series `i` updates each dict as the loop body does. */
  lemma {:induction false} CountStep(series: seq<Serie>, i: nat, j: nat, years: Dict, ratings: Dict, seasons: Dict, genres: Dict,
                  years': Dict, ratings': Dict, seasons': Dict, genres': Dict)
    requires i < |series| && j == i + 1 && CountedUpTo(series, i, years, ratings, seasons, genres)
    requires Truthy(series[i].released) ==> ReleaseYear(series[i].released.value).Success?
    requires years' == if Truthy(series[i].released) then Bump(years, ReleaseYear(series[i].released.value).value) else years
    requires ratings' == if Truthy(series[i].imdbRating) then Bump(ratings, series[i].imdbRating.value) else ratings
    requires seasons' == if Truthy(series[i].totalSeasons) then Bump(seasons, series[i].totalSeasons.value) else seasons
    requires genres' == if Truthy(series[i].genre) then Bump(genres, FirstGenre(series[i].genre.value)) else genres
    ensures CountedUpTo(series, j, years', ratings', seasons', genres')
  {
    ColumnStep(series, i, Released, years, years');
    ColumnStep(series, i, Rating, ratings, ratings');
    ColumnStep(series, i, Seasons, seasons, seasons');
    ColumnStep(series, i, Genre, genres, genres');
  }

  /** The loop of `get_stats`: the four dicts, or the IndexError of a release date without a year. */
  method CountSeries(series: seq<Serie>) returns (r: Result<Tallies>)
    ensures r == Tally(series)
  {
    var years, ratings, seasons, genres := EmptyDict, EmptyDict, EmptyDict, EmptyDict;
    var i: nat := 0;
    while i < |series|
      invariant CountedUpTo(series, i, years, ratings, seasons, genres)
    {
      ghost var years0, ratings0, seasons0, genres0 := years, ratings, seasons, genres;
      var serie := series[i];
      if Truthy(serie.released) {
        var year := ReleaseYear(serie.released.value);
        if year.Failure? {
          YearMissing(series, i);
          return Failure(IndexError);
        }
        years := Bump(years, year.value);
      }
      if Truthy(serie.imdbRating) {
        ratings := Bump(ratings, serie.imdbRating.value);
      }
      if Truthy(serie.totalSeasons) {
        seasons := Bump(seasons, serie.totalSeasons.value);
      }
      if Truthy(serie.genre) {
        var genre := FirstGenre(serie.genre.value);
        genres := Bump(genres, genre);
      }
      var j := i + 1;
      CountStep(series, i, j, years0, ratings0, seasons0, genres0, years, ratings, seasons, genres);
      i := j;
    }
    assert series[..i] == series;
    TallyCounted(series, years, ratings, seasons, genres);
    r := Success(Tallies(years, ratings, seasons, genres));
  }

  /** `get_stats`: the loop over the series, then the summaries. */
  method GetStats(series: seq<Serie>, parseFloat: string -> Option<real>, parseInt: string -> Option<int>) returns (r: Result<Report>)
    ensures r == StatsOf(series, parseFloat, parseInt)
  {
    var t :- CountSeries(series);
    var averageImdbRating :- Mean(t.ratings.keys, parseFloat);
    var mostPopularYear :- MostPopular(t.years);
    var averageTotalSeasons :- Mean(t.seasons.keys, IntAsReal(parseInt));
    var rated8 := RatedAtLeast8(t.ratings.keys, t.ratings.count, parseFloat).value;
    if series == [] {
      return Failure(NotFound);
    }
    r := Success(Report(SortedItems(t.years), SortedItems(t.ratings), SortedItems(t.seasons), averageImdbRating,
                        mostPopularYear, averageTotalSeasons, rated8, |series|, SortedItems(t.genres)));
  }

  // =====================================================================
  // What the handler returns and raises

  /** A release date without a year anywhere in the catalogue ends the handler with an IndexError. */
  lemma {:induction false} BadReleaseDate(series: seq<Serie>, i: nat, parseFloat: string -> Option<real>, parseInt: string -> Option<int>)
    requires i < |series| && Truthy(series[i].released) && ReleaseYear(series[i].released.value).Failure?
    ensures StatsOf(series, parseFloat, parseInt) == Failure(IndexError)
  {
    YearMissing(series, i);
  }

  /** No series sets column `c`: its histogram is empty. */
  lemma {:induction false} NoKeys(series: seq<Serie>, c: Column)
    requires forall i :: 0 <= i < |series| ==> !Truthy(FieldOf(series[i], c))
    ensures ColumnKeys(series, c) == Success([])
    decreases |series|
  {
    if series != [] {
      var init := series[..|series| - 1];
      forall i | 0 <= i < |init| ensures init[i] == series[i] { }
      NoKeys(init, c);
    }
  }

  /** An empty catalogue fails with ZeroDivisionError at the average rating. */
  lemma {:induction false} EmptyCatalogue(parseFloat: string -> Option<real>, parseInt: string -> Option<int>)
    ensures StatsOf([], parseFloat, parseInt) == Failure(ZeroDivisionError)
  {
  }

  /** A catalogue in which no series has a rating, and every release date has a year, fails with ZeroDivisionError. */
  lemma {:induction false} NoRatings(series: seq<Serie>, parseFloat: string -> Option<real>, parseInt: string -> Option<int>)
    requires forall i :: 0 <= i < |series| ==> !Truthy(series[i].imdbRating)
    requires forall i :: 0 <= i < |series| && Truthy(series[i].released) ==> ReleaseYear(series[i].released.value).Success?
    ensures StatsOf(series, parseFloat, parseInt) == Failure(ZeroDivisionError)
  {
    ColumnKeysFail(series, Released);
    NoKeys(series, Rating);
  }

  /** With ratings that all convert, but no release date at all, `max` of the empty year dict raises ValueError. */
  lemma {:induction false} NoReleaseDates(series: seq<Serie>, i: nat, parseFloat: string -> Option<real>, parseInt: string -> Option<int>)
    requires forall j :: 0 <= j < |series| ==> !Truthy(series[j].released)
    requires i < |series| && Truthy(series[i].imdbRating)
    requires forall j :: 0 <= j < |series| && Truthy(series[j].imdbRating) ==> parseFloat(series[j].imdbRating.value).Some?
    ensures StatsOf(series, parseFloat, parseInt) == Failure(ValueError)
  {
    NoKeys(series, Released);
    var rs := ColumnKeys(series, Rating).value;
    ColumnKeysCount(series, Rating);
    RatingKeysConvert(series, parseFloat);
    assert rs != [] by {
      WithFieldPositive(series, Rating, i);
    }
    HistogramCounts(rs);
    var d := Histogram(rs);
    assert d.keys != [] by {
      assert rs[0] in d.count;
    }
    forall j | 0 <= j < |d.keys| ensures parseFloat(d.keys[j]).Some? {
      assert d.keys[j] in rs;
    }
  }

  /** A series that sets column `c` is counted among those that do. */
  lemma {:induction false} WithFieldPositive(series: seq<Serie>, c: Column, i: nat)
    requires i < |series| && Truthy(FieldOf(series[i], c))
    ensures WithField(series, c) > 0
    decreases |series|
  {
    if i < |series| - 1 {
      var init := series[..|series| - 1];
      assert init[i] == series[i];
      WithFieldPositive(init, c, i);
    }
  }

  /** When every stored rating converts, so does every rating key. */
  lemma {:induction false} RatingKeysConvert(series: seq<Serie>, parseFloat: string -> Option<real>)
    requires forall j :: 0 <= j < |series| && Truthy(series[j].imdbRating) ==> parseFloat(series[j].imdbRating.value).Some?
    ensures forall k :: k in ColumnKeys(series, Rating).value ==> parseFloat(k).Some?
    decreases |series|
  {
    if series != [] {
      var init := series[..|series| - 1];
      forall j | 0 <= j < |init| ensures init[j] == series[j] { }
      RatingKeysConvert(init, parseFloat);
      ColumnKeysLast(series, Rating);
    }
  }

  /** Once the average rating is computed, counting ratings of 8 or more cannot fail. */
  lemma {:induction false} RatedAfterMean(keys: seq<string>, count: map<string, nat>, parse: string -> Option<real>)
    requires forall k :: k in keys ==> k in count
    requires Mean(keys, parse).Success?
    ensures RatedAtLeast8(keys, count, parse).Success?
  {
  }

  /** A successful report counts every queried series and holds each histogram sorted by key. */
  lemma {:induction false} ReportShape(series: seq<Serie>, parseFloat: string -> Option<real>, parseInt: string -> Option<int>)
    requires StatsOf(series, parseFloat, parseInt).Success?
    ensures var r := StatsOf(series, parseFloat, parseInt).value;
      && r.totalSeriesCount == |series| > 0
      && r.seriesByReleaseYear == SortedItems(Histogram(ColumnKeys(series, Released).value))
      && r.seriesByImdbRating == SortedItems(Histogram(ColumnKeys(series, Rating).value))
      && r.seriesByTotalSeasons == SortedItems(Histogram(ColumnKeys(series, Seasons).value))
      && r.seriesByGenre == SortedItems(Histogram(ColumnKeys(series, Genre).value))
  {
    TallyParts(series);
  }

  /** The four dicts of a loop that ran through. */
  lemma {:induction false} TallyParts(series: seq<Serie>)
    requires Tally(series).Success?
    ensures ColumnKeys(series, Released).Success?
    ensures Tally(series).value == Tallies(Histogram(ColumnKeys(series, Released).value), Histogram(ColumnKeys(series, Rating).value),
                                           Histogram(ColumnKeys(series, Seasons).value), Histogram(ColumnKeys(series, Genre).value))
  {
  }

  /** A rating conversion that knows the ratings "9" and "6". */
  function NineOrSix(s: string): Option<real> {
    if s == "9" then Some(9.0) else if s == "6" then Some(6.0) else None
  }

  /** The rating average is over distinct ratings: two series rated 9 and one rated 6 average 7.5, not 8. */
  lemma {:induction false} MeanOverDistinctRatings()
    ensures Mean(Histogram(["9", "9", "6"]).keys, NineOrSix) == Success(7.5)
  {
    DistinctRatingKeys();
    MeanOfNineAndSix();
  }

  lemma {:induction false} MeanOfNineAndSix()
    ensures Mean(["9", "6"], NineOrSix) == Success(7.5)
  {
    var keys: seq<string> := ["9", "6"];
    assert keys[..1] == ["9"];
    assert SumParsed(keys[..1], NineOrSix) == Success(9.0);
    assert SumParsed(keys, NineOrSix) == Success(15.0);
  }

  lemma {:induction false} DistinctRatingKeys()
    ensures Histogram(["9", "9", "6"]).keys == ["9", "6"]
  {
    assert ["9", "9", "6"][..2] == ["9", "9"];
    assert ["9", "9"][..1] == ["9"];
    assert ["9"][..0] == [];
    assert Histogram(["9"]).keys == ["9"];
  }

  // =====================================================================
  // The handler with the empty-catalogue check first

  /** The handler as evidently intended: an empty catalogue is answered with the 404 before anything is computed. */
  function StatsOfChecked(series: seq<Serie>, parseFloat: string -> Option<real>, parseInt: string -> Option<int>): (r: Result<Report>)
    ensures r == Failure(NotFound) <==> series == []
    ensures series != [] ==> r == StatsOf(series, parseFloat, parseInt)
  {
    if series == [] then Failure(NotFound) else StatsOf(series, parseFloat, parseInt)
  }
}
