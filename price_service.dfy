/**
 * The fuel-price service: selecting one city's series of one product within
 * optional date bounds, and the three views the API serves of such a series
 * (raw points, moving averages, z-score anomalies), together with the parser
 * of window specifications such as "7d" and "2w".
 */
module PriceService {
  import opened Results
  import opened Text
  import opened Series
  import opened Rolling
  import opened Arith

  datatype ServiceError =
    | InvalidDate(text: string)     // `pd.to_datetime` could not read a bound
    | InvalidWindow(text: string)   // `int()` could not read the count in a window specification
    | WindowTooSmall(window: int)   // pandas refuses `rolling(window=w, min_periods=1)` for w < 1

  /** Reads a date string into a day ordinal, or None when it is not a date. */
  type DateParser = string -> Option<int>

  // ===========================================================================
  // get_cities_products

  predicate StrictlyIncreasing(names: seq<string>)
  {
    forall i, j :: 0 <= i < j < |names| ==> LexLess(names[i], names[j])
  }

  /** Adds `x` to a strictly increasing list unless it is already there. */
  function InsertName(x: string, names: seq<string>): (r: seq<string>)
    requires StrictlyIncreasing(names)
    ensures StrictlyIncreasing(r)
    ensures forall y :: y in r <==> y == x || y in names
    decreases |names|
  {
    if names == [] then [x]
    else if x == names[0] then names
    else if LexLess(x, names[0]) then
      forall k | 0 <= k < |names| ensures LexLess(x, names[k]) {
        if k > 0 {
          LexLessTransitive(x, names[0], names[k]);
        }
      }
      [x] + names
    else
      LexLessTotal(x, names[0]);
      var tail := InsertName(x, names[1..]);
      forall k | 0 <= k < |tail| ensures LexLess(names[0], tail[k]) {
        assert tail[k] == x || tail[k] in names[1..];
      }
      assert forall y :: y in names <==> y == names[0] || y in names[1..];
      [names[0]] + tail
  }

  /** `sorted(set(names))`: every name once, in Python's string order. */
  function SortedUnique(names: seq<string>): (r: seq<string>)
    ensures StrictlyIncreasing(r)
    ensures forall y :: y in r <==> y in names
    decreases |names|
  {
    if names == [] then []
    else
      assert forall y :: y in names <==> y == names[0] || y in names[1..];
      InsertName(names[0], SortedUnique(names[1..]))
  }

  function Cities(store: seq<Row>): seq<string>
  {
    seq(|store|, i requires 0 <= i < |store| => store[i].city)
  }

  function Products(store: seq<Row>): seq<string>
  {
    seq(|store|, i requires 0 <= i < |store| => store[i].product)
  }

  /** `sorted(df['city'].unique()), sorted(df['product'].unique())`. */
  function CitiesProducts(store: seq<Row>): (r: (seq<string>, seq<string>))
    ensures StrictlyIncreasing(r.0) && StrictlyIncreasing(r.1)
    ensures forall c :: c in r.0 <==> exists i :: 0 <= i < |store| && store[i].city == c
    ensures forall p :: p in r.1 <==> exists i :: 0 <= i < |store| && store[i].product == p
  {
    var cities, products := Cities(store), Products(store);
    assert forall c :: c in cities <==> exists i :: 0 <= i < |store| && store[i].city == c by {
      forall c ensures c in cities <==> exists i :: 0 <= i < |store| && store[i].city == c {
        if c in cities {
          var i :| 0 <= i < |cities| && cities[i] == c;
          assert store[i].city == c;
        }
        if exists i :: 0 <= i < |store| && store[i].city == c {
          var i :| 0 <= i < |store| && store[i].city == c;
          assert cities[i] == c;
        }
      }
    }
    assert forall p :: p in products <==> exists i :: 0 <= i < |store| && store[i].product == p by {
      forall p ensures p in products <==> exists i :: 0 <= i < |store| && store[i].product == p {
        if p in products {
          var i :| 0 <= i < |products| && products[i] == p;
          assert store[i].product == p;
        }
        if exists i :: 0 <= i < |store| && store[i].product == p {
          var i :| 0 <= i < |store| && store[i].product == p;
          assert products[i] == p;
        }
      }
    }
    (SortedUnique(cities), SortedUnique(products))
  }

  /** Two strictly increasing lists with the same members are the same list. */
  lemma {:induction false} StrictlyIncreasingUnique(a: seq<string>, b: seq<string>)
    requires StrictlyIncreasing(a) && StrictlyIncreasing(b)
    requires forall y :: y in a <==> y in b
    ensures a == b
    decreases |a|
  {
    if a != [] {
      assert a[0] in b;
    }
    if b != [] {
      assert b[0] in a;
    }
    if a != [] {
      if a[0] != b[0] {
        var k :| 0 <= k < |b| && b[k] == a[0];
        var j :| 0 <= j < |a| && a[j] == b[0];
        assert LexLess(b[0], a[0]) && LexLess(a[0], b[0]);
        LexLessAsymmetric(a[0], b[0]);
      }
      forall y ensures y in a[1..] <==> y in b[1..] {
        if y in a[1..] {
          var j :| 1 <= j < |a| && a[j] == y;
          LexLessIrreflexive(a[0]);
        }
        if y in b[1..] {
          var j :| 1 <= j < |b| && b[j] == y;
          LexLessIrreflexive(b[0]);
        }
        assert y in a <==> y == a[0] || y in a[1..];
        assert y in b <==> y == b[0] || y in b[1..];
      }
      StrictlyIncreasingUnique(a[1..], b[1..]);
      assert a == [a[0]] + a[1..] && b == [b[0]] + b[1..];
    }
  }

  /** The lists of cities and products are the only sorted, duplicate-free lists of the store's names. */
  lemma CitiesProductsCanonical(store: seq<Row>, cities: seq<string>, products: seq<string>)
    requires StrictlyIncreasing(cities) && StrictlyIncreasing(products)
    requires forall c :: c in cities <==> exists i :: 0 <= i < |store| && store[i].city == c
    requires forall p :: p in products <==> exists i :: 0 <= i < |store| && store[i].product == p
    ensures CitiesProducts(store) == (cities, products)
  {
    var r := CitiesProducts(store);
    StrictlyIncreasingUnique(r.0, cities);
    StrictlyIncreasingUnique(r.1, products);
  }

  // ===========================================================================
  // filter_data

  /**
   * The case-insensitive city and product mask; a row always matches its own
   * city and product.
   */
  predicate SameSeries(row: Row, city: string, product: string)
    ensures row.city == city && row.product == product ==> SameSeries(row, city, product)
  {
    Lower(row.city) == Lower(city) && Lower(row.product) == Lower(product)
  }

  /** A query selects the same rows as its lower-cased form. */
  lemma SameSeriesLowerQuery(row: Row, city: string, product: string)
    ensures SameSeries(row, city, product) == SameSeries(row, Lower(city), Lower(product))
  {
    LowerIdempotent(city);
    LowerIdempotent(product);
  }

  /**
   * What `if from_: ... pd.to_datetime(from_)` makes of an optional bound:
   * no restriction when it is absent or empty, a day, or an error.
   */
  function BoundDay(arg: Option<string>, parse: DateParser): (r: Result<Option<int>, ServiceError>)
    ensures arg.None? || arg == Some("") ==> r == Ok(None)
    ensures r.Err? <==> arg.Some? && arg.value != "" && parse(arg.value).None?
    ensures r.Err? ==> r.error == InvalidDate(arg.value)
    ensures r.Ok? && r.value.Some? ==> arg.Some? && parse(arg.value) == Some(r.value.value)
    ensures arg.Some? && arg.value != "" && parse(arg.value).Some? ==> r == Ok(Some(parse(arg.value).value))
  {
    match arg
    case None => Ok(None)
    case Some(text) =>
      if text == "" then Ok(None)
      else match parse(text)
        case None => Err(InvalidDate(text))
        case Some(day) => Ok(Some(day))
  }

  predicate InRange(row: Row, lo: Option<int>, hi: Option<int>)
  {
    (lo.None? || row.date >= lo.value) && (hi.None? || row.date <= hi.value)
  }

  /** A row of the selection: the right series, within the bounds. */
  predicate Selected(row: Row, city: string, product: string, lo: Option<int>, hi: Option<int>)
  {
    SameSeries(row, city, product) && InRange(row, lo, hi)
  }

  /**
   * `filter_data`: mask by city and product, cut at `from_` and at `to`
   * (each read only when it is non-empty, `from_` first), then sort newest
   * first. The result holds every selected row of the store, as often as the
   * store holds it, and nothing else.
   */
  function FilterData(store: seq<Row>, city: string, product: string,
                      from: Option<string>, to: Option<string>, parse: DateParser): (r: Result<seq<Row>, ServiceError>)
    ensures BoundDay(from, parse).Err? ==> r == Err(BoundDay(from, parse).error)
    ensures BoundDay(from, parse).Ok? && BoundDay(to, parse).Err? ==> r == Err(BoundDay(to, parse).error)
    ensures BoundDay(from, parse).Ok? && BoundDay(to, parse).Ok? ==>
      && r.Ok?
      && DateDescending(r.value)
      && forall x :: multiset(r.value)[x] ==
           if Selected(x, city, product, BoundDay(from, parse).value, BoundDay(to, parse).value)
           then multiset(store)[x] else 0
  {
    var matching := Keep(store, (row: Row) => SameSeries(row, city, product));
    match BoundDay(from, parse)
    case Err(e) => Err(e)
    case Ok(lo) =>
      var afterFrom := if lo.Some? then Keep(matching, (row: Row) => row.date >= lo.value) else matching;
      match BoundDay(to, parse)
      case Err(e) => Err(e)
      case Ok(hi) =>
        var afterTo := if hi.Some? then Keep(afterFrom, (row: Row) => row.date <= hi.value) else afterFrom;
        Ok(SortByDateDescending(afterTo))
  }

  /** Membership form: a row is in the result exactly when the store has it and it is selected. */
  lemma FilterDataMembers(store: seq<Row>, city: string, product: string,
                          from: Option<string>, to: Option<string>, parse: DateParser, x: Row)
    requires BoundDay(from, parse).Ok? && BoundDay(to, parse).Ok?
    ensures FilterData(store, city, product, from, to, parse).Ok?
    ensures x in FilterData(store, city, product, from, to, parse).value <==>
            x in store && Selected(x, city, product, BoundDay(from, parse).value, BoundDay(to, parse).value)
  {
    var r := FilterData(store, city, product, from, to, parse).value;
    assert x in r <==> multiset(r)[x] > 0;
    assert x in store <==> multiset(store)[x] > 0;
  }

  /** A `from` later than `to` selects nothing, and that is not an error. */
  lemma FilterFromAfterTo(store: seq<Row>, city: string, product: string,
                          from: Option<string>, to: Option<string>, parse: DateParser)
    requires BoundDay(from, parse).Ok? && BoundDay(from, parse).value.Some?
    requires BoundDay(to, parse).Ok? && BoundDay(to, parse).value.Some?
    requires BoundDay(from, parse).value.value > BoundDay(to, parse).value.value
    ensures FilterData(store, city, product, from, to, parse) == Ok([])
  {
    var r := FilterData(store, city, product, from, to, parse).value;
    forall x ensures multiset(r)[x] == 0 {
    }
    assert multiset(r) == multiset{};
  }

  /** A city or product the store does not have gives an empty series, not an error. */
  lemma FilterUnknownSeries(store: seq<Row>, city: string, product: string,
                            from: Option<string>, to: Option<string>, parse: DateParser)
    requires forall i :: 0 <= i < |store| ==> !SameSeries(store[i], city, product)
    requires BoundDay(from, parse).Ok? && BoundDay(to, parse).Ok?
    ensures FilterData(store, city, product, from, to, parse) == Ok([])
  {
    var r := FilterData(store, city, product, from, to, parse).value;
    forall x ensures multiset(r)[x] == 0 {
      if x in store {
        var i :| 0 <= i < |store| && store[i] == x;
      }
    }
    assert multiset(r) == multiset{};
  }

  /** An empty-string bound is falsy, so it restricts nothing: it behaves as an absent one. */
  lemma FilterEmptyBound(store: seq<Row>, city: string, product: string,
                         from: Option<string>, to: Option<string>, parse: DateParser)
    ensures FilterData(store, city, product, Some(""), to, parse) == FilterData(store, city, product, None, to, parse)
    ensures FilterData(store, city, product, from, Some(""), parse) == FilterData(store, city, product, from, None, parse)
  {
  }

  /** The mask compares lower-cased names: "DELHI" selects the rows stored as "Delhi". */
  lemma FilterIgnoresCase(day: int, price: real)
    ensures SameSeries(Row(day, "Delhi", "Petrol", price, "INR/L"), "DELHI", "petrol")
  {
    assert Lower("Delhi") == "delhi" == Lower("DELHI");
    assert Lower("Petrol") == "petrol" == Lower("petrol");
  }

  // ---------------------------------------------------------------------------
  // The only freedom the sort leaves is the order of rows with equal dates.

  /** Taking one row out of a newest-first sequence leaves it newest first. */
  lemma DescendingWithout(b: seq<Row>, k: int)
    requires DateDescending(b) && 0 <= k < |b|
    ensures DateDescending(b[..k] + b[k + 1..])
  {
    var rest := b[..k] + b[k + 1..];
    forall p, q | 0 <= p < q < |rest| ensures rest[p].date >= rest[q].date {
      var p' := if p < k then p else p + 1;
      var q' := if q < k then q else q + 1;
      assert rest[p] == b[p'] && rest[q] == b[q'];
    }
  }

  lemma MultisetWithout(b: seq<Row>, k: int)
    requires 0 <= k < |b|
    ensures multiset(b[..k] + b[k + 1..]) == multiset(b) - multiset{b[k]}
  {
    assert b == b[..k] + [b[k]] + b[k + 1..];
  }

  lemma DatesWithoutNewest(b: seq<Row>, k: int)
    requires DateDescending(b) && 0 <= k < |b| && b[k].date == b[0].date
    ensures Dates(b) == [b[k].date] + Dates(b[..k] + b[k + 1..])
  {
    var rest := b[..k] + b[k + 1..];
    forall idx | 0 < idx < |b| ensures b[idx].date == rest[idx - 1].date {
      if idx - 1 < k {
        assert rest[idx - 1] == b[idx - 1];
      } else {
        assert rest[idx - 1] == b[idx];
      }
    }
  }

  /**
   * Taking out a row `b[k]` that carries the newest date leaves a newest-first
   * sequence of the other rows, and moving `b[k]` to its front moves no date.
   */
  lemma WithoutNewest(b: seq<Row>, k: int) returns (rest: seq<Row>)
    requires DateDescending(b) && 0 <= k < |b| && b[k].date == b[0].date
    ensures DateDescending(rest)
    ensures multiset(rest) == multiset(b) - multiset{b[k]}
    ensures Dates(b) == [b[k].date] + Dates(rest)
    ensures |rest| == |b| - 1
  {
    rest := b[..k] + b[k + 1..];
    DescendingWithout(b, k);
    MultisetWithout(b, k);
    DatesWithoutNewest(b, k);
  }

  /** The newest row of `a` sits somewhere in `b` among the rows carrying `b`'s newest date. */
  lemma NewestMatch(a: seq<Row>, b: seq<Row>) returns (k: int)
    requires DateDescending(a) && DateDescending(b)
    requires multiset(a) == multiset(b) && a != []
    ensures 0 <= k < |b| && b[k] == a[0] && b[k].date == b[0].date
  {
    assert a[0] in multiset(b);
    k :| 0 <= k < |b| && b[k] == a[0];
    assert b[0] in multiset(a);
    var j :| 0 <= j < |a| && a[j] == b[0];
    assert b[0].date >= b[k].date == a[0].date >= a[j].date;
  }

  /** Two newest-first arrangements of the same rows list the same dates in the same order. */
  lemma {:induction false} DescendingPermutationsShareDates(a: seq<Row>, b: seq<Row>)
    requires DateDescending(a) && DateDescending(b)
    requires multiset(a) == multiset(b)
    ensures Dates(a) == Dates(b)
    decreases |a|
  {
    assert |a| == |multiset(a)| == |multiset(b)| == |b|;
    if a != [] {
      var k := NewestMatch(a, b);
      var restB := WithoutNewest(b, k);
      var restA := WithoutNewest(a, 0);
      DescendingPermutationsShareDates(restA, restB);
    }
  }

  /** Any newest-first arrangement of the selected rows has the dates, in order, of FilterData's. */
  lemma FilterDatesDetermined(store: seq<Row>, city: string, product: string,
                              from: Option<string>, to: Option<string>, parse: DateParser, other: seq<Row>)
    requires BoundDay(from, parse).Ok? && BoundDay(to, parse).Ok?
    requires DateDescending(other)
    requires forall x :: multiset(other)[x] ==
               if Selected(x, city, product, BoundDay(from, parse).value, BoundDay(to, parse).value)
               then multiset(store)[x] else 0
    ensures Dates(other) == Dates(FilterData(store, city, product, from, to, parse).value)
  {
    var r := FilterData(store, city, product, from, to, parse).value;
    assert multiset(other) == multiset(r);
    DescendingPermutationsShareDates(other, r);
  }

  // ===========================================================================
  // get_raw_points

  function ToRaw(row: Row): RawPoint
  {
    RawPoint(row.date, row.price, row.unit)
  }

  /** One `{date, price, unit}` record per row, in the order of the rows. */
  function RawPoints(rows: seq<Row>): (points: seq<RawPoint>)
    ensures |points| == |rows|
    ensures forall i :: 0 <= i < |rows| ==> points[i] == ToRaw(rows[i])
    decreases |rows|
  {
    if rows == [] then [] else [ToRaw(rows[0])] + RawPoints(rows[1..])
  }

  /** The raw query of a filtered series is newest first too. */
  lemma RawPointsDescending(rows: seq<Row>)
    requires DateDescending(rows)
    ensures forall i, j :: 0 <= i < j < |rows| ==> RawPoints(rows)[i].date >= RawPoints(rows)[j].date
  {
  }

  // ===========================================================================
  // get_moving_average

  /**
   * The record `get_moving_average` builds for position `i`: the row's own
   * fields, and the total of the window's prices divided by how many there
   * are, min(i + 1, w) with `min_periods=1`.
   */
  function MaAt(series: seq<Row>, w: int, i: int): (p: MaPoint)
    requires w >= 1 && 0 <= i < |series|
    ensures p.date == series[i].date && p.price == series[i].price && p.unit == series[i].unit
    ensures p.ma * (if i + 1 < w then i + 1 else w) as real == Sum(Window(Prices(series), w, i))
  {
    MaPoint(series[i].date, series[i].price, series[i].unit, Mean(Window(Prices(series), w, i)))
  }

  /**
   * `get_moving_average`: a positional rolling mean over the series as given
   * (newest first), one record per row in the same order. A window below 1
   * is refused by pandas.
   */
  method MovingAverage(filtered: seq<Row>, windowDays: int) returns (r: Result<seq<MaPoint>, ServiceError>)
    ensures windowDays < 1 ==> r == Err(WindowTooSmall(windowDays))
    ensures windowDays >= 1 ==>
      && r.Ok? && |r.value| == |filtered|
      && forall i :: 0 <= i < |filtered| ==> r.value[i] == MaAt(filtered, windowDays, i)
  {
    if windowDays < 1 {
      return Err(WindowTooSmall(windowDays));
    }
    var ma := RollingMean(Prices(filtered), windowDays);
    var points := new MaPoint[|filtered|];
    for i := 0 to |filtered|
      invariant forall k :: 0 <= k < i ==> points[k] == MaAt(filtered, windowDays, k)
    {
      points[i] := MaPoint(filtered[i].date, filtered[i].price, filtered[i].unit, ma[i]);
    }
    return Ok(points[..]);
  }

  /** The moving-average records carry the raw records' fields unchanged. */
  lemma MaExtendsRaw(series: seq<Row>, w: int, i: int)
    requires w >= 1 && 0 <= i < |series|
    ensures RawPoint(MaAt(series, w, i).date, MaAt(series, w, i).price, MaAt(series, w, i).unit) == RawPoints(series)[i]
  {
  }

  /** Each average lies between the lowest and the highest price of its window. */
  lemma MaWithinWindowRange(series: seq<Row>, w: int, i: int)
    requires w >= 1 && 0 <= i < |series|
    ensures SeqMin(Window(Prices(series), w, i)) <= MaAt(series, w, i).ma <= SeqMax(Window(Prices(series), w, i))
  {
    MeanWithinRange(Window(Prices(series), w, i));
  }

  /** The first (newest) row has a window of one: its average is its price. */
  lemma MaHead(series: seq<Row>, w: int)
    requires w >= 1 && |series| > 0
    ensures MaAt(series, w, 0).ma == series[0].price
  {
    assert Window(Prices(series), w, 0) == [series[0].price];
    MeanOfOne(series[0].price);
  }

  /** A window of one row averages nothing: every average is the row's price. */
  lemma MaUnitWindow(series: seq<Row>, i: int)
    requires 0 <= i < |series|
    ensures MaAt(series, 1, i).ma == series[i].price
  {
    assert Window(Prices(series), 1, i) == [series[i].price];
    MeanOfOne(series[i].price);
  }

  /**
   * The window reaches towards newer rows: on a newest-first series every
   * price averaged at position `i` is from a row dated on or after row `i`.
   */
  lemma MaWindowIsNewer(series: seq<Row>, w: int, i: int, j: int)
    requires DateDescending(series)
    requires w >= 1 && 0 <= i < |series| && WindowStart(w, i) <= j <= i
    ensures Window(Prices(series), w, i)[j - WindowStart(w, i)] == series[j].price
    ensures series[j].date >= series[i].date
  {
  }

  /** Prices 104, 102, 100 (newest first) with a window of 2 average to 104, 103, 101. */
  lemma MaExample(unit: string)
    ensures var series := [Row(3, "Delhi", "Petrol", 104.0, unit),
                           Row(2, "Delhi", "Petrol", 102.0, unit),
                           Row(1, "Delhi", "Petrol", 100.0, unit)];
      && MaAt(series, 2, 0).ma == 104.0
      && MaAt(series, 2, 1).ma == 103.0
      && MaAt(series, 2, 2).ma == 101.0
  {
    var series := [Row(3, "Delhi", "Petrol", 104.0, unit),
                   Row(2, "Delhi", "Petrol", 102.0, unit),
                   Row(1, "Delhi", "Petrol", 100.0, unit)];
    assert Prices(series) == [104.0, 102.0, 100.0];
    assert Window(Prices(series), 2, 0) == [104.0];
    assert Window(Prices(series), 2, 1) == [104.0, 102.0];
    assert Window(Prices(series), 2, 2) == [102.0, 100.0];
    MeanOfOne(104.0);
    MeanOfTwo(104.0, 102.0);
    MeanOfTwo(102.0, 100.0);
  }

  // ===========================================================================
  // get_anomalies

  /** The value `.replace(0, 1e-9)` puts in place of a zero standard deviation. */
  const StdFloor: real := 0.000000001

  /**
   * The square of the standard deviation after the zero floor: the std is 0
   * exactly when the variance is, and is then replaced by StdFloor.
   */
  function FlooredVariance(variance: real): (f: real)
    ensures variance == 0.0 ==> f == 0.000000000000000001
    ensures variance != 0.0 ==> f == variance
  {
    if variance == 0.0 then StdFloor * StdFloor else variance
  }

  /** The square of `|dev| / std`, for the std whose square is the floored variance. */
  function ZSquared(dev: real, variance: real): (z2: real)
    ensures variance >= 0.0 ==> z2 >= 0.0
    ensures dev == 0.0 ==> z2 == 0.0
  {
    dev * dev / FlooredVariance(variance)
  }

  /** `z >= z_thresh` for a z that is never negative, decided on its square. */
  predicate MeetsThreshold(zSquared: real, zThresh: real)
    ensures zThresh <= 0.0 ==> MeetsThreshold(zSquared, zThresh)
  {
    zThresh <= 0.0 || zSquared >= zThresh * zThresh
  }

  /** A z-score of 0 meets exactly the thresholds that are at most 0. */
  lemma ZeroScore(zThresh: real)
    ensures MeetsThreshold(0.0, zThresh) == (zThresh <= 0.0)
  {
    if zThresh <= 0.0 {
    } else {
      ProductPositive(zThresh, zThresh);
    }
  }

  /** The record `get_anomalies` builds for position `i`, with z carried as its square. */
  function AnomalyAt(series: seq<Row>, w: int, zThresh: real, i: int): (p: AnomalyPoint)
    requires w >= 1 && 0 <= i < |series|
    ensures p.date == series[i].date && p.price == series[i].price && p.unit == series[i].unit
    ensures p.zSquared >= 0.0
    ensures zThresh <= 0.0 ==> p.isAnomaly
  {
    var win := Window(Prices(series), w, i);
    PopVarianceNonNegative(win);
    var zSquared := ZSquared(series[i].price - Mean(win), PopVariance(win));
    AnomalyPoint(series[i].date, series[i].price, series[i].unit, zSquared, MeetsThreshold(zSquared, zThresh))
  }

  /**
   * `get_anomalies`: the rolling mean and rolling population variance over
   * the same window as the moving average, the squared z-score against the
   * floored standard deviation, and the threshold test, one record per row in
   * the same order. A window below 1 is refused by pandas.
   */
  method Anomalies(filtered: seq<Row>, windowDays: int, zThresh: real) returns (r: Result<seq<AnomalyPoint>, ServiceError>)
    ensures windowDays < 1 ==> r == Err(WindowTooSmall(windowDays))
    ensures windowDays >= 1 ==>
      && r.Ok? && |r.value| == |filtered|
      && forall i :: 0 <= i < |filtered| ==> r.value[i] == AnomalyAt(filtered, windowDays, zThresh, i)
  {
    if windowDays < 1 {
      return Err(WindowTooSmall(windowDays));
    }
    var prices := Prices(filtered);
    var means := RollingMean(prices, windowDays);
    var variances := RollingPopVariance(prices, windowDays);
    var points := new AnomalyPoint[|filtered|];
    for i := 0 to |filtered|
      invariant forall k :: 0 <= k < i ==> points[k] == AnomalyAt(filtered, windowDays, zThresh, k)
    {
      var zSquared := ZSquared(filtered[i].price - means[i], variances[i]);
      points[i] := AnomalyPoint(filtered[i].date, filtered[i].price, filtered[i].unit,
                                zSquared, MeetsThreshold(zSquared, zThresh));
    }
    return Ok(points[..]);
  }

  function Abs(x: real): real
  {
    if x < 0.0 then -x else x
  }

  /**
   * For a positive std, `z = |dev| / std` is non-negative, its square is
   * `dev * dev / (std * std)`, and `z >= t` is the test on that square.
   */
  lemma ZScoreSquared(dev: real, std: real, t: real)
    requires std > 0.0
    ensures Abs(dev) / std >= 0.0
    ensures (Abs(dev) / std) * (Abs(dev) / std) == dev * dev / (std * std)
    ensures (Abs(dev) / std >= t) == MeetsThreshold(dev * dev / (std * std), t)
  {
    QuotientProduct(Abs(dev), Abs(dev), std, std);
    assert Abs(dev) * Abs(dev) == dev * dev;
    if t > 0.0 {
      SquareMonotone(Abs(dev) / std, t);
    }
  }

  /**
   * The records agree with the source's z-score: for the standard deviation
   * `std` that `get_anomalies` divides by (the positive square root of the
   * window's population variance, with 0 replaced by StdFloor),
   * `z = |price - mean| / std` is non-negative, `zSquared` is its square, and
   * `isAnomaly` is `z >= zThresh`.
   */
  lemma AnomalyMatchesZScore(series: seq<Row>, w: int, zThresh: real, i: int, std: real)
    requires w >= 1 && 0 <= i < |series|
    requires std > 0.0 && std * std == FlooredVariance(PopVariance(Window(Prices(series), w, i)))
    ensures var z := Abs(series[i].price - Mean(Window(Prices(series), w, i))) / std;
      && z >= 0.0
      && AnomalyAt(series, w, zThresh, i).zSquared == z * z
      && AnomalyAt(series, w, zThresh, i).isAnomaly == (z >= zThresh)
  {
    var win := Window(Prices(series), w, i);
    ZScoreOfFlooredStd(series[i].price - Mean(win), PopVariance(win), std, zThresh);
  }

  /** ZScoreSquared for the std whose square is the floored variance, stated through ZSquared. */
  lemma ZScoreOfFlooredStd(dev: real, variance: real, std: real, t: real)
    requires std > 0.0 && std * std == FlooredVariance(variance)
    ensures Abs(dev) / std >= 0.0
    ensures ZSquared(dev, variance) == (Abs(dev) / std) * (Abs(dev) / std)
    ensures MeetsThreshold(ZSquared(dev, variance), t) == (Abs(dev) / std >= t)
  {
    ZScoreSquared(dev, std, t);
  }

  /** The floored variance is positive, and it is the variance itself whenever that is not 0. */
  lemma FlooredVariancePositive(variance: real)
    requires variance >= 0.0
    ensures FlooredVariance(variance) > 0.0
    ensures variance != 0.0 ==> FlooredVariance(variance) == variance
  {
  }

  /** The std `get_anomalies` divides by is never 0: its square is positive for every window. */
  lemma AnomalyDivisorPositive(series: seq<Row>, w: int, i: int)
    requires w >= 1 && 0 <= i < |series|
    ensures FlooredVariance(PopVariance(Window(Prices(series), w, i))) > 0.0
  {
    PopVarianceNonNegative(Window(Prices(series), w, i));
    FlooredVariancePositive(PopVariance(Window(Prices(series), w, i)));
  }

  /** The deviation is taken from the same mean the moving average reports. */
  lemma AnomalyUsesMovingAverageMean(series: seq<Row>, w: int, zThresh: real, i: int)
    requires w >= 1 && 0 <= i < |series|
    ensures AnomalyAt(series, w, zThresh, i).zSquared ==
            ZSquared(series[i].price - MaAt(series, w, i).ma, PopVariance(Window(Prices(series), w, i)))
  {
  }

  /**
   * A window of equal prices has mean equal to the price and std 0, floored:
   * the z-score is 0 and the row is flagged exactly when the threshold is at most 0.
   */
  lemma AnomalyFlatWindow(series: seq<Row>, w: int, zThresh: real, i: int)
    requires w >= 1 && 0 <= i < |series|
    requires forall j :: WindowStart(w, i) <= j <= i ==> series[j].price == series[i].price
    ensures AnomalyAt(series, w, zThresh, i).zSquared == 0.0
    ensures AnomalyAt(series, w, zThresh, i).isAnomaly == (zThresh <= 0.0)
  {
    var win := Window(Prices(series), w, i);
    forall k | 0 <= k < |win| ensures win[k] == series[i].price {
      assert win[k] == series[WindowStart(w, i) + k].price;
    }
    ConstantWindow(win, series[i].price);
    assert series[i].price - Mean(win) == 0.0;
    assert ZSquared(0.0, PopVariance(win)) == 0.0;
    ZeroScore(zThresh);
  }

  /** The newest row is alone in its window, so it is never flagged at a positive threshold. */
  lemma AnomalyHead(series: seq<Row>, w: int, zThresh: real)
    requires w >= 1 && |series| > 0
    ensures AnomalyAt(series, w, zThresh, 0).zSquared == 0.0
    ensures AnomalyAt(series, w, zThresh, 0).isAnomaly == (zThresh <= 0.0)
  {
    AnomalyFlatWindow(series, w, zThresh, 0);
  }

  // ===========================================================================
  // parse_window

  /**
   * `parse_window`: "<n>d" is n rows, "<n>w" is 7 * n rows, anything not
   * ending in a lower-case 'd' or 'w' is the default 7; a count `int()`
   * cannot read is an error, not the default.
   */
  function ParseWindow(window: string): (r: Result<int, ServiceError>)
    ensures !(|window| > 0 && window[|window| - 1] in {'d', 'w'}) ==> r == Ok(7)
    ensures r.Err? ==> r.error == InvalidWindow(window)
    ensures |window| > 0 && window[|window| - 1] == 'd' && r.Ok? ==> ParseInt(window[..|window| - 1]) == Some(r.value)
    ensures |window| > 0 && window[|window| - 1] == 'w' && r.Ok? ==>
      ParseInt(window[..|window| - 1]).Some? && r.value == 7 * ParseInt(window[..|window| - 1]).value
  {
    if |window| > 0 && window[|window| - 1] == 'd' then
      match ParseInt(window[..|window| - 1])
      case Some(n) => Ok(n)
      case None => Err(InvalidWindow(window))
    else if |window| > 0 && window[|window| - 1] == 'w' then
      match ParseInt(window[..|window| - 1])
      case Some(n) => Ok(n * 7)
      case None => Err(InvalidWindow(window))
    else
      Ok(7)
  }

  /** "<n>d" reads back as n rows, for every integer n, including 0 and negatives. */
  lemma ParseWindowDays(n: int)
    ensures ParseWindow(IntToString(n) + "d") == Ok(n)
  {
    var spec := IntToString(n) + "d";
    assert spec[..|spec| - 1] == IntToString(n);
    ParseIntRoundTrip(n);
  }

  /** "<n>w" reads back as 7 * n rows. */
  lemma ParseWindowWeeks(n: int)
    ensures ParseWindow(IntToString(n) + "w") == Ok(7 * n)
  {
    var spec := IntToString(n) + "w";
    assert spec[..|spec| - 1] == IntToString(n);
    ParseIntRoundTrip(n);
  }

  /** Only a specification ending in 'd' or 'w' can fail, and only when its count is unreadable. */
  lemma ParseWindowErrors(window: string)
    ensures ParseWindow(window).Err? <==>
      |window| > 0 && window[|window| - 1] in {'d', 'w'} && ParseInt(window[..|window| - 1]).None?
  {
  }

  /** The cases the API's callers meet. */
  lemma ParseWindowExamples()
    ensures ParseWindow("7d") == Ok(7)
    ensures ParseWindow("2w") == Ok(14)
    ensures ParseWindow("0d") == Ok(0)
    ensures ParseWindow("-3d") == Ok(-3)
    ensures ParseWindow("") == Ok(7)
    ensures ParseWindow("xyz") == Ok(7)
    ensures ParseWindow("7D") == Ok(7)
    ensures ParseWindow("d").Err?
    ensures ParseWindow("xd").Err?
  {
    ParseWindowDays(7);
    assert IntToString(7) == "7";
    ParseWindowWeeks(2);
    assert IntToString(2) == "2";
    ParseWindowDays(0);
    assert IntToString(0) == "0";
    ParseWindowDays(-3);
    assert IntToString(-3) == "-3";
    assert "xd"[..1] == "x";
    assert !IsDigit('x');
  }
}
