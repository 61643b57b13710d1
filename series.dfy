/**
 * The fuel-price series: one row per (date, city, product) observation as the
 * loader hands it over, the records the service returns, and the ordering the
 * filter imposes (`sort_values('date', ascending=False)`).
 */
module Series {

  /** A row of the store; `date` is a day ordinal (days since some epoch). */
  datatype Row = Row(date: int, city: string, product: string, price: real, unit: string)

  /** The `{date, price, unit}` record of a raw query. */
  datatype RawPoint = RawPoint(date: int, price: real, unit: string)

  /** The `{date, price, unit, ma}` record of a moving-average query. */
  datatype MaPoint = MaPoint(date: int, price: real, unit: string, ma: real)

  /**
   * The `{date, price, unit, z, isAnomaly}` record of an anomaly query. The
   * z-score is carried as its square, `zSquared`, because the model has no
   * square root; see PriceService.AnomalyMatchesZScore.
   */
  datatype AnomalyPoint = AnomalyPoint(date: int, price: real, unit: string, zSquared: real, isAnomaly: bool)

  /** Newest first: no row is dated after a row before it. */
  predicate DateDescending(rows: seq<Row>)
  {
    forall i, j :: 0 <= i < j < |rows| ==> rows[i].date >= rows[j].date
  }

  function Prices(rows: seq<Row>): (prices: seq<real>)
    ensures |prices| == |rows|
  {
    seq(|rows|, i requires 0 <= i < |rows| => rows[i].price)
  }

  function Dates(rows: seq<Row>): (dates: seq<int>)
    ensures |dates| == |rows|
  {
    seq(|rows|, i requires 0 <= i < |rows| => rows[i].date)
  }

  /** The rows of `rows` that satisfy `keep`, in their original order (a boolean mask). */
  function Keep(rows: seq<Row>, keep: Row -> bool): (kept: seq<Row>)
    ensures forall x :: multiset(kept)[x] == if keep(x) then multiset(rows)[x] else 0
    decreases |rows|
  {
    if rows == [] then []
    else
      var rest := Keep(rows[..|rows| - 1], keep);
      var last := rows[|rows| - 1];
      assert rows == rows[..|rows| - 1] + [last];
      if keep(last) then rest + [last] else rest
  }

  /**
   * The mask keeps the order of the rows: a row added at the end is kept at
   * the end, or dropped.
   */
  lemma KeepAppend(rows: seq<Row>, x: Row, keep: Row -> bool)
    ensures Keep(rows + [x], keep) == Keep(rows, keep) + (if keep(x) then [x] else [])
  {
    assert (rows + [x])[..|rows + [x]| - 1] == rows;
  }

  /** Places `x` in front of the first row that is not newer than it. */
  function InsertByDate(x: Row, rows: seq<Row>): (r: seq<Row>)
    requires DateDescending(rows)
    ensures DateDescending(r)
    ensures multiset(r) == multiset(rows) + multiset{x}
    ensures r[0] == x || r[0] == rows[0]
    decreases |rows|
  {
    if rows == [] || x.date >= rows[0].date then
      DescendingCons(x, rows);
      [x] + rows
    else
      var tail := InsertByDate(x, rows[1..]);
      assert rows == [rows[0]] + rows[1..];
      DescendingCons(rows[0], tail);
      [rows[0]] + tail
  }

  /** A row no older than the head of a newest-first sequence can go in front of it. */
  lemma DescendingCons(y: Row, rows: seq<Row>)
    requires DateDescending(rows)
    requires rows == [] || y.date >= rows[0].date
    ensures DateDescending([y] + rows)
  {
  }

  /** `sort_values('date', ascending=False)`: newest first, the same rows. */
  function SortByDateDescending(rows: seq<Row>): (r: seq<Row>)
    ensures DateDescending(r)
    ensures multiset(r) == multiset(rows)
    decreases |rows|
  {
    if rows == [] then []
    else
      assert rows == [rows[0]] + rows[1..];
      InsertByDate(rows[0], SortByDateDescending(rows[1..]))
  }
}
