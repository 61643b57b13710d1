# Fuel-price series service, modelled in Dafny

This project models the computational core of a small fuel-price API: the
service module that works on a table of daily prices. Each row of the table
has a date, a city, a product, a price and a unit. The module provides:

- `get_cities_products`: the sorted, duplicate-free lists of the table's
  cities and products.
- `filter_data`: selects one city's series of one product. City and product
  are matched case-insensitively. An optional `from_` and `to` bound cut the
  series, and the result is sorted newest first.
- `get_raw_points`: a `{date, price, unit}` record per row of a filtered
  series.
- `get_moving_average`: a positional rolling mean with `min_periods=1`.
- `get_anomalies`: a rolling mean and a rolling population standard
  deviation (`ddof=0`). A standard deviation of 0 is replaced by `1e-9`.
  Each row gets a z-score `|price - mean| / std` and an anomaly flag
  `z >= z_thresh`.
- `parse_window`: reads window specifications such as `"7d"` and `"2w"`.

Modules:

- `Results` (results.dfy): `Option` and `Result`.
- `Text` (text.dfy): the Python string behaviour the service relies on.
  - `str.lower()` on ASCII letters.
  - The code-point ordering that `sorted` uses.
  - `int()` on a decimal literal.
- `Series` (series.dfy):
  - The `Row` datatype (dates are day ordinals).
  - The record types the service returns.
  - The boolean-mask filter and the newest-first sort.
- `Rolling` (rolling.dfy):
  - Positional windows, mean and population variance.
  - The loops that compute them over a whole series.
- `Arith` (arith.dfy): facts about real products and quotients.
- `PriceService` (price_service.dfy): the six operations and their
  properties.

The model follows what the code does, including three points where a reader
might expect something else:

- **Window direction.** The rolling window is positional over the series *as
  already sorted newest first*. So the window of row `i` is rows
  `max(0, i-w+1) .. i`: the row itself and up to `w-1` *newer* rows, not the
  preceding calendar days. With prices 104, 102, 100 (newest first) and a
  window of 2, the code gives the averages 104, 103, 101 (lemma
  `PriceService.MaExample`).
- **`window_days < 1`.** pandas refuses such a window in
  `rolling(window=w, min_periods=1)`, even on an empty series, so the call
  fails. The model returns `Err(WindowTooSmall(w))` instead of assuming
  `w >= 1`.
- **`parse_window`.** It falls back to 7 only when the text ends in neither
  `d` nor `w`. For `"xd"` and `"d"`, `int()` raises, so they are errors,
  not 7.

Representation choices:

- **Date parsing is a parameter.** `pd.to_datetime` is a parameter of type
  `string -> Option<int>`, and `None` stands for the exception it raises on
  an unreadable bound.
- **The standard deviation is carried as its square.** Dafny has no square
  root, so an anomaly record holds `zSquared`, and the threshold test is
  made on squares. `PriceService.AnomalyMatchesZScore` proves the square and
  the test agree with the source's `z` and `z >= z_thresh` for the actual
  standard deviation.
- **Methods for the mutating code.** `get_moving_average` and
  `get_anomalies` are methods. They compute the rolling statistics with
  loops and fill an output array one record per row. Each method is proved
  equal, record by record, to a specification function (`MaAt`,
  `AnomalyAt`) about which the lemmas are stated.

## Model

| member | source | states |
|---|---|---|
| Text.Lower | manufac_assignment/services/price_service.py:23 | `str.lower()` keeps the length, turns each ASCII capital into its lower-case letter (code point + 32), and changes nothing else |
| Text.LexLess | manufac_assignment/services/price_service.py:10 | the code-point order `sorted` uses on names; a proper prefix sorts first |
| Text.LexLessFirstDifference | manufac_assignment/services/price_service.py:10 | `a` sorts before `b` exactly when `a` is a proper prefix of `b`, or the first code point where they differ is smaller in `a` |
| Text.ParseInt | manufac_assignment/services/price_service.py:99 | `int()` of a text gives a value exactly when it is a run of digits with an optional leading sign; a '-' gives a value at most 0, otherwise at least 0 |
| Text.LexLessIrreflexive | manufac_assignment/services/price_service.py:10 | no name sorts strictly before itself in Python's string order |
| Text.LexLessTransitive | manufac_assignment/services/price_service.py:10 | Python's string order is transitive |
| Text.LexLessTotal | manufac_assignment/services/price_service.py:10 | any two different names are ordered one way or the other, so `sorted` has one answer |
| Text.ParseIntRoundTrip | manufac_assignment/services/price_service.py:99 | `int()` reads back every integer's decimal spelling, sign included |
| Text.ParseIntRejects | manufac_assignment/services/price_service.py:99 | `int()` refuses the empty string and a string starting with neither a sign nor a digit |
| Text.ParseIntDigit | manufac_assignment/services/price_service.py:99 | `int()` of a single digit is that digit's value |
| Text.ParseIntAppendDigit | manufac_assignment/services/price_service.py:99 | appending a digit to a digit run gives ten times its value plus the digit, so every run has its decimal value, leading zeros included ("007" is 7) |
| Text.ParseIntSigned | manufac_assignment/services/price_service.py:99 | a leading '+' leaves the value unchanged and a leading '-' negates it ("+7" is 7, "-0" is 0) |
| Text.LowerIdempotent | manufac_assignment/services/price_service.py:23 | lower-casing a lower-cased name changes nothing |
| Series.Keep | manufac_assignment/services/price_service.py:23-28 | a boolean mask keeps each row the test accepts as often as the table holds it, and no other row |
| Series.KeepAppend | manufac_assignment/services/price_service.py:24-28 | a boolean mask keeps the rows in their order: a row added at the end is kept at the end or dropped |
| Series.InsertByDate | manufac_assignment/services/price_service.py:29 | inserting a row into a newest-first list keeps it newest first and adds exactly that row |
| Series.SortByDateDescending | manufac_assignment/services/price_service.py:29 | `sort_values('date', ascending=False)` returns the same rows (as a multiset), newest first |
| Rolling.Window | manufac_assignment/services/price_service.py:56 | the window of row i holds min(i+1, w) values, the k-th of them is the value at position max(0, i-w+1)+k, and it ends with row i's own value |
| Rolling.Mean | manufac_assignment/services/price_service.py:56 | the mean times the count of values is their total |
| Rolling.PopVariance | manufac_assignment/services/price_service.py:77 | the population variance times the count is the sum of squared deviations from the mean (`ddof=0`) |
| Rolling.WindowStart | manufac_assignment/services/price_service.py:56 | the window of row i starts at or before i and holds min(i+1, w) rows |
| Rolling.RollingMean | manufac_assignment/services/price_service.py:56 | the loop with a running total gives, at every row, the mean of that row's window |
| Rolling.SquaredDeviationsOf | manufac_assignment/services/price_service.py:77 | the loop computes the sum of squared deviations from the given mean |
| Rolling.RollingPopVariance | manufac_assignment/services/price_service.py:77 | the loop gives, at every row, the population variance (divisor = window count) of that row's window |
| Rolling.MeanWithinRange | manufac_assignment/services/price_service.py:56 | a mean lies between the smallest and the largest value averaged |
| Rolling.ConstantWindow | manufac_assignment/services/price_service.py:76-77 | a window of equal prices has that price as mean and variance 0 |
| Rolling.PopVarianceNonNegative | manufac_assignment/services/price_service.py:77 | a population variance is never negative |
| Arith.SquareMonotone | manufac_assignment/services/price_service.py:79 | for non-negative reals, comparing them and comparing their squares agree |
| PriceService.SortedUnique | manufac_assignment/services/price_service.py:10 | `sorted(set(names))` is strictly increasing and holds exactly the names given |
| PriceService.CitiesProducts | manufac_assignment/services/price_service.py:9-10 | both lists are strictly increasing (sorted, no duplicates) and hold exactly the cities / products of the table |
| PriceService.CitiesProductsCanonical | manufac_assignment/services/price_service.py:9-10 | any strictly increasing lists with those members are the result: nothing else could be returned |
| PriceService.SameSeries | manufac_assignment/services/price_service.py:23 | the mask compares lower-cased city and product; a row always matches its own city and product |
| PriceService.SameSeriesLowerQuery | manufac_assignment/services/price_service.py:23 | a query selects the same rows as its lower-cased form |
| PriceService.BoundDay | manufac_assignment/services/price_service.py:25-28 | an absent or empty bound is no restriction; a non-empty bound that cannot be read is the only error, `InvalidDate` of that text; a readable non-empty bound gives exactly the day read from it |
| PriceService.FilterData | manufac_assignment/services/price_service.py:22-30 | an unreadable `from_` is an error first, then an unreadable `to`; otherwise the result is newest first and holds each selected row as often as the table does and no other row |
| PriceService.FilterDataMembers | manufac_assignment/services/price_service.py:22-28 | a row is in the result exactly when the table has it, its lower-cased city and product match, and its date is within the given bounds |
| PriceService.FilterFromAfterTo | manufac_assignment/services/price_service.py:25-28 | a `from_` later than `to` selects nothing, and is not an error |
| PriceService.FilterUnknownSeries | manufac_assignment/services/price_service.py:23-24 | a city or product the table lacks gives an empty series, not an error |
| PriceService.FilterEmptyBound | manufac_assignment/services/price_service.py:25-28 | an empty-string bound is falsy: it behaves exactly as an absent one |
| PriceService.FilterIgnoresCase | manufac_assignment/services/price_service.py:23 | "DELHI" / "petrol" select rows stored as "Delhi" / "Petrol" |
| PriceService.DescendingPermutationsShareDates | manufac_assignment/services/price_service.py:29 | two newest-first arrangements of the same rows list the same dates in order: only the order of equal dates is free |
| PriceService.FilterDatesDetermined | manufac_assignment/services/price_service.py:22-30 | every newest-first arrangement of the selected rows has the result's dates, in order |
| PriceService.RawPoints | manufac_assignment/services/price_service.py:38-46 | one record per row, in row order, carrying that row's date, price and unit |
| PriceService.RawPointsDescending | manufac_assignment/services/price_service.py:38-46 | the raw records of a filtered series are newest first |
| PriceService.MaAt | manufac_assignment/services/price_service.py:56-63 | the record of row i has the row's date, price and unit, and an `ma` that times min(i+1, w) is the total of the window's prices |
| PriceService.MovingAverage | manufac_assignment/services/price_service.py:55-65 | a window below 1 is an error; otherwise one record per row, in order, whose `ma` is the mean of prices at rows max(0,i-w+1)..i |
| PriceService.MaExtendsRaw | manufac_assignment/services/price_service.py:57-65 | date, price and unit of each moving-average record are those of the raw record |
| PriceService.MaWithinWindowRange | manufac_assignment/services/price_service.py:56 | each `ma` lies between the lowest and highest price of its window |
| PriceService.MaHead | manufac_assignment/services/price_service.py:56 | the newest row's `ma` is its own price |
| PriceService.MaUnitWindow | manufac_assignment/services/price_service.py:56 | with a window of 1 every `ma` is the row's own price |
| PriceService.MaWindowIsNewer | manufac_assignment/services/price_service.py:56 | on a newest-first series every price averaged for row i comes from a row dated on or after row i |
| PriceService.MaExample | manufac_assignment/services/price_service.py:56 | prices 104, 102, 100 with a window of 2 average to 104, 103, 101 |
| PriceService.FlooredVariance | manufac_assignment/services/price_service.py:77 | `.replace(0, 1e-9)` on the std: a variance of 0 becomes 1e-18, the square of 1e-9; any other variance is kept |
| PriceService.ZSquared | manufac_assignment/services/price_service.py:78 | the squared z-score is never negative for a non-negative variance, and is 0 when the price equals the mean |
| PriceService.MeetsThreshold | manufac_assignment/services/price_service.py:79 | a threshold at most 0 is met by every z-score |
| PriceService.AnomalyAt | manufac_assignment/services/price_service.py:76-86 | the record of row i has the row's date, price and unit, a squared z-score that is never negative, and is flagged whenever the threshold is at most 0 |
| PriceService.Anomalies | manufac_assignment/services/price_service.py:75-89 | a window below 1 is an error; otherwise one record per row, in order, with the squared z-score and flag of that row's window |
| PriceService.FlooredVariancePositive | manufac_assignment/services/price_service.py:77 | after `.replace(0, 1e-9)` the std's square is positive, and equals the variance whenever that is not 0 |
| PriceService.AnomalyDivisorPositive | manufac_assignment/services/price_service.py:77-78 | the std the z-score divides by is never 0, for every window |
| PriceService.ZScoreSquared | manufac_assignment/services/price_service.py:78-79 | for a positive std, z = \|dev\|/std is non-negative, its square is dev²/std², and z >= t is the test on that square |
| PriceService.ZeroScore | manufac_assignment/services/price_service.py:79 | a z-score of 0 is flagged exactly when the threshold is at most 0 |
| PriceService.AnomalyMatchesZScore | manufac_assignment/services/price_service.py:76-79 | for the std the code divides by, z = \|price - mean\|/std is non-negative, the record's square is z², and `isAnomaly` is exactly z >= z_thresh |
| PriceService.ZScoreOfFlooredStd | manufac_assignment/services/price_service.py:77-79 | for a positive std whose square is the floored variance, `ZSquared` is the square of \|dev\|/std and the threshold test on it is \|dev\|/std >= t |
| PriceService.AnomalyUsesMovingAverageMean | manufac_assignment/services/price_service.py:76 | the deviation is taken from the same windowed mean the moving average reports |
| PriceService.AnomalyFlatWindow | manufac_assignment/services/price_service.py:76-79 | a window of equal prices gives z = 0, flagged exactly when the threshold is at most 0 |
| PriceService.AnomalyHead | manufac_assignment/services/price_service.py:76-79 | the newest row always has z = 0, so it is never flagged at a positive threshold |
| PriceService.ParseWindow | manufac_assignment/services/price_service.py:97-103 | text ending in neither 'd' nor 'w' gives 7; for 'd' the result is `int()` of the prefix and for 'w' seven times it; the only error is `InvalidWindow` of the text |
| PriceService.ParseWindowDays | manufac_assignment/services/price_service.py:98-99 | "<n>d" gives n for every integer n, including 0 and negatives |
| PriceService.ParseWindowWeeks | manufac_assignment/services/price_service.py:100-101 | "<n>w" gives 7·n |
| PriceService.ParseWindowErrors | manufac_assignment/services/price_service.py:97-103 | the result is an error exactly when the text ends in 'd' or 'w' and the rest is not an integer |
| PriceService.ParseWindowExamples | manufac_assignment/services/price_service.py:97-103 | "7d"→7, "2w"→14, "0d"→0, "-3d"→-3, ""/"xyz"/"7D"→7, "d"/"xd"→error |

## Left out

- I/O and transport are not modelled. That covers reading the CSV table and coercing its columns, the HTTP routes, the module-level table, and the response schemas. They only call `get_cities_products` once on the loaded table, and compose `parse_window`, `filter_data`, `get_raw_points`, `get_moving_average` and `get_anomalies` per request.
- `pd.to_datetime` and `strftime('%Y-%m-%d')` are not modelled. Dates are day ordinals, and reading a bound is a parameter that may fail. A bound that `pd.to_datetime` reads as `NaT` (such as `"NaT"`) is not modelled: in the code every comparison with it is false, so the result is an empty series rather than an error. Nor is a bound with a time of day: `pd.to_datetime("2024-01-01 12:00")` as `from_` excludes that day's rows, but as `to` it includes them, which one day ordinal per bound cannot express.
- `str.lower()` folds only ASCII letters here. Unicode case mapping is not modelled.
- `int()` accepts only an optional sign followed by ASCII digits. Python's leniency is not modelled: surrounding whitespace, `_` digit separators, and non-ASCII decimal digits (`int("٧") == 7`, so the code reads `"٧d"` as 7 where the model gives an error).
- Prices, means, variances and thresholds are exact reals. IEEE rounding is not modelled. Nor is the pandas rolling round-off that can leave a tiny non-zero std where the exact one is 0.
- PriceService.Anomalies: records hold the square of `z`, not `z`. Dafny has no square root. `PriceService.AnomalyMatchesZScore` relates the square to `z` for any std whose square is the floored variance.
- PriceService.AnomalyMatchesZScore: takes the std after the zero floor as given (the positive root of the floored variance). It does not derive that std from an unfloored root by cases.
- PriceService.MovingAverage: the `ma` column that the source adds to the caller's DataFrame in place is not modelled. The same holds for `PriceService.Anomalies` and the `mean`, `std`, `z` and `isAnomaly` columns. Only the returned records are modelled.
- Series.SortByDateDescending: it fixes one order for rows with equal dates, while pandas' default sort is not stable. `PriceService.DescendingPermutationsShareDates` shows this tie order is the only freedom left.
