/**
 * pandas `Series.rolling(window=w, min_periods=1)` with `.mean()` and
 * `.std(ddof=0)`, over exact reals. The window is positional: position `i`
 * sees positions `max(0, i - w + 1) .. i` of the series as it stands, so at
 * the head of the series it holds fewer than `w` values.
 */
module Rolling {

  /** First position of the window that ends at position `i`. */
  function WindowStart(w: int, i: int): (lo: int)
    requires w >= 1 && i >= 0
    ensures 0 <= lo <= i
    ensures i - lo + 1 == if i + 1 < w then i + 1 else w
  {
    if i - w + 1 < 0 then 0 else i - w + 1
  }

  /** The values the rolling statistic at position `i` is computed from. */
  function Window(xs: seq<real>, w: int, i: int): (win: seq<real>)
    requires w >= 1 && 0 <= i < |xs|
    ensures |win| == if i + 1 < w then i + 1 else w
    ensures win[|win| - 1] == xs[i]
    ensures forall k :: 0 <= k < |win| ==> win[k] == xs[WindowStart(w, i) + k]
  {
    xs[WindowStart(w, i)..i + 1]
  }

  function Sum(xs: seq<real>): real
    decreases |xs|
  {
    if xs == [] then 0.0 else Sum(xs[..|xs| - 1]) + xs[|xs| - 1]
  }

  /** Sum of squared deviations from `m`. */
  function SquaredDeviations(xs: seq<real>, m: real): real
    decreases |xs|
  {
    if xs == [] then 0.0
    else SquaredDeviations(xs[..|xs| - 1], m) + (xs[|xs| - 1] - m) * (xs[|xs| - 1] - m)
  }

  /** The mean times the count gives back the total. */
  function Mean(xs: seq<real>): (m: real)
    requires |xs| > 0
    ensures m * |xs| as real == Sum(xs)
  {
    Sum(xs) / |xs| as real
  }

  /** Population variance: the divisor is the number of values (`ddof=0`). */
  function PopVariance(xs: seq<real>): (v: real)
    requires |xs| > 0
    ensures v * |xs| as real == SquaredDeviations(xs, Mean(xs))
  {
    SquaredDeviations(xs, Mean(xs)) / |xs| as real
  }

  lemma MeanOfOne(x: real)
    ensures Mean([x]) == x
  {
    assert [x][..0] == [];
    assert Sum([x]) == x;
    assert |[x]| as real == 1.0;
  }

  lemma MeanOfTwo(x: real, y: real)
    ensures Mean([x, y]) == (x + y) / 2.0
  {
    assert [x, y][..1] == [x];
    assert [x][..0] == [];
    assert Sum([x]) == x;
    assert Sum([x, y]) == x + y;
    assert |[x, y]| as real == 2.0;
  }

  function SeqMin(xs: seq<real>): (m: real)
    requires |xs| > 0
    ensures m in xs
    ensures forall k :: 0 <= k < |xs| ==> m <= xs[k]
    decreases |xs|
  {
    if |xs| == 1 then xs[0]
    else
      var rest := SeqMin(xs[1..]);
      assert forall k :: 1 <= k < |xs| ==> xs[k] == xs[1..][k - 1];
      if xs[0] <= rest then xs[0] else rest
  }

  function SeqMax(xs: seq<real>): (m: real)
    requires |xs| > 0
    ensures m in xs
    ensures forall k :: 0 <= k < |xs| ==> xs[k] <= m
    decreases |xs|
  {
    if |xs| == 1 then xs[0]
    else
      var rest := SeqMax(xs[1..]);
      assert forall k :: 1 <= k < |xs| ==> xs[k] == xs[1..][k - 1];
      if rest <= xs[0] then xs[0] else rest
  }

  // ---------------------------------------------------------------------------
  // Facts about the sums

  /** Dropping the first value of a window. */
  lemma {:induction false} SumDropFirst(xs: seq<real>)
    requires |xs| > 0
    ensures Sum(xs) == xs[0] + Sum(xs[1..])
    decreases |xs|
  {
    if |xs| > 1 {
      SumDropFirst(xs[..|xs| - 1]);
      assert xs[..|xs| - 1][1..] == xs[1..][..|xs| - 2];
    }
  }

  lemma {:induction false} SumBounds(xs: seq<real>, lo: real, hi: real)
    requires forall k :: 0 <= k < |xs| ==> lo <= xs[k] <= hi
    ensures |xs| as real * lo <= Sum(xs) <= |xs| as real * hi
    decreases |xs|
  {
    if xs != [] {
      SumBounds(xs[..|xs| - 1], lo, hi);
    }
  }

  lemma DivideBounds(total: real, n: real, lo: real, hi: real)
    requires n > 0.0 && n * lo <= total <= n * hi
    ensures lo <= total / n <= hi
  {
  }

  lemma MeanBetween(xs: seq<real>, lo: real, hi: real)
    requires |xs| > 0
    requires forall k :: 0 <= k < |xs| ==> lo <= xs[k] <= hi
    ensures lo <= Mean(xs) <= hi
  {
    SumBounds(xs, lo, hi);
    DivideBounds(Sum(xs), |xs| as real, lo, hi);
  }

  /** A mean lies between the smallest and the largest value averaged. */
  lemma MeanWithinRange(xs: seq<real>)
    requires |xs| > 0
    ensures SeqMin(xs) <= Mean(xs) <= SeqMax(xs)
  {
    MeanBetween(xs, SeqMin(xs), SeqMax(xs));
  }

  /** Equal values: the mean is that value and the variance is zero. */
  lemma {:induction false} ConstantWindow(xs: seq<real>, c: real)
    requires |xs| > 0
    requires forall k :: 0 <= k < |xs| ==> xs[k] == c
    ensures Mean(xs) == c && PopVariance(xs) == 0.0
  {
    MeanBetween(xs, c, c);
    ZeroDeviations(xs, c);
  }

  lemma {:induction false} ZeroDeviations(xs: seq<real>, c: real)
    requires forall k :: 0 <= k < |xs| ==> xs[k] == c
    ensures SquaredDeviations(xs, c) == 0.0
    decreases |xs|
  {
    if xs != [] {
      ZeroDeviations(xs[..|xs| - 1], c);
    }
  }

  lemma SquareNonNegative(d: real)
    ensures d * d >= 0.0
  {
    if d < 0.0 {
      assert d * d == (-d) * (-d);
    }
  }

  lemma {:induction false} SquaredDeviationsNonNegative(xs: seq<real>, m: real)
    ensures SquaredDeviations(xs, m) >= 0.0
    decreases |xs|
  {
    if xs != [] {
      SquaredDeviationsNonNegative(xs[..|xs| - 1], m);
      SquareNonNegative(xs[|xs| - 1] - m);
    }
  }

  lemma PopVarianceNonNegative(xs: seq<real>)
    requires |xs| > 0
    ensures PopVariance(xs) >= 0.0
  {
    SquaredDeviationsNonNegative(xs, Mean(xs));
  }

  // ---------------------------------------------------------------------------
  // The rolling computations: one pass that slides a running sum along the
  // series, adding the value entering the window and removing the one leaving.

  /** Sliding one step: the sum of the window ending at `i` from the one ending at `i - 1`. */
  lemma SlideSum(xs: seq<real>, w: int, i: int)
    requires w >= 1 && 0 <= i < |xs|
    ensures Sum(Window(xs, w, i))
            == Sum(xs[(if i - w >= 0 then i - w else 0)..i]) + xs[i] - (if i - w >= 0 then xs[i - w] else 0.0)
  {
    var grown := xs[(if i - w >= 0 then i - w else 0)..i + 1];
    assert grown[..|grown| - 1] == xs[(if i - w >= 0 then i - w else 0)..i];
    if i - w >= 0 {
      SumDropFirst(grown);
      assert grown[1..] == Window(xs, w, i);
    } else {
      assert grown == Window(xs, w, i);
    }
  }

  /** `rolling(window=w, min_periods=1).mean()`. */
  method RollingMean(xs: seq<real>, w: int) returns (means: seq<real>)
    requires w >= 1
    ensures |means| == |xs|
    ensures forall i :: 0 <= i < |xs| ==> means[i] == Mean(Window(xs, w, i))
  {
    var out := new real[|xs|];
    var total := 0.0;
    var i := 0;
    while i < |xs|
      invariant 0 <= i <= |xs|
      invariant total == Sum(xs[(if i - w >= 0 then i - w else 0)..i])
      invariant forall k :: 0 <= k < i ==> out[k] == Mean(Window(xs, w, k))
    {
      SlideSum(xs, w, i);
      total := total + xs[i];
      if i - w >= 0 {
        total := total - xs[i - w];
      }
      out[i] := total / (i - WindowStart(w, i) + 1) as real;
      i := i + 1;
    }
    means := out[..];
  }

  /** The sum of squared deviations of `win` from `mean`, accumulated front to back. */
  method SquaredDeviationsOf(win: seq<real>, mean: real) returns (total: real)
    ensures total == SquaredDeviations(win, mean)
  {
    total := 0.0;
    for j := 0 to |win|
      invariant total == SquaredDeviations(win[..j], mean)
    {
      assert win[..j + 1][..j] == win[..j];
      total := total + (win[j] - mean) * (win[j] - mean);
    }
    assert win[..|win|] == win;
  }

  /**
   * `rolling(window=w, min_periods=1).std(ddof=0)`, squared: the population
   * variance of each window. The window's sum slides along the series as in
   * RollingMean; the squared deviations from its mean are then added up.
   */
  method RollingPopVariance(xs: seq<real>, w: int) returns (variances: seq<real>)
    requires w >= 1
    ensures |variances| == |xs|
    ensures forall i :: 0 <= i < |xs| ==> variances[i] == PopVariance(Window(xs, w, i))
  {
    var out := new real[|xs|];
    var total := 0.0;
    var i := 0;
    while i < |xs|
      invariant 0 <= i <= |xs|
      invariant total == Sum(xs[(if i - w >= 0 then i - w else 0)..i])
      invariant forall k :: 0 <= k < i ==> out[k] == PopVariance(Window(xs, w, k))
    {
      SlideSum(xs, w, i);
      total := total + xs[i];
      if i - w >= 0 {
        total := total - xs[i - w];
      }
      var lo := WindowStart(w, i);
      var deviations := SquaredDeviationsOf(xs[lo..i + 1], total / (i - lo + 1) as real);
      out[i] := deviations / (i - lo + 1) as real;
      i := i + 1;
    }
    variances := out[..];
  }
}
