/**
 * The pieces of Python's string behaviour that the price service relies on:
 * `str.lower()` (ASCII letters only), the default ordering of `str` values
 * used by `sorted`, and `int()` on a plain decimal literal.
 */
module Text {
  import opened Results

  // ---------------------------------------------------------------------------
  // Case folding

  function LowerChar(c: char): char
  {
    if 'A' <= c <= 'Z' then (c as int + 32) as char else c
  }

  /**
   * `s.lower()` restricted to ASCII letters: same length, no upper-case
   * letter left, and every other character unchanged.
   */
  function Lower(s: string): (r: string)
    ensures |r| == |s|
    ensures forall i :: 0 <= i < |r| ==> !('A' <= r[i] <= 'Z')
    ensures forall i :: 0 <= i < |s| && !('A' <= s[i] <= 'Z') ==> r[i] == s[i]
    ensures forall i :: 0 <= i < |s| && 'A' <= s[i] <= 'Z' ==> r[i] == (s[i] as int + 32) as char
  {
    seq(|s|, i requires 0 <= i < |s| => LowerChar(s[i]))
  }

  // ---------------------------------------------------------------------------
  // Python's ordering of strings: lexicographic by code point, a proper
  // prefix sorting first.

  predicate LexLess(a: string, b: string)
    ensures |a| < |b| && a == b[..|a|] ==> LexLess(a, b)
    decreases |a|
  {
    |b| > 0 && (|a| == 0 || a[0] < b[0] || (a[0] == b[0] && LexLess(a[1..], b[1..])))
  }

  lemma {:induction false} LexLessIrreflexive(a: string)
    ensures !LexLess(a, a)
    decreases |a|
  {
    if |a| > 0 {
      LexLessIrreflexive(a[1..]);
    }
  }

  lemma {:induction false} LexLessTransitive(a: string, b: string, c: string)
    requires LexLess(a, b) && LexLess(b, c)
    ensures LexLess(a, c)
    decreases |a|
  {
    if |a| > 0 && a[0] == b[0] && b[0] == c[0] {
      LexLessTransitive(a[1..], b[1..], c[1..]);
    }
  }

  lemma {:induction false} LexLessTotal(a: string, b: string)
    requires a != b
    ensures LexLess(a, b) || LexLess(b, a)
    decreases |a|
  {
    if |a| > 0 && |b| > 0 && a[0] == b[0] {
      assert a == [a[0]] + a[1..] && b == [b[0]] + b[1..];
      LexLessTotal(a[1..], b[1..]);
    }
  }

  /** At position `k` the two strings differ for the first time, and `a` has the smaller code point there. */
  predicate FirstDifferenceLess(a: string, b: string, k: int)
  {
    0 <= k < |a| && k < |b| && a[..k] == b[..k] && a[k] < b[k]
  }

  /**
   * `LexLess` is Python's string order: `a` sorts first exactly when it is a
   * proper prefix of `b`, or when the first code point where they differ is
   * smaller in `a`.
   */
  lemma {:induction false} LexLessFirstDifference(a: string, b: string)
    ensures LexLess(a, b) <==>
      (|a| < |b| && a == b[..|a|]) || exists k :: FirstDifferenceLess(a, b, k)
    decreases |a|
  {
    if |a| > 0 && |b| > 0 {
      LexLessFirstDifference(a[1..], b[1..]);
      if a[0] == b[0] {
        // A witness for the tails shifts by one, and back.
        forall k | FirstDifferenceLess(a[1..], b[1..], k)
          ensures FirstDifferenceLess(a, b, k + 1)
        {
          assert a[..k + 1] == [a[0]] + a[1..][..k];
          assert b[..k + 1] == [b[0]] + b[1..][..k];
        }
        forall k | FirstDifferenceLess(a, b, k) && k > 0
          ensures FirstDifferenceLess(a[1..], b[1..], k - 1)
        {
          assert a[1..][..k - 1] == a[..k][1..];
          assert b[1..][..k - 1] == b[..k][1..];
        }
        if |a| < |b| && a == b[..|a|] {
          assert a[1..] == b[1..][..|a| - 1];
        }
        if |a| - 1 < |b| - 1 && a[1..] == b[1..][..|a| - 1] {
          assert a == [a[0]] + a[1..];
          assert b[..|a|] == [b[0]] + b[1..][..|a| - 1];
        }
        assert !FirstDifferenceLess(a, b, 0);
      } else {
        assert FirstDifferenceLess(a, b, 0) <==> a[0] < b[0];
      }
    } else if |a| > 0 {
      assert forall k :: !FirstDifferenceLess(a, b, k);
    }
  }

  /** Lower-casing twice is lower-casing once. */
  lemma LowerIdempotent(s: string)
    ensures Lower(Lower(s)) == Lower(s)
  {
  }

  lemma LexLessAsymmetric(a: string, b: string)
    requires LexLess(a, b)
    ensures !LexLess(b, a)
  {
    if LexLess(b, a) {
      LexLessTransitive(a, b, a);
      LexLessIrreflexive(a);
    }
  }

  // ---------------------------------------------------------------------------
  // Decimal integer literals: an optional '-' or '+' followed by one or more
  // ASCII digits, the part of Python's `int(str)` the window parser uses.

  predicate IsDigit(c: char)
  {
    '0' <= c <= '9'
  }

  predicate AllDigits(s: string)
  {
    forall i :: 0 <= i < |s| ==> IsDigit(s[i])
  }

  function DigitValue(c: char): nat
    requires IsDigit(c)
  {
    c as int - '0' as int
  }

  function DigitChar(d: nat): (c: char)
    requires d < 10
    ensures IsDigit(c) && DigitValue(c) == d
  {
    ('0' as int + d) as char
  }

  /** The value of a run of digits, most significant first. */
  function DigitsValue(s: string): nat
    requires AllDigits(s)
    decreases |s|
  {
    if s == [] then 0 else DigitsValue(s[..|s| - 1]) * 10 + DigitValue(s[|s| - 1])
  }

  /**
   * `int(s)`; `None` stands for the `ValueError` Python raises. A value is
   * read exactly from a run of digits with an optional leading sign, and a
   * '-' makes it at most 0.
   */
  function ParseInt(s: string): (r: Option<int>)
    ensures r.Some? <==> (|s| > 0 && AllDigits(s)) || (|s| > 1 && (s[0] == '-' || s[0] == '+') && AllDigits(s[1..]))
    ensures r.Some? && |s| > 0 && s[0] == '-' ==> r.value <= 0
    ensures r.Some? && |s| > 0 && s[0] != '-' ==> r.value >= 0
  {
    if |s| > 0 && (s[0] == '-' || s[0] == '+') then
      var body := s[1..];
      if |body| > 0 && AllDigits(body) then
        var magnitude: int := DigitsValue(body);
        Some(if s[0] == '-' then -magnitude else magnitude)
      else
        None
    else if |s| > 0 && AllDigits(s) then
      Some(DigitsValue(s))
    else
      None
  }

  /** The shortest decimal spelling of a natural number. */
  function NatToDigits(n: nat): (s: string)
    ensures |s| > 0 && AllDigits(s)
    decreases n
  {
    if n < 10 then [DigitChar(n)] else NatToDigits(n / 10) + [DigitChar(n % 10)]
  }

  /** `str(n)` for an integer. */
  function IntToString(n: int): string
  {
    if n < 0 then "-" + NatToDigits(-n) else NatToDigits(n)
  }

  lemma {:induction false} NatToDigitsRoundTrip(n: nat)
    ensures DigitsValue(NatToDigits(n)) == n
    decreases n
  {
    var s := NatToDigits(n);
    if n >= 10 {
      NatToDigitsRoundTrip(n / 10);
      assert s[..|s| - 1] == NatToDigits(n / 10);
    }
  }

  /** Reading back what `str` wrote gives the number again. */
  lemma ParseIntRoundTrip(n: int)
    ensures ParseInt(IntToString(n)) == Some(n)
  {
    if n < 0 {
      var s := IntToString(n);
      assert s[1..] == NatToDigits(-n);
      NatToDigitsRoundTrip(-n);
    } else {
      NatToDigitsRoundTrip(n);
    }
  }

  /** A single digit reads as its value. */
  lemma ParseIntDigit(c: char)
    requires IsDigit(c)
    ensures ParseInt([c]) == Some(DigitValue(c))
  {
    assert [c][..0] == [];
    assert AllDigits([c]);
    assert DigitsValue([c]) == DigitsValue([]) * 10 + DigitValue(c);
  }

  /**
   * Appending a digit to a digit run multiplies its value by ten and adds the
   * digit; together with ParseIntDigit this fixes the value of every run,
   * leading zeros included ("007" reads as 7).
   */
  lemma ParseIntAppendDigit(d: string, c: char)
    requires |d| > 0 && AllDigits(d) && IsDigit(c)
    ensures ParseInt(d + [c]) == Some(10 * ParseInt(d).value + DigitValue(c))
  {
    assert (d + [c])[..|d|] == d;
  }

  /** A '+' changes nothing and a '-' negates ("+7" reads as 7, "-0" as 0). */
  lemma ParseIntSigned(d: string)
    requires |d| > 0 && AllDigits(d)
    ensures ParseInt("+" + d) == ParseInt(d)
    ensures ParseInt("-" + d) == Some(-ParseInt(d).value)
  {
    assert ("+" + d)[1..] == d;
    assert ("-" + d)[1..] == d;
  }

  /** `int` rejects the empty string and a string that starts with neither a sign nor a digit. */
  lemma ParseIntRejects(s: string)
    requires s == [] || (!IsDigit(s[0]) && s[0] != '-' && s[0] != '+')
    ensures ParseInt(s) == None
  {
  }
}
