/** Optional cells and the results of operations that can fail. */
module Values {
  /** A table cell that may be missing; `None` plays the part of pandas' NaN. */
  datatype Option<+T> = None | Some(value: T)

  /** The outcome of an operation that raises on some inputs. */
  datatype Result<+T, +E> = Ok(value: T) | Err(error: E)
}

/** pandas' skip-NaN aggregations over a column of optional reals. */
module NanStats {
  import opened Values

  /** A missing value contributes nothing to a sum. */
  function ValueOr0(x: Option<real>): real
  {
    if x.Some? then x.value else 0.0
  }

  /** `Series.sum()`: missing values are skipped and the sum of nothing is 0.0. */
  function SumDefined(xs: seq<Option<real>>): (s: real)
    ensures (forall i :: 0 <= i < |xs| ==> xs[i].None?) ==> s == 0.0
  {
    if |xs| == 0 then 0.0
    else
      assert forall i :: 1 <= i < |xs| ==> xs[1..][i - 1] == xs[i];
      ValueOr0(xs[0]) + SumDefined(xs[1..])
  }

  /** The sum of two stacked columns is the sum of their sums. */
  lemma {:induction false} SumDefinedAppend(a: seq<Option<real>>, b: seq<Option<real>>)
    ensures SumDefined(a + b) == SumDefined(a) + SumDefined(b)
  {
    if |a| > 0 {
      assert (a + b)[1..] == a[1..] + b;
      SumDefinedAppend(a[1..], b);
    } else {
      assert a + b == b;
    }
  }

  /** The count of two stacked columns is the sum of their counts. */
  lemma {:induction false} CountDefinedAppend(a: seq<Option<real>>, b: seq<Option<real>>)
    ensures CountDefined(a + b) == CountDefined(a) + CountDefined(b)
  {
    if |a| > 0 {
      assert (a + b)[1..] == a[1..] + b;
      CountDefinedAppend(a[1..], b);
    } else {
      assert a + b == b;
    }
  }

  /** `Series.count()`: the number of defined values. */
  function CountDefined(xs: seq<Option<real>>): (n: nat)
    ensures n <= |xs|
    ensures n == 0 <==> forall i :: 0 <= i < |xs| ==> xs[i].None?
  {
    if |xs| == 0 then 0
    else
      assert forall i :: 1 <= i < |xs| ==> xs[1..][i - 1] == xs[i];
      (if xs[0].Some? then 1 else 0) + CountDefined(xs[1..])
  }

  /** `m` is the mean of the defined values: multiplying back by their count gives their sum. */
  predicate IsMean(m: real, xs: seq<Option<real>>)
  {
    m * CountDefined(xs) as real == SumDefined(xs)
  }

  /** `Series.mean()`: the mean of the defined values, undefined when there are none. */
  function MeanDefined(xs: seq<Option<real>>): (m: Option<real>)
    ensures m.None? <==> forall i :: 0 <= i < |xs| ==> xs[i].None?
    ensures m.Some? ==> IsMean(m.value, xs)
  {
    var n := CountDefined(xs);
    if n == 0 then None else Some(SumDefined(xs) / n as real)
  }

  /** A column whose defined values are all non-negative has a non-negative sum. */
  lemma {:induction false} SumDefinedNonNegative(xs: seq<Option<real>>)
    requires forall i :: 0 <= i < |xs| && xs[i].Some? ==> 0.0 <= xs[i].value
    ensures 0.0 <= SumDefined(xs)
  {
    if |xs| > 0 {
      var rest := xs[1..];
      assert forall i :: 0 <= i < |rest| ==> rest[i] == xs[i + 1];
      SumDefinedNonNegative(rest);
    }
  }

  /** ... and a non-negative mean whenever the mean is defined. */
  lemma MeanDefinedNonNegative(xs: seq<Option<real>>)
    requires forall i :: 0 <= i < |xs| && xs[i].Some? ==> 0.0 <= xs[i].value
    ensures MeanDefined(xs).Some? ==> 0.0 <= MeanDefined(xs).value
  {
    SumDefinedNonNegative(xs);
  }

  /** `q` is `num / den`: multiplying back by the denominator gives the numerator. */
  predicate IsQuotient(q: real, num: real, den: real)
  {
    q * den == num
  }

  /** `num / den` for a positive denominator. */
  function Quotient(num: real, den: real): (q: real)
    requires den > 0.0
    ensures IsQuotient(q, num, den)
  {
    num / den
  }

  /** A quotient is determined by its numerator and positive denominator. */
  lemma QuotientOf(q: real, num: real, d: real, den: real)
    requires den > 0.0 && num == d * den && IsQuotient(q, num, den)
    ensures q == d
  {
    assert (q - d) * den == 0.0;
  }

  /** A zero numerator over a positive denominator gives a zero quotient. */
  lemma QuotientOfZero(q: real, den: real)
    requires den > 0.0 && IsQuotient(q, 0.0, den)
    ensures q == 0.0
  {
  }

  /** Scaling nothing gives nothing. */
  lemma ScaleZero(d: real)
    ensures 0.0 == d * 0.0
  {
  }

  /** A head scaled by `d` plus a tail scaled by `d` is the whole sum scaled by `d`. */
  lemma ScaleSum(d: real, q: real, b: real, s: real, h: real, w: real)
    requires s == q + b && h == d * q && w == d * b
    ensures h + w == d * s
  {
  }

  /** `r` is `count / total`: multiplying back by the total gives the count. */
  predicate IsRatio(r: real, count: nat, total: nat)
  {
    r * total as real == count as real
  }

  /** `count / total` as a fraction, undefined when `total` is 0 (the source's `if not df.empty` guards). */
  function Fraction(count: nat, total: nat): (r: Option<real>)
    requires count <= total
    ensures r.None? <==> total == 0
    ensures r.Some? ==> 0.0 <= r.value <= 1.0 && IsRatio(r.value, count, total)
    ensures r.Some? ==> (r.value > 0.0 <==> count > 0) && (r.value == 1.0 <==> count == total)
  {
    if total == 0 then None
    else
      var t := total as real;
      var f := count as real / t;
      assert f * t == count as real;
      assert f <= 1.0;
      assert f > 0.0 <==> count > 0;
      assert f == 1.0 <==> count == total by {
        if f == 1.0 { assert f * t == t; }
      }
      Some(f)
  }
}
