/** latt.c's streaming statistics, with real numbers in place of doubles. */
module Welford {
  import opened CString

  function Sum(s: seq<real>): (r: real) {
    if s == [] then 0.0 else Sum(s[..|s| - 1]) + s[|s| - 1]
  }

  function Sq(x: real): (r: real)
    ensures r >= 0.0
  {
    x * x
  }

  function SumSq(s: seq<real>): (r: real) {
    if s == [] then 0.0 else SumSq(s[..|s| - 1]) + Sq(s[|s| - 1])
  }

  /** Sum of squared deviations from m. */
  function Deviation(s: seq<real>, m: real): (r: real)
    ensures r >= 0.0
  {
    if s == [] then 0.0 else Deviation(s[..|s| - 1], m) + Sq(s[|s| - 1] - m)
  }

  /** The comment's expression, (sum of squares) - (square of sum) / n. */
  function Textbook(q: real, sum: real, n: real): (r: real)
    requires n != 0.0
  {
    q - sum * sum / n
  }

  ghost predicate IsMax(s: seq<real>, m: real) {
    m in s && forall i | 0 <= i < |s| :: s[i] <= m
  }

  /** Sum of the cross products of an expanded sum of squared deviations. */
  function Cross(s: seq<real>, m: real): (r: real) {
    if s == [] then 0.0 else Cross(s[..|s| - 1], m) + m * s[|s| - 1]
  }

  lemma Distribute(m: real, a: real, b: real, total: real)
    requires total == a + b
    ensures m * total == m * a + m * b
  {}

  // Products are passed between lemmas under these names, so that each nonlinear fact is used in one place.

  predicate IsProduct(p: real, a: real, b: real) {
    p == a * b
  }

  predicate Expanded(dev: real, q: real, cross: real, p: real, n: real) {
    dev == q - 2.0 * cross + p * n
  }

  predicate Collapsed(dev: real, q: real, mean: real, sum: real) {
    dev == q - mean * sum
  }

  predicate IsMean(s: seq<real>, mean: real) {
    IsProduct(Sum(s), mean, |s| as real)
  }

  lemma {:induction false} CrossFactors(s: seq<real>, m: real)
    ensures IsProduct(Cross(s, m), m, Sum(s))
  {
    if s != [] {
      CrossFactors(s[..|s| - 1], m);
      Distribute(m, Sum(s[..|s| - 1]), s[|s| - 1], Sum(s));
    }
  }

  lemma Square(x: real, m: real)
    ensures Sq(x - m) == Sq(x) - 2.0 * (m * x) + m * m
  {}

  lemma {:induction false} DeviationExpands(s: seq<real>, m: real, p: real)
    requires IsProduct(p, m, m)
    ensures Expanded(Deviation(s, m), SumSq(s), Cross(s, m), p, |s| as real)
  {
    if s != [] {
      DeviationExpands(s[..|s| - 1], m, p);
      Square(s[|s| - 1], m);
      Distribute(p, (|s| - 1) as real, 1.0, |s| as real);
    }
  }

  lemma ExpandedAt(s: seq<real>, m: real) returns (c: real, p: real)
    ensures Expanded(Deviation(s, m), SumSq(s), c, p, |s| as real) && IsProduct(c, m, Sum(s)) && IsProduct(p, m, m)
  {
    c, p := Cross(s, m), m * m;
    DeviationExpands(s, m, p);
    CrossFactors(s, m);
  }

  /** Moving the centre from the mean costs n times the squared distance: the mean is where the sum of
      squared deviations is least. */
  lemma MeanMinimises(s: seq<real>, mean: real, m: real) returns (gap: real)
    requires IsMean(s, mean)
    ensures IsProduct(gap, Sq(m - mean), |s| as real) && gap >= 0.0
    ensures Deviation(s, m) == Deviation(s, mean) + gap
  {
    var c, p := ExpandedAt(s, mean);
    var c', p' := ExpandedAt(s, m);
    gap := Shift(Deviation(s, m), Deviation(s, mean), SumSq(s), Sum(s), |s| as real, mean, m, c, c', p, p');
  }

  lemma Shift(atM: real, atMean: real, q: real, sum: real, n: real, mean: real, m: real,
              c: real, c': real, p: real, p': real) returns (gap: real)
    requires Expanded(atMean, q, c, p, n) && IsProduct(c, mean, sum) && IsProduct(p, mean, mean)
    requires Expanded(atM, q, c', p', n) && IsProduct(c', m, sum) && IsProduct(p', m, m)
    requires IsProduct(sum, mean, n) && n >= 0.0
    ensures IsProduct(gap, Sq(m - mean), n) && gap >= 0.0 && atM == atMean + gap
  {
    var d := (m - mean) * (m - mean);
    gap := d * n;
    assert d == m * m - 2.0 * (mean * m) + mean * mean;
    assert mean * m * n == m * sum && mean * mean * n == mean * sum;
    assert gap == m * m * n - 2.0 * (mean * m * n) + mean * mean * n;
    SquareTimes(m - mean, n);
  }

  lemma SquareTimes(x: real, n: real)
    requires n >= 0.0
    ensures x * x * n >= 0.0
  {
    var d := x * x;
    assert d >= 0.0;
    assert d * n >= 0.0;
  }

  /** At the mean the expansion collapses to the comment's expression. */
  lemma DeviationAtMean(s: seq<real>, mean: real)
    requires IsMean(s, mean)
    ensures Collapsed(Deviation(s, mean), SumSq(s), mean, Sum(s))
  {
    var c, p := ExpandedAt(s, mean);
    AtMean(SumSq(s), Sum(s), |s| as real, mean, Deviation(s, mean), c, p);
  }

  lemma AtMean(q: real, sum: real, n: real, mean: real, dev: real, c: real, p: real)
    requires IsProduct(sum, mean, n) && IsProduct(c, mean, sum) && IsProduct(p, mean, mean) && Expanded(dev, q, c, p, n)
    ensures Collapsed(dev, q, mean, sum)
  {
    assert mean * mean * n == mean * (mean * n);
  }

  lemma Snoc(s: seq<real>, x: real, s': seq<real>)
    requires s' == s + [x]
    ensures Sum(s') == Sum(s) + x && SumSq(s') == SumSq(s) + Sq(x) && |s'| as real == |s| as real + 1.0
    ensures forall y | y in s :: y in s'
    ensures x in s'
  {
    var n := |s'| - 1;
    assert s'[..n] == s && s'[n] == x;
  }

  /** The new mean of update_stats is the mean of the extended sample. */
  lemma MeanStep(s: seq<real>, x: real, s': seq<real>, n: real, n': real, mean: real, delta: real, mean': real)
    requires s' == s + [x] && IsMean(s, mean) && n == |s| as real && n' == n + 1.0
    requires delta == x - mean && mean' == mean + delta / n'
    ensures IsMean(s', mean') && n' == |s'| as real
  {
    Snoc(s, x, s');
    MeanAlgebra(|s| as real, mean, Sum(s), x, n', |s'| as real, delta, mean', Sum(s'));
  }

  lemma MeanAlgebra(n: real, mean: real, sum: real, x: real, n': real, k': real, delta: real, mean': real, sum': real)
    requires n >= 0.0 && IsProduct(sum, mean, n) && n' == n + 1.0 && k' == n' && sum' == sum + x
    requires delta == x - mean && mean' == mean + delta / n'
    ensures IsProduct(sum', mean', k')
  {
    var e := delta / n';
    assert e * n' == delta;
    assert mean' * n' == mean * n' + e * n';
    assert mean * n' == mean * n + mean;
  }

  /** Welford's identity: extending a sample adds delta times the deviation from the new mean. */
  lemma WelfordStep(s: seq<real>, x: real, s': seq<real>, mean: real, delta: real, mean': real)
    requires s' == s + [x] && IsMean(s, mean) && IsMean(s', mean') && delta == x - mean
    ensures Deviation(s', mean') == Deviation(s, mean) + delta * (x - mean')
  {
    Snoc(s, x, s');
    DeviationAtMean(s, mean);
    DeviationAtMean(s', mean');
    Telescope(|s| as real, |s'| as real, mean, mean', x, delta, Sum(s), Sum(s'), SumSq(s), SumSq(s'),
              Deviation(s, mean), Deviation(s', mean'));
  }

  lemma Telescope(n: real, n': real, mean: real, mean': real, x: real, delta: real, sum: real, sum': real,
                  q: real, q': real, dev: real, dev': real)
    requires n' == n + 1.0 && sum' == sum + x && q' == q + Sq(x) && delta == x - mean
    requires IsProduct(sum, mean, n) && IsProduct(sum', mean', n')
    requires Collapsed(dev, q, mean, sum) && Collapsed(dev', q', mean', sum')
    ensures dev' == dev + delta * (x - mean')
  {
    assert (x - mean) * (x - mean') == x * x - x * mean' - mean * x + mean * mean';
    assert mean' * n == sum' - mean';
    assert mean' * sum == mean * (mean' * n) == mean * sum + mean * x - mean * mean';
    assert mean' * sum' == mean' * sum + mean' * x;
  }

  class Stats {
    var n: real
    var mean: real
    var M2: real
    var max: real
    ghost var samples: seq<real>

    /** The running fields in terms of everything seen so far. */
    ghost predicate Valid()
      reads this
    {
      && n == |samples| as real
      && (forall i | 0 <= i < |samples| :: samples[i] >= 0.0)
      && IsMean(samples, mean)
      && M2 == Deviation(samples, mean)
      && (if samples == [] then max == 0.0 else IsMax(samples, max))
    }

    constructor ()
      ensures Valid() && samples == []
    {
      n, mean, M2, max := 0.0, 0.0, 0.0, 0.0;
      samples := [];
    }

    /** update_stats. */
    method Update(val: nat)
      requires Valid()
      modifies this
      ensures Valid() && samples == old(samples) + [val as real]
    {
      var x := val as real;
      ghost var all := samples + [x];
      ghost var n0, mean0 := n, mean;
      var n1 := n + 1.0;
      n := n1;
      var delta := x - mean;
      var mean1 := mean + delta / n1;
      mean := mean1;
      M2 := M2 + delta * (x - mean1);
      if max < x {
        max := x;
      }
      Snoc(samples, x, all);
      MeanStep(samples, x, all, n0, n1, mean0, delta, mean1);
      WelfordStep(samples, x, all, mean0, delta, mean1);
      samples := all;
    }

    /** The variance that stddev_stats takes the root of: the comment's, and never negative. With a single
        sample it is 0 divided by 0 and there is none. */
    method Variance() returns (v: Option<real>)
      requires Valid()
      ensures v.None? <==> |samples| == 1
      ensures |samples| > 1 ==> v.value == Textbook(SumSq(samples), Sum(samples), n) / (n - 1.0) && v.value >= 0.0
      ensures samples == [] ==> v.value == 0.0
    {
      if n == 1.0 {
        return None;
      }
      if n > 1.0 {
        TextbookFormula(samples, mean, n);
        QuotientSign(M2, n - 1.0);
      }
      v := Some(M2 / (n - 1.0));
    }
  }

  lemma QuotientSign(a: real, b: real)
    requires a >= 0.0 && b > 0.0
    ensures a / b >= 0.0
  {}

  /** The sum of squared deviations from the mean is the comment's textbook expression. */
  lemma TextbookFormula(s: seq<real>, mean: real, n: real)
    requires IsMean(s, mean) && n == |s| as real && s != []
    ensures mean == Sum(s) / n && Deviation(s, mean) == Textbook(SumSq(s), Sum(s), n)
  {
    DeviationAtMean(s, mean);
    Quotient(|s| as real, n, mean, Sum(s), Deviation(s, mean), SumSq(s));
  }

  lemma Quotient(k: real, n: real, mean: real, sum: real, dev: real, q: real)
    requires k > 0.0 && IsProduct(sum, mean, k) && n == k && Collapsed(dev, q, mean, sum)
    ensures mean == sum / n && dev == Textbook(q, sum, n)
  {
    assert sum * sum / n == sum * (sum / n);
  }
}
