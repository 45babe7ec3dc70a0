// The recurrence behind EMA, RSI and ATR (internal/kernel/indicators.go): the mean of the first
// p values, then a fixed fraction alpha of each new value.  EMA uses alpha = 2/(p+1), Wilder's
// smoothing alpha = 1/p.
module Smoothing {

  function Sum(xs: seq<real>): real {
    if xs == [] then 0.0 else Sum(xs[..|xs| - 1]) + xs[|xs| - 1]
  }

  function Blend(alpha: real, x: real, y: real): real { alpha * x + (1.0 - alpha) * y }

  function Mean(sum: real, n: nat): real
    requires n > 0
  {
    sum / n as real
  }

  /** The smoothed value after all of xs. */
  function Smooth(xs: seq<real>, p: nat, alpha: real): real
    requires 1 <= p <= |xs|
  {
    if |xs| == p then Mean(Sum(xs), p) else Blend(alpha, xs[|xs| - 1], Smooth(xs[..|xs| - 1], p, alpha))
  }

  /** The smoothed values after every prefix of at least p values, each from the one before. */
  function Pass(xs: seq<real>, p: nat, alpha: real): (out: seq<real>)
    requires 1 <= p <= |xs|
    ensures |out| == |xs| - p + 1
  {
    if |xs| == p then [Mean(Sum(xs), p)]
    else
      var before := Pass(xs[..|xs| - 1], p, alpha);
      before + [Blend(alpha, xs[|xs| - 1], before[|before| - 1])]
  }

  /** One pass gives on every prefix what recomputing that prefix gives. */
  lemma {:induction false} PassIsSmooth(xs: seq<real>, p: nat, alpha: real, i: nat)
    requires 1 <= p <= |xs| && i <= |xs| - p
    ensures Pass(xs, p, alpha)[i] == Smooth(xs[..p + i], p, alpha)
  {
    var front := xs[..|xs| - 1];
    if |xs| == p {
      assert xs[..p] == xs;
    } else if i < |xs| - p {
      PassIsSmooth(front, p, alpha, i);
      assert front[..p + i] == xs[..p + i];
    } else {
      PassIsSmooth(front, p, alpha, i - 1);
      assert front[..p + (i - 1)] == front && xs[..p + i] == xs;
    }
  }

  method SmoothSeries(xs: seq<real>, p: nat, alpha: real) returns (out: seq<real>)
    requires 1 <= p <= |xs|
    ensures out == Pass(xs, p, alpha)
  {
    var sum := 0.0;
    for i := 0 to p
      invariant sum == Sum(xs[..i])
    {
      assert xs[..i + 1][..i] == xs[..i];
      sum := sum + xs[i];
    }
    var prev := Mean(sum, p);
    out := [prev];
    for i := p to |xs|
      invariant out == Pass(xs[..i], p, alpha) && prev == out[|out| - 1]
    {
      assert xs[..i + 1][..i] == xs[..i];
      prev := Blend(alpha, xs[i], prev);
      out := out + [prev];
    }
    assert xs[..|xs|] == xs;
  }

  // ---------- bounds ----------

  predicate Within(xs: seq<real>, lo: real, hi: real) {
    forall i :: 0 <= i < |xs| ==> lo <= xs[i] <= hi
  }

  lemma {:induction false} SumWithin(xs: seq<real>, lo: real, hi: real)
    requires Within(xs, lo, hi)
    ensures lo * |xs| as real <= Sum(xs) <= hi * |xs| as real
  {
    if xs != [] {
      SumWithin(xs[..|xs| - 1], lo, hi);
      assert lo * |xs| as real == lo * (|xs| - 1) as real + lo;
      assert hi * |xs| as real == hi * (|xs| - 1) as real + hi;
    }
  }

  lemma MeanWithin(sum: real, n: nat, lo: real, hi: real)
    requires n > 0 && lo * n as real <= sum <= hi * n as real
    ensures lo <= Mean(sum, n) <= hi
  {
    var mean, d := Mean(sum, n), n as real;
    assert mean * d == sum;
    assert (mean - lo) * d == mean * d - lo * d;
    assert (hi - mean) * d == hi * d - mean * d;
  }

  lemma BlendWithin(alpha: real, x: real, y: real, lo: real, hi: real)
    requires 0.0 <= alpha <= 1.0 && lo <= x <= hi && lo <= y <= hi
    ensures lo <= Blend(alpha, x, y) <= hi
  {
    assert alpha * (x - lo) >= 0.0 && (1.0 - alpha) * (y - lo) >= 0.0;
    assert alpha * (hi - x) >= 0.0 && (1.0 - alpha) * (hi - y) >= 0.0;
  }

  /** The smoothed value stays between the least and the greatest value seen. */
  lemma {:induction false} SmoothWithin(xs: seq<real>, p: nat, alpha: real, lo: real, hi: real)
    requires 1 <= p <= |xs| && 0.0 <= alpha <= 1.0 && Within(xs, lo, hi)
    ensures lo <= Smooth(xs, p, alpha) <= hi
  {
    if |xs| == p {
      SumWithin(xs, lo, hi);
      MeanWithin(Sum(xs), p, lo, hi);
    } else {
      SmoothWithin(xs[..|xs| - 1], p, alpha, lo, hi);
      BlendWithin(alpha, xs[|xs| - 1], Smooth(xs[..|xs| - 1], p, alpha), lo, hi);
    }
  }

  // ---------- linearity ----------

  function Lin(a: real, x: real, b: real, y: real): real { a * x + b * y }

  /** The series a * xs + b * ys. */
  function Mix(a: real, xs: seq<real>, b: real, ys: seq<real>): (zs: seq<real>)
    requires |xs| == |ys|
    ensures |zs| == |xs|
  {
    if xs == [] then []
    else Mix(a, xs[..|xs| - 1], b, ys[..|ys| - 1]) + [Lin(a, xs[|xs| - 1], b, ys[|ys| - 1])]
  }

  lemma LinAdd(a: real, x: real, X: real, b: real, y: real, Y: real)
    ensures Lin(a, X + x, b, Y + y) == Lin(a, X, b, Y) + Lin(a, x, b, y)
  {
    assert a * (X + x) == a * X + a * x;
    assert b * (Y + y) == b * Y + b * y;
  }

  lemma LinScale(alpha: real, a: real, x: real, b: real, y: real)
    ensures alpha * Lin(a, x, b, y) == Lin(a, alpha * x, b, alpha * y)
  {
    assert alpha * (a * x) == a * (alpha * x) && alpha * (b * y) == b * (alpha * y);
  }

  lemma LinBlend(alpha: real, a: real, x: real, X: real, b: real, y: real, Y: real)
    ensures Blend(alpha, Lin(a, x, b, y), Lin(a, X, b, Y)) == Lin(a, Blend(alpha, x, X), b, Blend(alpha, y, Y))
  {
    var beta := 1.0 - alpha;
    LinScale(alpha, a, x, b, y);
    LinScale(beta, a, X, b, Y);
    LinAdd(a, beta * X, alpha * x, b, beta * Y, alpha * y);
  }

  lemma MeanIsScale(x: real, n: nat)
    requires n > 0
    ensures Mean(x, n) == (1.0 / n as real) * x
  {
    var m, k, d := Mean(x, n), 1.0 / n as real, n as real;
    assert m * d == x && k * d == 1.0;
    assert (k * x) * d == (k * d) * x;
    assert (m - k * x) * d == 0.0;
  }

  lemma LinMean(a: real, x: real, b: real, y: real, n: nat)
    requires n > 0
    ensures Mean(Lin(a, x, b, y), n) == Lin(a, Mean(x, n), b, Mean(y, n))
  {
    MeanIsScale(x, n);
    MeanIsScale(y, n);
    MeanIsScale(Lin(a, x, b, y), n);
    LinScale(1.0 / n as real, a, x, b, y);
  }

  lemma {:induction false} SumMix(a: real, xs: seq<real>, b: real, ys: seq<real>)
    requires |xs| == |ys|
    ensures Sum(Mix(a, xs, b, ys)) == Lin(a, Sum(xs), b, Sum(ys))
  {
    if xs != [] {
      var n := |xs| - 1;
      SumMix(a, xs[..n], b, ys[..n]);
      assert Mix(a, xs, b, ys)[..n] == Mix(a, xs[..n], b, ys[..n]);
      LinAdd(a, xs[n], Sum(xs[..n]), b, ys[n], Sum(ys[..n]));
    }
  }

  /** Smoothing is linear. */
  lemma {:induction false} SmoothMix(a: real, xs: seq<real>, b: real, ys: seq<real>, p: nat, alpha: real)
    requires |xs| == |ys| && 1 <= p <= |xs|
    ensures Smooth(Mix(a, xs, b, ys), p, alpha) == Lin(a, Smooth(xs, p, alpha), b, Smooth(ys, p, alpha))
  {
    if |xs| == p {
      SumMix(a, xs, b, ys);
      LinMean(a, Sum(xs), b, Sum(ys), p);
    } else {
      var n := |xs| - 1;
      SmoothMix(a, xs[..n], b, ys[..n], p, alpha);
      assert Mix(a, xs, b, ys)[..n] == Mix(a, xs[..n], b, ys[..n]);
      LinBlend(alpha, a, xs[n], Smooth(xs[..n], p, alpha), b, ys[n], Smooth(ys[..n], p, alpha));
    }
  }

  // ---------- zero ----------

  predicate AllZero(xs: seq<real>) {
    forall i :: 0 <= i < |xs| ==> xs[i] == 0.0
  }

  lemma {:induction false} SumZeroIff(xs: seq<real>)
    requires forall i :: 0 <= i < |xs| ==> xs[i] >= 0.0
    ensures Sum(xs) >= 0.0 && (Sum(xs) == 0.0 <==> AllZero(xs))
  {
    if xs != [] {
      SumZeroIff(xs[..|xs| - 1]);
      assert AllZero(xs) <==> AllZero(xs[..|xs| - 1]) && xs[|xs| - 1] == 0.0;
    }
  }

  /** On non-negative values and with a proper fraction, the smoothed value is zero only if every
      value so far was: smoothing never forgets. */
  lemma {:induction false} SmoothZeroIff(xs: seq<real>, p: nat, alpha: real)
    requires 1 <= p <= |xs| && 0.0 < alpha < 1.0
    requires forall i :: 0 <= i < |xs| ==> xs[i] >= 0.0
    ensures Smooth(xs, p, alpha) >= 0.0 && (Smooth(xs, p, alpha) == 0.0 <==> AllZero(xs))
  {
    if |xs| == p {
      SumZeroIff(xs);
      MeanIsScale(Sum(xs), p);
      Positive(1.0 / p as real, Sum(xs));
    } else {
      var front, last := xs[..|xs| - 1], xs[|xs| - 1];
      SmoothZeroIff(front, p, alpha);
      assert AllZero(xs) <==> AllZero(front) && last == 0.0;
      Positive(alpha, last);
      Positive(1.0 - alpha, Smooth(front, p, alpha));
    }
  }

  lemma Positive(a: real, x: real)
    requires a > 0.0 && x >= 0.0
    ensures a * x >= 0.0 && (a * x == 0.0 <==> x == 0.0)
  {
  }

  // ---------- Wilder's form ----------

  function WilderAlpha(period: nat): real
    requires period > 0
  {
    1.0 / period as real
  }

  function Wilder(avg: real, period: nat, x: real): real
    requires period > 0
  {
    (avg * (period - 1) as real + x) / period as real
  }

  lemma WilderIsBlend(avg: real, period: nat, x: real)
    requires period > 0
    ensures Wilder(avg, period, x) == Blend(WilderAlpha(period), x, avg)
  {
    var p, k := period as real, WilderAlpha(period);
    var y := avg * (p - 1.0) + x;
    assert k * p == 1.0 && Wilder(avg, period, x) == Mean(y, period);
    MeanIsScale(y, period);
    assert k * y == k * x + (k * p - k) * avg;
  }

  lemma WilderAlphaRange(period: nat)
    requires period > 0
    ensures 0.0 < WilderAlpha(period) <= 1.0
    ensures period >= 2 ==> WilderAlpha(period) < 1.0
    ensures WilderAlpha(1) == 1.0
  {
    var k := WilderAlpha(period);
    assert k * period as real == 1.0;
  }

  /** The loops of the code: a sum of the first p values, then Wilder's update per value. */
  method WilderSeries(xs: seq<real>, p: nat) returns (out: seq<real>)
    requires 1 <= p <= |xs|
    ensures out == Pass(xs, p, WilderAlpha(p))
  {
    var sum := 0.0;
    for i := 0 to p
      invariant sum == Sum(xs[..i])
    {
      assert xs[..i + 1][..i] == xs[..i];
      sum := sum + xs[i];
    }
    var prev := Mean(sum, p);
    out := [prev];
    for i := p to |xs|
      invariant out == Pass(xs[..i], p, WilderAlpha(p)) && prev == out[|out| - 1]
    {
      assert xs[..i + 1][..i] == xs[..i];
      WilderIsBlend(prev, p, xs[i]);
      prev := Wilder(prev, p, xs[i]);
      out := out + [prev];
    }
    assert xs[..|xs|] == xs;
  }

  lemma {:induction false} SmoothIsLast(xs: seq<real>)
    requires xs != []
    ensures Smooth(xs, 1, 1.0) == xs[|xs| - 1]
  {
    if |xs| == 1 {
      assert Sum(xs[..0]) == 0.0;
    }
  }

  /** Wilder's average of non-negative values; above period 1 it is zero only if all were. */
  lemma WilderNonNegative(xs: seq<real>, period: nat)
    requires 1 <= period <= |xs| && forall i :: 0 <= i < |xs| ==> xs[i] >= 0.0
    ensures Smooth(xs, period, WilderAlpha(period)) >= 0.0
    ensures period >= 2 ==> (Smooth(xs, period, WilderAlpha(period)) == 0.0 <==> AllZero(xs))
  {
    WilderAlphaRange(period);
    if period >= 2 {
      SmoothZeroIff(xs, period, WilderAlpha(period));
    } else {
      SmoothIsLast(xs);
    }
  }

  // ---------- the recurrence in quantities one can check by hand ----------

  // b times the move is a times the distance to the new value.
  predicate Moves(before: real, after: real, x: real, a: real, b: real) {
    (after - before) * b == a * (x - before)
  }

  predicate IsMean(mean: real, sum: real, n: real) { mean * n == sum }

  /** On exactly the first p values the smoothed value is their mean; after that, with a fraction of
      a b-ths, it moves by that fraction of its distance to the new value. */
  lemma SmoothMoves(xs: seq<real>, x: real, p: nat, alpha: real, a: real, b: real)
    requires 1 <= p <= |xs| && IsMean(alpha, a, b)
    ensures |xs| == p ==> IsMean(Smooth(xs, p, alpha), Sum(xs), p as real)
    ensures Moves(Smooth(xs, p, alpha), Smooth(xs + [x], p, alpha), x, a, b)
  {
    assert (xs + [x])[..|xs|] == xs;
    BlendMoves(alpha, x, Smooth(xs, p, alpha), a, b);
    MeanIsMean(Sum(xs), p);
  }

  lemma BlendMoves(alpha: real, x: real, y: real, a: real, b: real)
    requires IsMean(alpha, a, b)
    ensures Moves(y, Blend(alpha, x, y), x, a, b)
  {
    assert Blend(alpha, x, y) - y == alpha * (x - y);
    assert alpha * (x - y) * b == (alpha * b) * (x - y);
  }

  lemma MeanIsMean(sum: real, n: nat)
    requires n > 0
    ensures IsMean(Mean(sum, n), sum, n as real)
  {
  }

  /** Wilder's average moves by a p-th of its distance to the new value. */
  lemma WilderMoves(xs: seq<real>, x: real, p: nat)
    requires 1 <= p <= |xs|
    ensures |xs| == p ==> IsMean(Smooth(xs, p, WilderAlpha(p)), Sum(xs), p as real)
    ensures Moves(Smooth(xs, p, WilderAlpha(p)), Smooth(xs + [x], p, WilderAlpha(p)), x, 1.0, p as real)
  {
    Quotient(1.0, p as real);
    SmoothMoves(xs, x, p, WilderAlpha(p), 1.0, p as real);
  }

  lemma Quotient(a: real, b: real)
    requires b > 0.0
    ensures IsMean(a / b, a, b)
  {
  }
}
