// Bollinger bands over real closes (internal/kernel/indicators.go).  math.Sqrt is represented by
// its defining property: a non-negative number with the given square.
module Bollinger {
  import opened Smoothing

  function Sq(x: real): real { x * x }

  /** The sum of the squared deviations from `mid`. */
  function Squares(window: seq<real>, mid: real): real {
    if window == [] then 0.0
    else Squares(window[..|window| - 1], mid) + Sq(window[|window| - 1] - mid)
  }

  function Middle(window: seq<real>): real
    requires window != []
  {
    Mean(Sum(window), |window|)
  }

  function PopulationVariance(window: seq<real>): real
    requires window != []
  {
    Mean(Squares(window, Middle(window)), |window|)
  }

  datatype Band = Band(mid: real, upper: real, lower: real)

  /** The band around the mean whose half-width squared is four times the population variance. */
  predicate IsBand(window: seq<real>, b: Band)
    requires window != []
  {
    && b.mid == Middle(window)
    && b.lower <= b.mid <= b.upper
    && b.upper - b.mid == b.mid - b.lower
    && Sq(b.upper - b.mid) == 4.0 * PopulationVariance(window)
  }

  method Boll(closes: seq<real>, period: nat, root: real) returns (b: Band, ok: bool)
    requires period >= 1
    requires |closes| >= period > 1 ==> root >= 0.0 && Sq(root) == PopulationVariance(closes[|closes| - period..])
    ensures ok <==> |closes| >= period
    ensures ok ==> IsBand(closes[|closes| - period..], b)
  {
    if |closes| < period {
      return Band(0.0, 0.0, 0.0), false;
    }
    var window := closes[|closes| - period..];
    var sum := 0.0;
    for i := 0 to period
      invariant sum == Sum(window[..i])
    {
      assert window[..i + 1][..i] == window[..i];
      sum := sum + window[i];
    }
    assert window[..period] == window;
    var mid := Mean(sum, period);
    var variance := 0.0;
    for i := 0 to period
      invariant variance == Squares(window[..i], mid)
    {
      assert window[..i + 1][..i] == window[..i];
      var d := window[i] - mid;
      variance := variance + d * d;
    }
    var std := 0.0;
    if period > 1 {
      std := root;  // math.Sqrt(variance / period)
    } else {
      SingleWindow(window);
    }
    Twice(std);
    return Band(mid, mid + 2.0 * std, mid - 2.0 * std), true;
  }

  lemma Twice(s: real)
    ensures Sq(2.0 * s) == 4.0 * Sq(s)
  {
  }

  // The code leaves the deviation of a one-element window at zero, which is right.
  lemma SingleWindow(window: seq<real>)
    requires |window| == 1
    ensures PopulationVariance(window) == 0.0
  {
    assert window[..0] == [];
    assert Sum(window) == window[0] && Mean(window[0], 1) == window[0];
    assert Squares(window, window[0]) == 0.0;
  }

  lemma SqInjective(x: real, y: real)
    requires x >= 0.0 && y >= 0.0
    ensures Sq(x) == Sq(y) <==> x == y
  {
    if x < y {
      SqGreater(y, x);
    } else if y < x {
      SqGreater(x, y);
    }
  }

  lemma SqGreater(x: real, d: real)
    requires d >= 0.0 && (x > d || x < -d)
    ensures Sq(x) > Sq(d)
  {
    var y := if x > d then x else -x;
    assert Sq(x) == Sq(y);
    assert Sq(y) - Sq(d) == (y - d) * (y + d);
    Positive(y - d, y + d);
  }

  lemma SqNonNegative(x: real)
    ensures Sq(x) >= 0.0
  {
  }

  /** There is only one such band, so the method's result is determined. */
  lemma BandIsUnique(window: seq<real>, b: Band, c: Band)
    requires window != [] && IsBand(window, b) && IsBand(window, c)
    ensures b == c
  {
    SqInjective(b.upper - b.mid, c.upper - c.mid);
  }

  // ---------- how much can lie outside ----------

  function Outside(window: seq<real>, b: Band): nat {
    if window == [] then 0
    else
      var last := window[|window| - 1];
      Outside(window[..|window| - 1], b) + if last < b.lower || last > b.upper then 1 else 0
  }

  lemma {:induction false} SquaresOfOutside(window: seq<real>, b: Band)
    requires b.lower <= b.mid <= b.upper && b.upper - b.mid == b.mid - b.lower
    ensures var n, d := Outside(window, b), Sq(b.upper - b.mid);
      Squares(window, b.mid) >= n as real * d && (n > 0 ==> Squares(window, b.mid) > n as real * d)
  {
    if window != [] {
      var front, last, d := window[..|window| - 1], window[|window| - 1], Sq(b.upper - b.mid);
      SquaresOfOutside(front, b);
      var n := Outside(front, b);
      if last < b.lower || last > b.upper {
        SqGreater(last - b.mid, b.upper - b.mid);
        assert (n + 1) as real * d == n as real * d + d;
      } else {
        SqNonNegative(last - b.mid);
      }
    }
  }

  /** Fewer than a quarter of the window's closes lie strictly outside the band, or none at all. */
  lemma FewLieOutside(window: seq<real>, b: Band)
    requires window != [] && IsBand(window, b)
    ensures Outside(window, b) == 0 || 4 * Outside(window, b) < |window|
  {
    SquaresOfOutside(window, b);
    var n, p, d := Outside(window, b), |window|, Sq(b.upper - b.mid);
    SqNonNegative(b.upper - b.mid);
    if n > 0 {
      var v := Squares(window, b.mid);
      assert Mean(v, p) * p as real == v;
      FewerThanQuarter(n, p, d, v);
    }
  }

  lemma FewerThanQuarter(n: nat, p: nat, d: real, v: real)
    requires p > 0 && d >= 0.0 && d == 4.0 * Mean(v, p) && v > n as real * d
    ensures 4 * n < p
  {
    var x := p as real - 4.0 * n as real;
    assert Mean(v, p) * p as real == v;
    assert d * p as real == 4.0 * v;
    assert d * x == d * p as real - 4.0 * (n as real * d);
    if x <= 0.0 && d > 0.0 {
      Positive(d, -x);
    }
  }

  // ---------- the variance ----------

  function SumOfSquares(window: seq<real>): real {
    if window == [] then 0.0 else SumOfSquares(window[..|window| - 1]) + Sq(window[|window| - 1])
  }

  // `total` is the sum of squares around `mid`, multiplied out.
  predicate Expands(total: real, squares: real, sum: real, n: real, mid: real) {
    total == squares - 2.0 * mid * sum + n * mid * mid
  }

  lemma ExpandsMore(total: real, squares: real, sum: real, n: real, mid: real, x: real)
    requires Expands(total, squares, sum, n, mid)
    ensures Expands(total + Sq(x - mid), squares + Sq(x), sum + x, n + 1.0, mid)
  {
    assert 2.0 * mid * (sum + x) == 2.0 * mid * sum + 2.0 * mid * x;
    assert (n + 1.0) * mid * mid == n * mid * mid + mid * mid;
  }

  lemma {:induction false} SquaresExpanded(window: seq<real>, mid: real)
    ensures Expands(Squares(window, mid), SumOfSquares(window), Sum(window), |window| as real, mid)
  {
    if window != [] {
      var front, x := window[..|window| - 1], window[|window| - 1];
      SquaresExpanded(front, mid);
      ExpandsMore(Squares(front, mid), SumOfSquares(front), Sum(front), |front| as real, mid, x);
      assert |window| as real == |front| as real + 1.0;
    }
  }

  /** The middle is the mean of the window, and the size of the window times the variance the sum of
      its squares less the middle times its sum. */
  predicate Spread(window: seq<real>, n: real, mid: real, variance: real) {
    IsMean(mid, Sum(window), n) && IsMean(variance, SumOfSquares(window) - mid * Sum(window), n)
  }

  /** The half-width of the band is twice the root of that variance. */
  lemma BandIs(window: seq<real>, b: Band)
    requires window != [] && IsBand(window, b)
    ensures Spread(window, |window| as real, b.mid, 0.25 * Sq(b.upper - b.mid))
  {
    var n := |window| as real;
    SquaresExpanded(window, b.mid);
    MeanIsMean(Sum(window), |window|);
    MeanIsMean(Squares(window, b.mid), |window|);
    AtTheMean(Squares(window, b.mid), SumOfSquares(window), Sum(window), n, b.mid, PopulationVariance(window));
    assert PopulationVariance(window) == 0.25 * Sq(b.upper - b.mid);
  }

  lemma AtTheMean(total: real, squares: real, sum: real, n: real, mid: real, variance: real)
    requires IsMean(mid, sum, n) && IsMean(variance, total, n) && Expands(total, squares, sum, n, mid)
    ensures IsMean(variance, squares - mid * sum, n)
  {
    assert n * mid * mid == sum * mid;
  }
}
