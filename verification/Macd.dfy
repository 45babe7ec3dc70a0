// EMA and MACD over real closes (internal/kernel/indicators.go).
module Macd {
  import opened Smoothing

  // ---------- EMA and MACD ----------

  function EmaAlpha(period: nat): real { 2.0 / (period + 1) as real }

  function Ema(closes: seq<real>, period: nat): real
    requires 1 <= period <= |closes|
  {
    Smooth(closes, period, EmaAlpha(period))
  }

  method EmaSeries(closes: seq<real>, period: nat) returns (out: seq<real>)
    requires period >= 1
    ensures out == if |closes| < period then [] else Pass(closes, period, EmaAlpha(period))
  {
    if |closes| < period {
      return [];
    }
    out := SmoothSeries(closes, period, 2.0 / (period + 1) as real);
  }

  method EmaLast(closes: seq<real>, period: nat) returns (last: real, ok: bool)
    requires period >= 1
    ensures ok <==> |closes| >= period
    ensures last == if ok then Ema(closes, period) else 0.0
  {
    var series := EmaSeries(closes, period);
    if |series| == 0 {
      return 0.0, false;
    }
    PassIsSmooth(closes, period, EmaAlpha(period), |closes| - period);
    assert closes[..|closes|] == closes;
    return series[|series| - 1], true;
  }

  function Dif(closes: seq<real>): real
    requires |closes| >= 26
  {
    Ema(closes, 12) - Ema(closes, 26)
  }

  /** The DIF of every prefix of at least 26 closes. */
  function DifSeries(closes: seq<real>): (difs: seq<real>)
    ensures |difs| == if |closes| < 26 then 0 else |closes| - 25
  {
    if |closes| < 26 then [] else DifSeries(closes[..|closes| - 1]) + [Dif(closes)]
  }

  datatype MacdValue = MacdValue(dif: real, dea: real, hist: real)

  function MacdOf(closes: seq<real>): MacdValue
    requires |closes| >= 34
  {
    var dea := Ema(DifSeries(closes), 9);
    MacdValue(Dif(closes), dea, (Dif(closes) - dea) * 2.0)
  }

  /** Recomputes both EMAs for every prefix, as the code does; succeeds exactly on 34 closes or
      more. */
  method ComputeMacd(closes: seq<real>) returns (m: MacdValue, ok: bool)
    ensures ok <==> |closes| >= 34
    ensures m == if ok then MacdOf(closes) else MacdValue(0.0, 0.0, 0.0)
  {
    var fast, okFast := EmaLast(closes, 12);
    var slow, okSlow := EmaLast(closes, 26);
    if !okFast || !okSlow {
      return MacdValue(0.0, 0.0, 0.0), false;
    }
    var difs := [];
    for i := 25 to |closes|
      invariant difs == DifSeries(closes[..i])
    {
      var f, _ := EmaLast(closes[..i + 1], 12);
      var s, _ := EmaLast(closes[..i + 1], 26);
      assert closes[..i + 1][..i] == closes[..i];
      difs := difs + [f - s];
    }
    assert closes[..|closes|] == closes;
    if |difs| < 9 {
      return MacdValue(0.0, 0.0, 0.0), false;
    }
    var dea, _ := EmaLast(difs, 9);
    return MacdValue(fast - slow, dea, (fast - slow - dea) * 2.0), true;
  }

  /** The quadratic recomputation equals the difference of two single EMA passes, aligned at
      their ends, and DIF is its last element. */
  lemma DifsFromTwoPasses(closes: seq<real>, i: nat)
    requires |closes| >= 26 && i < |closes| - 25
    ensures DifSeries(closes)[i] == Pass(closes, 12, EmaAlpha(12))[i + 14] - Pass(closes, 26, EmaAlpha(26))[i]
    ensures DifSeries(closes)[|closes| - 26] == Dif(closes)
  {
    DifAt(closes, i);
    PassIsSmooth(closes, 12, EmaAlpha(12), i + 14);
    PassIsSmooth(closes, 26, EmaAlpha(26), i);
  }

  lemma {:induction false} DifAt(closes: seq<real>, i: nat)
    requires |closes| >= 26 && i < |closes| - 25
    ensures DifSeries(closes)[i] == Dif(closes[..26 + i])
  {
    if i == |closes| - 26 {
      assert closes[..26 + i] == closes;
    } else {
      var front := closes[..|closes| - 1];
      DifAt(front, i);
      assert front[..26 + i] == closes[..26 + i];
    }
  }

  // ---------- MACD is linear and blind to constants ----------

  lemma LinSub(a: real, x: real, X: real, b: real, y: real, Y: real)
    ensures Lin(a, x, b, y) - Lin(a, X, b, Y) == Lin(a, x - X, b, y - Y)
  {
    assert a * (x - X) == a * x - a * X && b * (y - Y) == b * y - b * Y;
  }

  lemma DifMix(a: real, xs: seq<real>, b: real, ys: seq<real>)
    requires |xs| == |ys| >= 26
    ensures Dif(Mix(a, xs, b, ys)) == Lin(a, Dif(xs), b, Dif(ys))
  {
    SmoothMix(a, xs, b, ys, 12, EmaAlpha(12));
    SmoothMix(a, xs, b, ys, 26, EmaAlpha(26));
    LinSub(a, Ema(xs, 12), Ema(xs, 26), b, Ema(ys, 12), Ema(ys, 26));
  }

  lemma {:induction false} DifSeriesMix(a: real, xs: seq<real>, b: real, ys: seq<real>)
    requires |xs| == |ys|
    ensures DifSeries(Mix(a, xs, b, ys)) == Mix(a, DifSeries(xs), b, DifSeries(ys))
  {
    if |xs| >= 26 {
      var n := |xs| - 1;
      DifSeriesMix(a, xs[..n], b, ys[..n]);
      DifMix(a, xs, b, ys);
      assert Mix(a, xs, b, ys)[..n] == Mix(a, xs[..n], b, ys[..n]);
    }
  }

  lemma DeaMix(a: real, xs: seq<real>, b: real, ys: seq<real>)
    requires |xs| == |ys| >= 34
    ensures MacdOf(Mix(a, xs, b, ys)).dea == Lin(a, MacdOf(xs).dea, b, MacdOf(ys).dea)
  {
    DifSeriesMix(a, xs, b, ys);
    SmoothMix(a, DifSeries(xs), b, DifSeries(ys), 9, EmaAlpha(9));
  }

  lemma TwiceDifference(a: real, x: real, X: real, b: real, y: real, Y: real)
    ensures (Lin(a, x, b, y) - Lin(a, X, b, Y)) * 2.0 == Lin(a, (x - X) * 2.0, b, (y - Y) * 2.0)
  {
    LinSub(a, x, X, b, y, Y);
    assert a * ((x - X) * 2.0) == a * (x - X) * 2.0 && b * ((y - Y) * 2.0) == b * (y - Y) * 2.0;
  }

  /** MACD of a * xs + b * ys is a * MACD(xs) + b * MACD(ys), in all three components. */
  lemma MacdIsLinear(a: real, xs: seq<real>, b: real, ys: seq<real>)
    requires |xs| == |ys| >= 34
    ensures MacdOf(Mix(a, xs, b, ys)) == MacdMix(a, MacdOf(xs), b, MacdOf(ys))
  {
    var x, y := MacdOf(xs), MacdOf(ys);
    DifMix(a, xs, b, ys);
    DeaMix(a, xs, b, ys);
    TwiceDifference(a, x.dif, x.dea, b, y.dif, y.dea);
  }

  function MacdMix(a: real, x: MacdValue, b: real, y: MacdValue): MacdValue {
    MacdValue(Lin(a, x.dif, b, y.dif), Lin(a, x.dea, b, y.dea), Lin(a, x.hist, b, y.hist))
  }

  lemma {:induction false} DifsOfConstant(xs: seq<real>, c: real)
    requires Within(xs, c, c)
    ensures Within(DifSeries(xs), 0.0, 0.0) && (|xs| >= 26 ==> Dif(xs) == 0.0)
  {
    if |xs| >= 26 {
      SmoothWithin(xs, 12, EmaAlpha(12), c, c);
      SmoothWithin(xs, 26, EmaAlpha(26), c, c);
      DifsOfConstant(xs[..|xs| - 1], c);
    }
  }

  /** Scaling all closes and adding a constant to them scales MACD and leaves no trace of the
      constant. */
  lemma MacdShiftScale(scale: real, closes: seq<real>, shift: real, ones: seq<real>)
    requires |closes| == |ones| >= 34 && Within(ones, 1.0, 1.0)
    ensures var m, x := MacdOf(Mix(scale, closes, shift, ones)), MacdOf(closes);
      m == MacdValue(scale * x.dif, scale * x.dea, scale * x.hist)
  {
    MacdIsLinear(scale, closes, shift, ones);
    DifsOfConstant(ones, 1.0);
    SmoothWithin(DifSeries(ones), 9, EmaAlpha(9), 0.0, 0.0);
  }

  /** An EMA stays between the least and the greatest close so far. */
  lemma EmaWithin(closes: seq<real>, period: nat, lo: real, hi: real)
    requires 1 <= period <= |closes| && Within(closes, lo, hi)
    ensures lo <= Ema(closes, period) <= hi
  {
    assert EmaAlpha(period) <= 1.0;
    SmoothWithin(closes, period, EmaAlpha(period), lo, hi);
  }

  // ---------- the numbers themselves ----------

  /** The EMA of exactly `period` closes is their mean; a further close moves it by 2 / (period + 1)
      of its distance to that close. */
  lemma EmaMoves(closes: seq<real>, x: real, period: nat)
    requires 1 <= period <= |closes|
    ensures |closes| == period ==> IsMean(Ema(closes, period), Sum(closes), period as real)
    ensures Moves(Ema(closes, period), Ema(closes + [x], period), x, 2.0, (period + 1) as real)
  {
    Quotient(2.0, (period + 1) as real);
    SmoothMoves(closes, x, period, EmaAlpha(period), 2.0, (period + 1) as real);
  }

  /** MACD after one more close: DIF is the 12-EMA less the 26-EMA of the closes, DEA moves by two
      tenths of its distance to DIF, and the histogram is twice DIF less DEA. */
  lemma MacdMoves(closes: seq<real>, x: real)
    requires |closes| >= 34
    ensures var m, n := MacdOf(closes), MacdOf(closes + [x]);
      && n.dif == Ema(closes + [x], 12) - Ema(closes + [x], 26)
      && Moves(m.dea, n.dea, n.dif, 2.0, 10.0) && n.hist == 2.0 * (n.dif - n.dea)
  {
    assert (closes + [x])[..|closes|] == closes;
    EmaMoves(DifSeries(closes), Dif(closes + [x]), 9);
  }

  /** The first DEA, after 34 closes, is the mean of the nine DIFs so far. */
  lemma FirstDea(closes: seq<real>)
    requires |closes| == 34
    ensures IsMean(MacdOf(closes).dea, Sum(DifSeries(closes)), 9.0)
    ensures forall i :: 0 <= i < 9 ==> DifSeries(closes)[i] == Ema(closes[..26 + i], 12) - Ema(closes[..26 + i], 26)
  {
    EmaMoves(DifSeries(closes), 0.0, 9);
    forall i | 0 <= i < 9
      ensures DifSeries(closes)[i] == Dif(closes[..26 + i])
    {
      DifAt(closes, i);
    }
  }
}
