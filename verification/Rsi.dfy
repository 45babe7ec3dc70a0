// The relative strength index with Wilder's smoothing (internal/kernel/indicators.go).
module Rsi {
  import opened Smoothing

  function Up(change: real): real { if change >= 0.0 then change else 0.0 }
  function Down(change: real): real { if change >= 0.0 then 0.0 else -change }

  function Gains(closes: seq<real>): (gains: seq<real>)
    ensures |gains| == if closes == [] then 0 else |closes| - 1
  {
    if |closes| < 2 then []
    else Gains(closes[..|closes| - 1]) + [Up(closes[|closes| - 1] - closes[|closes| - 2])]
  }

  function Losses(closes: seq<real>): (losses: seq<real>)
    ensures |losses| == if closes == [] then 0 else |closes| - 1
  {
    if |closes| < 2 then []
    else Losses(closes[..|closes| - 1]) + [Down(closes[|closes| - 1] - closes[|closes| - 2])]
  }

  function AvgGain(closes: seq<real>, period: nat): real
    requires 1 <= period < |closes|
  {
    Smooth(Gains(closes), period, WilderAlpha(period))
  }

  function AvgLoss(closes: seq<real>, period: nat): real
    requires 1 <= period < |closes|
  {
    Smooth(Losses(closes), period, WilderAlpha(period))
  }

  // Averages are never negative, so the code's inner division never meets a zero either.
  function RsiValue(avgGain: real, avgLoss: real): real
    requires avgGain >= 0.0 && avgLoss >= 0.0
  {
    if avgLoss == 0.0 then 100.0
    else
      QuotientSign(avgGain, avgLoss);
      100.0 - 100.0 / (1.0 + avgGain / avgLoss)
  }

  lemma QuotientSign(n: real, d: real)
    requires n >= 0.0 && d > 0.0
    ensures n / d >= 0.0
  {
    var q := n / d;
    assert q * d == n;
  }

  lemma {:induction false} ChangesNonNegative(closes: seq<real>)
    ensures forall i :: 0 <= i < |Gains(closes)| ==> Gains(closes)[i] >= 0.0
    ensures forall i :: 0 <= i < |Losses(closes)| ==> Losses(closes)[i] >= 0.0
  {
    if |closes| >= 2 {
      ChangesNonNegative(closes[..|closes| - 1]);
    }
  }

  lemma AveragesNonNegative(closes: seq<real>, period: nat)
    requires 1 <= period < |closes|
    ensures AvgGain(closes, period) >= 0.0 && AvgLoss(closes, period) >= 0.0
  {
    ChangesNonNegative(closes);
    WilderNonNegative(Gains(closes), period);
    WilderNonNegative(Losses(closes), period);
  }

  /** The RSI after all the closes. */
  function RsiOf(closes: seq<real>, period: nat): real
    requires 1 <= period < |closes|
  {
    AveragesNonNegative(closes, period);
    RsiValue(AvgGain(closes, period), AvgLoss(closes, period))
  }

  method GainsAndLosses(closes: seq<real>) returns (gains: seq<real>, losses: seq<real>)
    requires closes != []
    ensures gains == Gains(closes) && losses == Losses(closes)
  {
    gains, losses := [], [];
    for i := 1 to |closes|
      invariant gains == Gains(closes[..i]) && losses == Losses(closes[..i])
    {
      assert closes[..i + 1][..i] == closes[..i];
      var change := closes[i] - closes[i - 1];
      if change >= 0.0 {
        gains, losses := gains + [change], losses + [0.0];
      } else {
        gains, losses := gains + [0.0], losses + [-change];
      }
    }
    assert closes[..|closes|] == closes;
  }

  /** One value per close after the first `period`. */
  method RsiSeries(closes: seq<real>, period: nat) returns (out: seq<real>)
    requires period >= 1
    ensures |out| == if |closes| <= period then 0 else |closes| - period
    ensures forall i :: 0 <= i < |out| ==> out[i] == RsiAt(closes, period, i)
  {
    if |closes| <= period {
      return [];
    }
    var gains, losses := GainsAndLosses(closes);
    var avgGains := WilderSeries(gains, period);
    var avgLosses := WilderSeries(losses, period);
    out := [];
    for i := 0 to |avgGains|
      invariant |out| == i
      invariant forall j :: 0 <= j < i ==> out[j] == RsiAt(closes, period, j)
    {
      EntryAt(closes, period, i);
      out := out + [RsiValue(avgGains[i], avgLosses[i])];
    }
  }

  // The RSI after close number period + i.
  function RsiAt(closes: seq<real>, period: nat, i: nat): real
    requires 1 <= period && period + i < |closes|
  {
    RsiOf(closes[..period + 1 + i], period)
  }

  lemma SeriesAt(closes: seq<real>, period: nat, i: nat)
    requires 1 <= period && period + i < |closes|
    ensures Pass(Gains(closes), period, WilderAlpha(period))[i] == AvgGain(closes[..period + 1 + i], period)
    ensures Pass(Losses(closes), period, WilderAlpha(period))[i] == AvgLoss(closes[..period + 1 + i], period)
  {
    var front := closes[..period + 1 + i];
    assert Gains(front) == Gains(closes)[..period + i] && Losses(front) == Losses(closes)[..period + i] by {
      ChangesPrefix(closes, period + 1 + i);
    }
    PassOfPrefix(Gains(closes), Gains(front), period, i);
    PassOfPrefix(Losses(closes), Losses(front), period, i);
  }

  lemma PassOfPrefix(xs: seq<real>, front: seq<real>, period: nat, i: nat)
    requires 1 <= period && period + i <= |xs| && front == xs[..period + i]
    ensures Pass(xs, period, WilderAlpha(period))[i] == Smooth(front, period, WilderAlpha(period))
  {
    PassIsSmooth(xs, period, WilderAlpha(period), i);
  }

  lemma EntryAt(closes: seq<real>, period: nat, i: nat)
    requires 1 <= period && period + i < |closes|
    ensures var g := Pass(Gains(closes), period, WilderAlpha(period))[i];
      var l := Pass(Losses(closes), period, WilderAlpha(period))[i];
      g >= 0.0 && l >= 0.0 && RsiValue(g, l) == RsiAt(closes, period, i)
  {
    SeriesAt(closes, period, i);
    EntryOf(closes[..period + 1 + i], period);
  }

  lemma EntryOf(closes: seq<real>, period: nat)
    requires 1 <= period < |closes|
    ensures AvgGain(closes, period) >= 0.0 && AvgLoss(closes, period) >= 0.0
    ensures RsiValue(AvgGain(closes, period), AvgLoss(closes, period)) == RsiOf(closes, period)
  {
    AveragesNonNegative(closes, period);
  }

  lemma {:induction false} ChangesPrefix(closes: seq<real>, n: nat)
    requires 1 <= n <= |closes|
    ensures Gains(closes[..n]) == Gains(closes)[..n - 1] && Losses(closes[..n]) == Losses(closes)[..n - 1]
  {
    var front := closes[..|closes| - 1];
    if n == |closes| {
      assert closes[..n] == closes;
    } else {
      ChangesPrefix(front, n);
      assert front[..n] == closes[..n];
    }
  }

  // ---------- range ----------

  // The value is the share of the gains in gains plus losses.
  lemma RsiValueShare(g: real, l: real)
    requires g >= 0.0 && l > 0.0
    ensures RsiValue(g, l) * (g + l) == 100.0 * g
  {
    QuotientSign(g, l);
    var rs := g / l;
    var share := 100.0 / (1.0 + rs);
    assert rs * l == g && share * (1.0 + rs) == 100.0;
    assert (1.0 + rs) * l == g + l;
    assert share * (g + l) == (share * (1.0 + rs)) * l;
  }

  lemma RsiValueRange(g: real, l: real)
    requires g >= 0.0 && l >= 0.0
    ensures 0.0 <= RsiValue(g, l) <= 100.0
  {
    if l > 0.0 {
      RsiValueShare(g, l);
      var v, s := RsiValue(g, l), g + l;
      assert v * s >= 0.0 && (100.0 - v) * s == 100.0 * l;
    }
  }

  /** Every RSI value lies between 0 and 100. */
  lemma RsiInRange(closes: seq<real>, period: nat)
    requires 1 <= period < |closes|
    ensures 0.0 <= RsiOf(closes, period) <= 100.0
  {
    AveragesNonNegative(closes, period);
    RsiValueRange(AvgGain(closes, period), AvgLoss(closes, period));
  }

  // ---------- scaling and mirroring ----------

  function Times(k: real, x: real): real { k * x }

  function Scale(k: real, xs: seq<real>): (ys: seq<real>)
    ensures |ys| == |xs|
  {
    if xs == [] then [] else Scale(k, xs[..|xs| - 1]) + [Times(k, xs[|xs| - 1])]
  }

  function Negate(xs: seq<real>): (ys: seq<real>)
    ensures |ys| == |xs|
  {
    if xs == [] then [] else Negate(xs[..|xs| - 1]) + [-xs[|xs| - 1]]
  }

  lemma {:induction false} ScaleIsMix(k: real, xs: seq<real>)
    ensures Scale(k, xs) == Mix(k, xs, 0.0, xs)
  {
    if xs != [] {
      ScaleIsMix(k, xs[..|xs| - 1]);
    }
  }

  lemma SmoothScale(k: real, xs: seq<real>, p: nat, alpha: real)
    requires 1 <= p <= |xs|
    ensures Smooth(Scale(k, xs), p, alpha) == Times(k, Smooth(xs, p, alpha))
  {
    ScaleIsMix(k, xs);
    SmoothMix(k, xs, 0.0, xs, p, alpha);
  }

  lemma ScaleChange(k: real, x: real, y: real)
    requires k > 0.0
    ensures Up(Times(k, y) - Times(k, x)) == Times(k, Up(y - x))
    ensures Down(Times(k, y) - Times(k, x)) == Times(k, Down(y - x))
  {
    var c := y - x;
    assert k * y - k * x == k * c;
    assert c >= 0.0 <==> k * c >= 0.0;
  }

  // The last step of a scaled series.
  lemma ScaleLast(k: real, xs: seq<real>)
    requires |xs| >= 2
    ensures var n := |xs| - 1;
      && Scale(k, xs)[..n] == Scale(k, xs[..n])
      && Scale(k, xs)[n] == Times(k, xs[n]) && Scale(k, xs)[n - 1] == Times(k, xs[n - 1])
  {
    var n := |xs| - 1;
    assert Scale(k, xs[..n])[n - 1] == Times(k, xs[..n][n - 1]);
  }

  lemma {:induction false} GainsScale(k: real, closes: seq<real>)
    requires k > 0.0
    ensures Gains(Scale(k, closes)) == Scale(k, Gains(closes))
  {
    if |closes| >= 2 {
      var n := |closes| - 1;
      var scaled, change := Scale(k, closes), closes[n] - closes[n - 1];
      GainsScale(k, closes[..n]);
      ScaleLast(k, closes);
      ScaleChange(k, closes[n - 1], closes[n]);
      var front := Gains(closes[..n]);
      assert Gains(scaled) == Gains(scaled[..n]) + [Times(k, Up(change))];
      assert (front + [Up(change)])[..n - 1] == front;
      assert Scale(k, front + [Up(change)]) == Scale(k, front) + [Times(k, Up(change))];
    }
  }

  lemma {:induction false} LossesScale(k: real, closes: seq<real>)
    requires k > 0.0
    ensures Losses(Scale(k, closes)) == Scale(k, Losses(closes))
  {
    if |closes| >= 2 {
      var n := |closes| - 1;
      var scaled, change := Scale(k, closes), closes[n] - closes[n - 1];
      LossesScale(k, closes[..n]);
      ScaleLast(k, closes);
      ScaleChange(k, closes[n - 1], closes[n]);
      var front := Losses(closes[..n]);
      assert Losses(scaled) == Losses(scaled[..n]) + [Times(k, Down(change))];
      assert (front + [Down(change)])[..n - 1] == front;
      assert Scale(k, front + [Down(change)]) == Scale(k, front) + [Times(k, Down(change))];
    }
  }

  lemma {:induction false} ChangesNegate(closes: seq<real>)
    ensures Gains(Negate(closes)) == Losses(closes) && Losses(Negate(closes)) == Gains(closes)
  {
    if |closes| >= 2 {
      var n := |closes| - 1;
      var negated := Negate(closes);
      ChangesNegate(closes[..n]);
      assert negated[..n] == Negate(closes[..n]) && negated[n] == -closes[n];
      assert negated[n - 1] == Negate(closes[..n])[n - 1] == -closes[n - 1];
    }
  }

  lemma RsiValueScale(k: real, g: real, l: real)
    requires k > 0.0 && g >= 0.0 && l >= 0.0
    ensures Times(k, g) >= 0.0 && Times(k, l) >= 0.0 && RsiValue(Times(k, g), Times(k, l)) == RsiValue(g, l)
  {
    Positive(k, g);
    Positive(k, l);
    if l != 0.0 {
      var q, r := g / l, (k * g) / (k * l);
      assert q * l == g && r * (k * l) == k * g;
      assert k * (q * l) == q * (k * l);
      assert (r - q) * (k * l) == 0.0;
      assert r == q;
    }
  }

  lemma AveragesScale(k: real, closes: seq<real>, period: nat)
    requires k > 0.0 && 1 <= period < |closes|
    ensures AvgGain(Scale(k, closes), period) == Times(k, AvgGain(closes, period))
    ensures AvgLoss(Scale(k, closes), period) == Times(k, AvgLoss(closes, period))
  {
    GainsScale(k, closes);
    LossesScale(k, closes);
    SmoothScale(k, Gains(closes), period, WilderAlpha(period));
    SmoothScale(k, Losses(closes), period, WilderAlpha(period));
  }

  /** Scaling the closes by any positive factor leaves RSI unchanged. */
  lemma RsiScaleInvariant(k: real, closes: seq<real>, period: nat)
    requires k > 0.0 && 1 <= period < |closes|
    ensures RsiOf(Scale(k, closes), period) == RsiOf(closes, period)
  {
    AveragesScale(k, closes, period);
    AveragesNonNegative(closes, period);
    RsiValueScale(k, AvgGain(closes, period), AvgLoss(closes, period));
  }

  lemma ZeroFactor(a: real, s: real)
    requires s > 0.0 && a * s == 0.0
    ensures a == 0.0
  {
  }

  // Exchanging gains and losses mirrors the value at 50, unless both are zero.
  lemma RsiValueMirror(g: real, l: real)
    requires g >= 0.0 && l >= 0.0
    ensures RsiValue(l, g) == 100.0 - RsiValue(g, l) <==> g != 0.0 || l != 0.0
  {
    if g > 0.0 && l > 0.0 {
      RsiValueShare(g, l);
      RsiValueShare(l, g);
      var v, w, s := RsiValue(g, l), RsiValue(l, g), g + l;
      ZeroFactor(v + w - 100.0, s);
    } else if l > 0.0 {
      RsiValueShare(g, l);
      assert RsiValue(g, l) * l == 0.0;
    } else if g > 0.0 {
      RsiValueShare(l, g);
      assert RsiValue(l, g) * g == 0.0;
    }
  }

  predicate Flat(closes: seq<real>) {
    forall i :: 0 < i < |closes| ==> closes[i] == closes[0]
  }

  lemma {:induction false} FlatIff(closes: seq<real>)
    ensures AllZero(Gains(closes)) && AllZero(Losses(closes)) <==> Flat(closes)
  {
    if |closes| >= 2 {
      var n := |closes| - 1;
      var front := closes[..n];
      FlatIff(front);
      var g, l := Gains(closes), Losses(closes);
      assert g[..n - 1] == Gains(front) && l[..n - 1] == Losses(front);
      assert AllZero(g) <==> AllZero(Gains(front)) && g[n - 1] == 0.0;
      assert AllZero(l) <==> AllZero(Losses(front)) && l[n - 1] == 0.0;
      assert Flat(front) ==> front[n - 1] == front[0];
      assert Flat(closes) <==> Flat(front) && closes[n] == closes[0];
    }
  }

  /** Negating the closes mirrors RSI at 50 if and only if the smoothed averages are not both
      zero. */
  lemma RsiMirrorIff(closes: seq<real>, period: nat)
    requires 1 <= period < |closes|
    ensures RsiOf(Negate(closes), period) == 100.0 - RsiOf(closes, period)
      <==> AvgGain(closes, period) != 0.0 || AvgLoss(closes, period) != 0.0
  {
    ChangesNegate(closes);
    AveragesNonNegative(closes, period);
    RsiValueMirror(AvgGain(closes, period), AvgLoss(closes, period));
  }

  // All the changes that the averages still remember are zero: with period 1 the last one only.
  predicate Still(closes: seq<real>, period: nat)
    requires 1 <= period < |closes|
  {
    if period == 1 then closes[|closes| - 1] == closes[|closes| - 2] else Flat(closes)
  }

  /** The mirror fails only on closes that stand still: they read 100 both ways. */
  lemma RsiMirrorFailsOnFlat(closes: seq<real>, period: nat)
    requires 1 <= period < |closes|
    ensures RsiOf(Negate(closes), period) == 100.0 - RsiOf(closes, period) <==> !Still(closes, period)
  {
    RsiMirrorIff(closes, period);
    if period == 1 {
      StillOne(closes);
    } else {
      StillLong(closes, period);
    }
  }

  lemma StillLong(closes: seq<real>, period: nat)
    requires 2 <= period < |closes|
    ensures Flat(closes) <==> AvgGain(closes, period) == 0.0 && AvgLoss(closes, period) == 0.0
  {
    ChangesNonNegative(closes);
    WilderNonNegative(Gains(closes), period);
    WilderNonNegative(Losses(closes), period);
    FlatIff(closes);
  }

  lemma StillOne(closes: seq<real>)
    requires |closes| >= 2
    ensures closes[|closes| - 1] == closes[|closes| - 2] <==> AvgGain(closes, 1) == 0.0 && AvgLoss(closes, 1) == 0.0
  {
    LastChangeOnly(closes);
  }

  lemma LastChangeOnly(closes: seq<real>)
    requires |closes| >= 2
    ensures var change := closes[|closes| - 1] - closes[|closes| - 2];
      AvgGain(closes, 1) == Up(change) && AvgLoss(closes, 1) == Down(change)
  {
    WilderAlphaRange(1);
    SmoothIsLast(Gains(closes));
    SmoothIsLast(Losses(closes));
  }

  // ---------- the numbers themselves ----------

  function Size(x: real): real { if x < 0.0 then -x else x }

  // The length of the way that the closes go.
  function Path(closes: seq<real>): real {
    if |closes| < 2 then 0.0
    else Path(closes[..|closes| - 1]) + Size(closes[|closes| - 1] - closes[|closes| - 2])
  }

  lemma {:induction false} SumsOfChanges(closes: seq<real>)
    requires closes != []
    ensures Sum(Gains(closes)) - Sum(Losses(closes)) == closes[|closes| - 1] - closes[0]
    ensures Sum(Gains(closes)) + Sum(Losses(closes)) == Path(closes)
  {
    if |closes| >= 2 {
      SumsOfChanges(closes[..|closes| - 1]);
    }
  }

  // The RSI is the gain in percent of gain and loss together, or 100 without either.
  predicate IsShare(rsi: real, gain: real, loss: real) {
    rsi * (gain + loss) == 100.0 * gain && (gain + loss == 0.0 ==> rsi == 100.0)
  }

  lemma RsiIsShare(gain: real, loss: real)
    requires gain >= 0.0 && loss >= 0.0
    ensures IsShare(RsiValue(gain, loss), gain, loss)
  {
    if loss > 0.0 {
      QuotientSign(gain, loss);
      var q := gain / loss;
      assert q * loss == gain;
      ShareOfSum(q, loss);
    }
  }

  lemma ShareOfSum(q: real, loss: real)
    requires q >= 0.0
    ensures (100.0 - 100.0 / (1.0 + q)) * (q * loss + loss) == 100.0 * (q * loss)
  {
    var x := 100.0 / (1.0 + q);
    assert x * (1.0 + q) == 100.0;
    assert q * loss + loss == (1.0 + q) * loss;
    assert x * ((1.0 + q) * loss) == (x * (1.0 + q)) * loss;
    assert (100.0 - x) * ((1.0 + q) * loss) == 100.0 * ((1.0 + q) * loss) - x * ((1.0 + q) * loss);
  }

  /** The first RSI, after `period` changes, is the sum of the rises in percent of all the way: the
      rises are half of the way that the closes went plus their net change, the falls the rest. */
  lemma {:induction false} FirstRsi(closes: seq<real>, period: nat)
    requires 1 <= period && |closes| == period + 1
    ensures var net := closes[period] - closes[0];
      IsShare(RsiOf(closes, period), 0.5 * (Path(closes) + net), 0.5 * (Path(closes) - net))
  {
    var gain, loss := AvgGain(closes, period), AvgLoss(closes, period);
    WilderMoves(Gains(closes), 0.0, period);
    WilderMoves(Losses(closes), 0.0, period);
    AveragesNonNegative(closes, period);
    RsiIsShare(gain, loss);
    var up, down := Sum(Gains(closes)), Sum(Losses(closes));
    Scaled(RsiOf(closes, period), gain, loss, period as real, up, down);
    SumsOfChanges(closes);
    assert up == 0.5 * (Path(closes) + closes[period] - closes[0]);
    assert down == 0.5 * (Path(closes) - (closes[period] - closes[0]));
  }

  lemma Scaled(r: real, gain: real, loss: real, n: real, up: real, down: real)
    requires IsShare(r, gain, loss) && IsMean(gain, up, n) && IsMean(loss, down, n)
    requires gain >= 0.0 && loss >= 0.0 && n > 0.0
    ensures IsShare(r, up, down)
  {
    assert up + down == (gain + loss) * n;
    assert r * ((gain + loss) * n) == (r * (gain + loss)) * n == 100.0 * gain * n;
  }

  /** A further close moves the two averages a period-th of the way to the rise and to the fall, of
      which one is zero, and the RSI is the average gain in percent of both together. */
  lemma RsiMoves(closes: seq<real>, x: real, period: nat)
    requires 1 <= period < |closes|
    ensures var all, change := closes + [x], x - closes[|closes| - 1];
      && Moves(AvgGain(closes, period), AvgGain(all, period), if change > 0.0 then change else 0.0, 1.0, period as real)
      && Moves(AvgLoss(closes, period), AvgLoss(all, period), if change < 0.0 then -change else 0.0, 1.0, period as real)
      && IsShare(RsiOf(all, period), AvgGain(all, period), AvgLoss(all, period))
  {
    var all, change := closes + [x], x - closes[|closes| - 1];
    MoreChanges(closes, x);
    WilderMoves(Gains(closes), Up(change), period);
    WilderMoves(Losses(closes), Down(change), period);
    AveragesNonNegative(all, period);
    RsiIsShare(AvgGain(all, period), AvgLoss(all, period));
  }

  lemma {:induction false} MoreChanges(closes: seq<real>, x: real)
    requires closes != []
    ensures Gains(closes + [x]) == Gains(closes) + [Up(x - closes[|closes| - 1])]
    ensures Losses(closes + [x]) == Losses(closes) + [Down(x - closes[|closes| - 1])]
  {
    var all, n := closes + [x], |closes|;
    assert all[..n] == closes && all[n] == x && all[n - 1] == closes[n - 1];
  }
}
