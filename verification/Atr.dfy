// The average true range (internal/kernel/indicators.go).
module Atr {
  import opened Smoothing

  function Abs(x: real): real { if x < 0.0 then -x else x }
  function MaxOf(x: real, y: real): real { if x > y then x else y }

  function TrueRange(high: real, low: real, previous: real): real {
    MaxOf(high - low, MaxOf(Abs(high - previous), Abs(low - previous)))
  }

  function TrueRanges(highs: seq<real>, lows: seq<real>, closes: seq<real>): (trs: seq<real>)
    requires |highs| >= |closes| && |lows| >= |closes|
    ensures |trs| == if closes == [] then 0 else |closes| - 1
  {
    if |closes| < 2 then []
    else
      var n := |closes| - 1;
      TrueRanges(highs, lows, closes[..n]) + [TrueRange(highs[n], lows[n], closes[n - 1])]
  }

  /** The ATR after all the closes. */
  function AtrOf(highs: seq<real>, lows: seq<real>, closes: seq<real>, period: nat): real
    requires 1 <= period < |closes| && |highs| >= |closes| && |lows| >= |closes|
  {
    Smooth(TrueRanges(highs, lows, closes), period, WilderAlpha(period))
  }

  method AtrSeries(highs: seq<real>, lows: seq<real>, closes: seq<real>, period: nat) returns (out: seq<real>)
    requires period >= 1
    // past its length checks the code indexes all three by the closes
    requires |highs| > period && |lows| > period && |closes| > period ==> |highs| >= |closes| && |lows| >= |closes|
    ensures |out| == if |highs| <= period || |lows| <= period || |closes| <= period then 0 else |closes| - period
    ensures forall i :: 0 <= i < |out| ==>
      |highs| >= |closes| && |lows| >= |closes| && out[i] == AtrOf(highs, lows, closes[..period + 1 + i], period)
    ensures period == 1 ==> forall i :: 0 <= i < |out| ==>
      GreatestDistance(highs[i + 1], lows[i + 1], closes[i], out[i])
  {
    if |highs| <= period || |lows| <= period || |closes| <= period {
      return [];
    }
    var trs := [];
    for i := 1 to |closes|
      invariant trs == TrueRanges(highs, lows, closes[..i])
    {
      assert closes[..i + 1][..i] == closes[..i];
      trs := trs + [MaxOf(highs[i] - lows[i], MaxOf(Abs(highs[i] - closes[i - 1]), Abs(lows[i] - closes[i - 1])))];
    }
    assert closes[..|closes|] == closes;
    out := WilderSeries(trs, period);
    forall i | 0 <= i < |out|
      ensures out[i] == AtrOf(highs, lows, closes[..period + 1 + i], period)
    {
      PassIsSmooth(trs, period, WilderAlpha(period), i);
      TrueRangesPrefix(highs, lows, closes, period + 1 + i);
    }
    if period == 1 {
      forall i | 0 <= i < |out|
        ensures GreatestDistance(highs[i + 1], lows[i + 1], closes[i], out[i])
      {
        AtrOfOneBar(highs, lows, closes[..i + 2]);
      }
    }
  }

  lemma {:induction false} TrueRangesPrefix(highs: seq<real>, lows: seq<real>, closes: seq<real>, n: nat)
    requires |highs| >= |closes| && |lows| >= |closes| && 1 <= n <= |closes|
    ensures TrueRanges(highs, lows, closes[..n]) == TrueRanges(highs, lows, closes)[..n - 1]
  {
    var front := closes[..|closes| - 1];
    if n == |closes| {
      assert closes[..n] == closes;
    } else {
      TrueRangesPrefix(highs, lows, front, n);
      assert front[..n] == closes[..n];
    }
  }

  lemma {:induction false} TrueRangesNonNegative(highs: seq<real>, lows: seq<real>, closes: seq<real>)
    requires |highs| >= |closes| && |lows| >= |closes|
    ensures forall i :: 0 <= i < |TrueRanges(highs, lows, closes)| ==> TrueRanges(highs, lows, closes)[i] >= 0.0
  {
    if |closes| >= 2 {
      TrueRangesNonNegative(highs, lows, closes[..|closes| - 1]);
    }
  }

  /** Every ATR value is non-negative, whatever the bars, and lies between the least and the
      greatest true range so far. */
  lemma AtrWithin(highs: seq<real>, lows: seq<real>, closes: seq<real>, period: nat, lo: real, hi: real)
    requires 1 <= period < |closes| && |highs| >= |closes| && |lows| >= |closes|
    requires Within(TrueRanges(highs, lows, closes), lo, hi)
    ensures AtrOf(highs, lows, closes, period) >= 0.0
    ensures lo <= AtrOf(highs, lows, closes, period) <= hi
  {
    var trs := TrueRanges(highs, lows, closes);
    TrueRangesNonNegative(highs, lows, closes);
    WilderNonNegative(trs, period);
    WilderAlphaRange(period);
    SmoothWithin(trs, period, WilderAlpha(period), lo, hi);
  }

  // ---------- what a true range is ----------

  function MinOf(x: real, y: real): real { if x < y then x else y }

  // The greatest of the bar's height and the distances of its ends from the previous close.
  predicate GreatestDistance(high: real, low: real, previous: real, x: real) {
    && x >= high - low
    && x >= high - previous && x >= previous - high && x >= low - previous && x >= previous - low
    && (|| x == high - low || x == high - previous || x == previous - high
        || x == low - previous || x == previous - low)
  }

  lemma {:induction false} TrueRangesAre(highs: seq<real>, lows: seq<real>, closes: seq<real>, i: nat)
    requires |highs| >= |closes| && |lows| >= |closes| && 1 <= i < |closes|
    ensures GreatestDistance(highs[i], lows[i], closes[i - 1], TrueRanges(highs, lows, closes)[i - 1])
  {
    var front := closes[..|closes| - 1];
    if i < |front| {
      TrueRangesAre(highs, lows, front, i);
    }
  }

  /** Every true range is the greatest of the bar's height and the distances of its ends from the
      previous close; for a bar whose low is at most its high it is the length of the least interval
      that holds both ends and that close. */
  lemma {:induction false} TrueRangeSpans(highs: seq<real>, lows: seq<real>, closes: seq<real>, i: nat)
    requires |highs| >= |closes| && |lows| >= |closes| && 1 <= i < |closes|
    ensures GreatestDistance(highs[i], lows[i], closes[i - 1], TrueRanges(highs, lows, closes)[i - 1])
    ensures lows[i] <= highs[i] ==>
      TrueRanges(highs, lows, closes)[i - 1] == MaxOf(highs[i], closes[i - 1]) - MinOf(lows[i], closes[i - 1])
  {
    TrueRangesAre(highs, lows, closes, i);
  }

  /** With period 1 the ATR after a close is the true range of its bar. */
  lemma AtrOfOneBar(highs: seq<real>, lows: seq<real>, closes: seq<real>)
    requires |closes| >= 2 && |highs| >= |closes| && |lows| >= |closes|
    ensures var n := |closes| - 1;
      && GreatestDistance(highs[n], lows[n], closes[n - 1], AtrOf(highs, lows, closes, 1))
      && (lows[n] <= highs[n] ==>
            AtrOf(highs, lows, closes, 1) == MaxOf(highs[n], closes[n - 1]) - MinOf(lows[n], closes[n - 1]))
  {
    var n, trs := |closes| - 1, TrueRanges(highs, lows, closes);
    TrueRangeSpans(highs, lows, closes, n);
    SmoothOfOne(trs);
  }

  lemma SmoothOfOne(xs: seq<real>)
    requires xs != []
    ensures Smooth(xs, 1, WilderAlpha(1)) == xs[|xs| - 1]
  {
    WilderAlphaRange(1);
    SmoothIsLast(xs);
  }
}
