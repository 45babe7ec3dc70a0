// The metrics of a finished backtest (internal/backtest/engine.go): one pass over the trades
// and one over the equity points.
module Metrics {
  import opened Ledger
  import opened LedgerTheorems

  // ---------- maximal drawdown ----------

  function Equities(points: seq<Point>): (es: seq<real>)
    ensures |es| == |points|
  {
    seq(|points|, i requires 0 <= i < |points| => points[i].equity)
  }

  // The fall from x to y in percent of x.
  function Drop(x: real, y: real): real
    requires x > 0.0
  {
    (x - y) / x * 100.0
  }

  function PeakOf(es: seq<real>): real {
    if es == [] then 0.0 else MaxReal(es[|es| - 1], PeakOf(es[..|es| - 1]))
  }

  function OnePass(es: seq<real>): real {
    if es == [] then 0.0
    else
      var before, e, peak := OnePass(es[..|es| - 1]), es[|es| - 1], PeakOf(es);
      MaxReal(DrawdownFrom(peak, e), before)
  }

  predicate NonNegative(es: seq<real>) {
    forall i :: 0 <= i < |es| ==> es[i] >= 0.0
  }

  // No later value falls more than `bound` percent below an earlier positive one.
  ghost predicate PairsWithin(es: seq<real>, bound: real) {
    forall i, j :: 0 <= i <= j < |es| && es[i] > 0.0 ==> Drop(es[i], es[j]) <= bound
  }

  lemma {:induction false} PeakDominates(es: seq<real>)
    ensures PeakOf(es) >= 0.0 && forall i :: 0 <= i < |es| ==> es[i] <= PeakOf(es)
    ensures PeakOf(es) == 0.0 || PeakOf(es) in es
  {
    if es != [] {
      PeakDominates(es[..|es| - 1]);
      assert es[|es| - 1] in es;
    }
  }

  // Falling to a non-negative value costs more percent from a higher start.
  lemma DropMonotone(x: real, peak: real, y: real)
    requires 0.0 < x <= peak && y >= 0.0
    ensures Drop(x, y) <= Drop(peak, y)
  {
    var a, b := y / x, y / peak;
    assert a * x == y && b * peak == y;
    assert b >= 0.0;
    assert b * (peak - x) >= 0.0;
    assert (a - b) * x >= 0.0;
    Quotient(x - y, x, 1.0 - a);
    Quotient(peak - y, peak, 1.0 - b);
  }

  lemma Quotient(n: real, d: real, q: real)
    requires d != 0.0 && q * d == n
    ensures n / d == q
  {
    var r := n / d;
    assert r * d == n;
    assert (r - q) * d == 0.0;
  }

  lemma DropSign(x: real, y: real)
    requires x > 0.0
    ensures x <= y ==> Drop(x, y) <= 0.0
    ensures x >= y ==> Drop(x, y) >= 0.0
  {
    var q := (x - y) / x;
    assert q * x == x - y;
  }

  /** On a series without negative values, the single pass finds the least upper bound of the
      drops over all ordered pairs, that is, the largest of them. */
  lemma {:induction false} OnePassIsAllPairs(es: seq<real>, bound: real)
    requires NonNegative(es) && bound >= 0.0
    ensures OnePass(es) <= bound <==> PairsWithin(es, bound)
  {
    if es != [] {
      var front, e, peak := es[..|es| - 1], es[|es| - 1], PeakOf(es);
      OnePassIsAllPairs(front, bound);
      PeakDominates(es);
      assert forall i :: 0 <= i < |front| ==> front[i] == es[i];
      if OnePass(es) <= bound {
        forall i, j | 0 <= i <= j < |es| && es[i] > 0.0
          ensures Drop(es[i], es[j]) <= bound
        {
          if j < |front| {
            assert Drop(front[i], front[j]) <= bound;
          } else {
            DropMonotone(es[i], peak, e);
            DropSign(peak, e);
          }
        }
      }
      if PairsWithin(es, bound) {
        assert PairsWithin(front, bound) by {
          forall i, j | 0 <= i <= j < |front| && front[i] > 0.0
            ensures Drop(front[i], front[j]) <= bound
          {
            assert Drop(es[i], es[j]) <= bound;
          }
        }
        if peak > 0.0 && peak > e {
          var i :| 0 <= i < |es| && es[i] == peak;
          assert Drop(es[i], es[|front|]) <= bound;
        }
      }
    }
  }

  // ---------- the trades ----------

  function Sum(trades: seq<Trade>, f: Trade -> real): real {
    if trades == [] then 0.0 else Sum(trades[..|trades| - 1], f) + f(trades[|trades| - 1])
  }

  function Count(trades: seq<Trade>, f: Trade -> bool): nat {
    if trades == [] then 0 else Count(trades[..|trades| - 1], f) + if f(trades[|trades| - 1]) then 1 else 0
  }

  function Pnl(t: Trade): real { t.pnl }
  function Gain(t: Trade): real { if t.pnl > 0.0 then t.pnl else 0.0 }
  function Loss(t: Trade): real { if t.pnl < 0.0 then t.pnl else 0.0 }
  function Fee(t: Trade): real { t.fee }
  predicate Wins(t: Trade) { t.pnl > 0.0 }
  predicate Loses(t: Trade) { t.pnl < 0.0 }
  predicate Opens(t: Trade) { t.kind.Open? }
  predicate EndsOne(t: Trade) { !t.kind.Open? }

  datatype Report = Report(totalTrades: nat, returnPct: real, winRate: real, totalPnl: real, profitFactor: real,
                           avgWin: real, avgLoss: real, maxDrawdownPct: real)

  // What a finished run shows: the report, and two of its own fields.
  datatype Summary = Summary(report: Report, finalEquity: real, liquidated: bool)

  function ReportOf(initial: real, equity: real, trades: seq<Trade>, points: seq<Point>): Report {
    if trades == [] then Report(0, 0.0, 0.0, 0.0, 0.0, 0.0, 0.0, 0.0)
    else
      var wins, losses := Count(trades, Wins), Count(trades, Loses);
      var won, lost := Sum(trades, Gain), Sum(trades, Loss);
      Report(|trades|,
             if initial > 0.0 then (equity - initial) / initial * 100.0 else 0.0,
             wins as real / |trades| as real,
             Sum(trades, Pnl),
             if losses > 0 && lost != 0.0 then won / -lost else 0.0,
             if wins > 0 then won / wins as real else 0.0,
             if losses > 0 then lost / losses as real else 0.0,
             OnePass(Equities(points)))
  }

  // The accumulators of the loop over the trades.
  datatype Tally = Tally(wins: nat, losses: nat, won: real, lost: real, total: real)

  function TallyOf(trades: seq<Trade>): Tally {
    Tally(Count(trades, Wins), Count(trades, Loses), Sum(trades, Gain), Sum(trades, Loss), Sum(trades, Pnl))
  }

  method TallyTrades(trades: seq<Trade>) returns (t: Tally)
    ensures t == TallyOf(trades)
  {
    var wins, losses, won, lost, total := 0, 0, 0.0, 0.0, 0.0;
    for i := 0 to |trades|
      invariant Tally(wins, losses, won, lost, total) == TallyOf(trades[..i])
    {
      assert trades[..i + 1][..i] == trades[..i];
      var pnl := trades[i].pnl;
      if pnl > 0.0 {
        wins, won := wins + 1, won + pnl;
      } else if pnl < 0.0 {
        losses, lost := losses + 1, lost + pnl;
      }
      total := total + pnl;
    }
    assert trades[..|trades|] == trades;
    t := Tally(wins, losses, won, lost, total);
  }

  method ComputeReport(initial: real, equity: real, trades: seq<Trade>, points: seq<Point>) returns (r: Report)
    ensures r == ReportOf(initial, equity, trades, points)
  {
    r := Report(|trades|, 0.0, 0.0, 0.0, 0.0, 0.0, 0.0, 0.0);
    if trades == [] {
      return;
    }
    if initial > 0.0 {
      r := r.(returnPct := (equity - initial) / initial * 100.0);
    }
    var t := TallyTrades(trades);
    r := r.(winRate := t.wins as real / |trades| as real, totalPnl := t.total);
    if t.losses > 0 && t.lost != 0.0 {
      r := r.(profitFactor := t.won / -t.lost);
    }
    if t.wins > 0 {
      r := r.(avgWin := t.won / t.wins as real);
    }
    if t.losses > 0 {
      r := r.(avgLoss := t.lost / t.losses as real);
    }
    var maxDrawdown := MaxDrawdown(points);
    r := r.(maxDrawdownPct := maxDrawdown);
  }

  method MaxDrawdown(points: seq<Point>) returns (maxDD: real)
    ensures maxDD == OnePass(Equities(points))
  {
    ghost var es := Equities(points);
    var peak := 0.0;
    maxDD := 0.0;
    for i := 0 to |points|
      invariant peak == PeakOf(es[..i]) && maxDD == OnePass(es[..i])
    {
      assert es[..i + 1][..i] == es[..i];
      PeakDominates(es[..i]);
      var e := points[i].equity;
      if e > peak {
        peak := e;
      }
      if peak > 0.0 && peak > e {
        var dd := (peak - e) / peak * 100.0;
        if dd > maxDD {
          maxDD := dd;
        }
      } else {
        OnePassNonNegative(es[..i]);
      }
    }
    assert es[..|points|] == es;
  }

  lemma {:induction false} OnePassNonNegative(es: seq<real>)
    ensures OnePass(es) >= 0.0
  {
    if es != [] {
      OnePassNonNegative(es[..|es| - 1]);
    }
  }

  // ---------- what the report means for a run's own log ----------

  lemma {:induction false} EquityIsNetPnl(cfg: Config, trades: seq<Trade>)
    ensures EquityOf(cfg, trades) == cfg.initial + Sum(trades, Pnl) - Sum(trades, Fee) - Slippages(trades)
  {
    if trades != [] {
      EquityIsNetPnl(cfg, trades[..|trades| - 1]);
    }
  }

  lemma {:induction false} OpensMinusEnds(cfg: Config, trades: seq<Trade>)
    requires Legal(cfg, trades)
    ensures Count(trades, Opens) == Count(trades, EndsOne) + |Holdings(trades)|
    ensures Count(trades, Opens) + Count(trades, EndsOne) == |trades|
    ensures Count(trades, Wins) <= Count(trades, EndsOne)
  {
    if trades != [] {
      OpensMinusEnds(cfg, trades[..|trades| - 1]);
    }
  }

  /** For a run's own book the reported return is the total profit net of fees and slippage. */
  lemma ReturnIsNetProfit(cfg: Config, b: Book)
    requires cfg.Valid() && Consistent(cfg, b) && b.trades != []
    ensures var r := ReportOf(cfg.initial, b.equity, b.trades, b.points);
      r.returnPct * cfg.initial == (r.totalPnl - Sum(b.trades, Fee) - Slippages(b.trades)) * 100.0
  {
    EquityIsNetPnl(cfg, b.trades);
    PercentOf(b.equity - cfg.initial, cfg.initial);
  }

  /** Every winning trade ends a position that another trade of the log opened, so the reported
      win rate of a run never exceeds one half. */
  lemma WinRateAtMostHalf(cfg: Config, trades: seq<Trade>, points: seq<Point>, equity: real)
    requires Legal(cfg, trades) && trades != []
    ensures 0.0 <= ReportOf(cfg.initial, equity, trades, points).winRate <= 0.5
  {
    OpensMinusEnds(cfg, trades);
    AtMostHalf(Count(trades, Wins), |trades|);
  }

  lemma AtMostHalf(wins: nat, n: nat)
    requires n > 0 && 2 * wins <= n
    ensures 0.0 <= wins as real / n as real <= 0.5
  {
    var rate := wins as real / n as real;
    assert rate * n as real == wins as real;
  }

  lemma PercentOf(n: real, d: real)
    requires d > 0.0
    ensures n / d * 100.0 * d == n * 100.0
  {
    var r := n / d;
    assert r * d == n;
    assert r * 100.0 * d == (r * d) * 100.0;
  }

  // ---------- the numbers themselves ----------

  // y lies at most `bound` percent of x below x.
  predicate FallWithin(x: real, y: real, bound: real) { (x - y) * 100.0 <= bound * x }

  lemma DropIs(x: real, y: real, bound: real)
    requires x > 0.0
    ensures Drop(x, y) <= bound <==> FallWithin(x, y, bound)
  {
    var d := Drop(x, y);
    PercentOf(x - y, x);
    assert d * x == (x - y) * 100.0;
    assert d <= bound ==> (bound - d) * x >= 0.0;
    assert d > bound ==> (d - bound) * x > 0.0;
    assert (bound - d) * x == bound * x - d * x && (d - bound) * x == d * x - bound * x;
  }

  ghost predicate FallsWithin(es: seq<real>, bound: real) {
    forall i, j :: 0 <= i <= j < |es| && es[i] > 0.0 ==> FallWithin(es[i], es[j], bound)
  }

  /** The maximal drawdown is at most `bound` percent if and only if no value lies more than that
      share of an earlier positive value below it. */
  lemma {:induction false} DrawdownIs(es: seq<real>, bound: real)
    requires NonNegative(es) && bound >= 0.0
    ensures OnePass(es) <= bound <==> FallsWithin(es, bound)
  {
    OnePassIsAllPairs(es, bound);
    if PairsWithin(es, bound) {
      forall i, j | 0 <= i <= j < |es| && es[i] > 0.0
        ensures FallWithin(es[i], es[j], bound)
      {
        DropIs(es[i], es[j], bound);
      }
    }
    if FallsWithin(es, bound) {
      forall i, j | 0 <= i <= j < |es| && es[i] > 0.0
        ensures Drop(es[i], es[j]) <= bound
      {
        assert FallWithin(es[i], es[j], bound);
        DropIs(es[i], es[j], bound);
      }
    }
  }

  function Trades(trades: seq<Trade>, sign: int): set<nat> {
    set i: nat | i < |trades| && Sign(trades[i].pnl) == sign
  }

  function Sign(x: real): int { if x > 0.0 then 1 else if x < 0.0 then -1 else 0 }

  lemma {:induction false} CountsAreSets(trades: seq<Trade>)
    ensures Count(trades, Wins) == |Trades(trades, 1)| && Count(trades, Loses) == |Trades(trades, -1)|
  {
    if trades == [] {
      assert Trades(trades, 1) == {} && Trades(trades, -1) == {};
    } else {
      var front, n := trades[..|trades| - 1], |trades| - 1;
      CountsAreSets(front);
      OneMoreTrade(front, trades[n], 1);
      OneMoreTrade(front, trades[n], -1);
      assert front + [trades[n]] == trades;
    }
  }

  lemma OneMoreTrade(front: seq<Trade>, t: Trade, sign: int)
    ensures |Trades(front + [t], sign)| == |Trades(front, sign)| + if Sign(t.pnl) == sign then 1 else 0
  {
    var before, n := Trades(front, sign), |front|;
    assert n !in before;
    if Sign(t.pnl) == sign {
      assert Trades(front + [t], sign) == before + {n};
    } else {
      assert Trades(front + [t], sign) == before;
    }
  }

  lemma {:induction false} SumsAdd(trades: seq<Trade>)
    ensures Sum(trades, Gain) + Sum(trades, Loss) == Sum(trades, Pnl)
    ensures Sum(trades, Gain) >= 0.0 >= Sum(trades, Loss)
    ensures Sum(trades, Gain) > 0.0 <==> Count(trades, Wins) > 0
    ensures Sum(trades, Loss) < 0.0 <==> Count(trades, Loses) > 0
  {
    if trades != [] {
      SumsAdd(trades[..|trades| - 1]);
    }
  }

  predicate IsRatio(ratio: real, part: real, whole: real) { ratio * whole == part }

  /** What the report says together: the win rate is the share of winning trades; the average win and
      the average loss are means over the winning and the losing trades, zero exactly if there are
      none, of two sums that make up the total profit; the profit factor is the ratio of these sums,
      zero without losers. */
  lemma ReportIs(initial: real, equity: real, trades: seq<Trade>, points: seq<Point>)
    requires trades != []
    ensures var r, wins, losses := ReportOf(initial, equity, trades, points), |Trades(trades, 1)|, |Trades(trades, -1)|;
      && IsRatio(r.winRate, wins as real, |trades| as real)
      && r.avgWin >= 0.0 >= r.avgLoss && (r.avgWin == 0.0 <==> wins == 0) && (r.avgLoss == 0.0 <==> losses == 0)
      && exists won, lost :: Sums(won, lost, r.totalPnl, r, wins, losses)
  {
    CountsAreSets(trades);
    SumsAdd(trades);
    var r, wins, losses := ReportOf(initial, equity, trades, points), Count(trades, Wins), Count(trades, Loses);
    var won, lost := Sum(trades, Gain), Sum(trades, Loss);
    Ratio(wins as real, |trades| as real);
    Average(won, wins);
    Average(-lost, losses);
    Negated(lost, losses as real);
    if losses > 0 {
      Ratio(won, -lost);
      Ratio(lost, losses as real);
    }
    assert Sums(won, lost, r.totalPnl, r, wins, losses);
  }

  // What the winners brought and the losers cost.
  predicate Sums(won: real, lost: real, total: real, r: Report, wins: nat, losses: nat) {
    && won + lost == total && IsRatio(r.avgWin, won, wins as real) && IsRatio(r.avgLoss, lost, losses as real)
    && (if losses > 0 then IsRatio(r.profitFactor, won, -lost) else r.profitFactor == 0.0)
  }

  lemma Average(sum: real, n: nat)
    requires sum >= 0.0 && (sum > 0.0 <==> n > 0)
    ensures n > 0 ==> IsRatio(sum / n as real, sum, n as real) && sum / n as real > 0.0
  {
  }

  lemma Negated(x: real, y: real)
    ensures y != 0.0 ==> -x / y == -(x / y)
  {
  }

  lemma Ratio(x: real, y: real)
    requires y != 0.0
    ensures IsRatio(x / y, x, y)
  {
  }
}
