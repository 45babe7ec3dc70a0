// What the trade log of a backtest run says: strict alternation per symbol, and where the cash
// and the equity of a run drift apart.
module LedgerTheorems {
  import opened Ledger

  // ---------- alternation ----------

  // The trades of one symbol, in order.
  function OfSymbol(trades: seq<Trade>, symbol: string): seq<Trade> {
    if trades == [] then []
    else
      var front, t := OfSymbol(trades[..|trades| - 1], symbol), trades[|trades| - 1];
      if t.symbol == symbol then front + [t] else front
  }

  // t ends what o opened: same side and quantity, and the profit of exactly that position.
  predicate Ends(o: Trade, t: Trade) {
    o.kind.Open? && !t.kind.Open? && t.side == o.side && t.qty == o.qty
    && t.pnl == (t.price - o.price) * o.qty * Dir(o.side)
  }

  /** Per symbol the log alternates: an opening, then a closing or liquidation of exactly that
      position, then an opening again; what is held is the last opening without an end. */
  lemma {:induction false} LogAlternates(cfg: Config, trades: seq<Trade>, symbol: string)
    requires Legal(cfg, trades)
    ensures var log := OfSymbol(trades, symbol);
      && (forall i :: 0 <= i < |log| ==> (log[i].kind.Open? <==> i % 2 == 0))
      && (forall i, j :: 0 <= i && j == i + 1 < |log| && i % 2 == 0 ==> Ends(log[i], log[j]))
      && (symbol in Holdings(trades) <==> |log| % 2 == 1)
      && (|log| % 2 == 1 ==>
            var o := log[|log| - 1]; Holdings(trades)[symbol] == Position(o.side, o.qty, o.price))
  {
    if trades != [] {
      LogAlternates(cfg, trades[..|trades| - 1], symbol);
    }
  }

  // ---------- cash against equity ----------

  function Slippages(trades: seq<Trade>): real {
    if trades == [] then 0.0 else Slippages(trades[..|trades| - 1]) + trades[|trades| - 1].slippage
  }

  function CloseFees(trades: seq<Trade>): real {
    if trades == [] then 0.0
    else
      var t := trades[|trades| - 1];
      CloseFees(trades[..|trades| - 1]) + if t.kind.Close? then t.fee else 0.0
  }

  /** Cash that leaves the account for good: the part of each closed notional that dividing by
      the leverage keeps back, and all that a liquidation should have paid out. */
  function Withheld(cfg: Config, trades: seq<Trade>): real
    requires cfg.leverage != 0
  {
    if trades == [] then 0.0
    else
      var front, t := trades[..|trades| - 1], trades[|trades| - 1];
      var notional := EndedNotional(Holdings(front), t);
      Withheld(cfg, front) +
      match t.kind
      case Open => 0.0
      case Close => notional - notional / cfg.leverage as real
      case Liquidate => notional + t.pnl
  }

  /** In every reachable state, at any leverage: cash plus what is held plus what was withheld
      equals equity plus all slippage and all closing fees. */
  lemma {:induction false} CashIdentity(cfg: Config, trades: seq<Trade>)
    requires cfg.Valid() && Legal(cfg, trades)
    ensures AvailableOf(cfg, trades) + Total(Holdings(trades), Notional) + Withheld(cfg, trades)
      == EquityOf(cfg, trades) + Slippages(trades) + CloseFees(trades)
  {
    if trades != [] {
      var front, t := trades[..|trades| - 1], trades[|trades| - 1];
      CashIdentity(cfg, front);
      var before, after := Holdings(front), Holdings(trades);
      if t.kind.Open? {
        TotalWithout(after, Notional, t.symbol);
        assert after - {t.symbol} == before;
      } else {
        TotalWithout(before, Notional, t.symbol);
      }
    }
  }

  predicate Has(trades: seq<Trade>, kind: Kind) {
    exists i :: 0 <= i < |trades| && trades[i].kind == kind
  }

  lemma {:induction false} WithheldSign(cfg: Config, trades: seq<Trade>)
    requires cfg.Valid() && Legal(cfg, trades) && !Has(trades, Liquidate)
    ensures Withheld(cfg, trades) >= 0.0
    ensures Withheld(cfg, trades) == 0.0 <==> cfg.leverage == 1 || !Has(trades, Close)
  {
    if trades != [] {
      var front, t := trades[..|trades| - 1], trades[|trades| - 1];
      assert forall i :: 0 <= i < |front| ==> front[i] == trades[i];
      assert trades[|front|] == t;
      WithheldSign(cfg, front);
      if t.kind.Close? {
        HoldingsPositive(cfg, front, t.symbol);
        Fraction(Notional(Holdings(front)[t.symbol]), cfg.leverage);
      }
    }
  }

  lemma Fraction(n: real, leverage: int)
    requires n > 0.0 && leverage >= 1
    ensures n - n / leverage as real >= 0.0
    ensures n - n / leverage as real == 0.0 <==> leverage == 1
  {
    var q := n / leverage as real;
    assert q * leverage as real == n;
    if leverage > 1 {
      assert q > 0.0;
      assert q * (leverage - 1) as real >= q;
    }
  }

  /** A run that is flat and was never liquidated has exactly its slippage and closing fees more
      in cash than in equity if and only if its leverage is 1 or it never closed a position. */
  lemma FlatCashMatchesEquity(cfg: Config, b: Book)
    requires cfg.Valid() && Consistent(cfg, b) && b.positions == map[] && !Has(b.trades, Liquidate)
    ensures b.available - b.equity <= Slippages(b.trades) + CloseFees(b.trades)
    ensures b.available - b.equity == Slippages(b.trades) + CloseFees(b.trades)
      <==> cfg.leverage == 1 || !Has(b.trades, Close)
  {
    CashIdentity(cfg, b.trades);
    WithheldSign(cfg, b.trades);
  }
}
