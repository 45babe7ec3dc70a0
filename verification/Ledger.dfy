// The backtest ledger (internal/backtest/replay.go): opening, closing, liquidating and taking
// snapshots, as functions on the book of one run, and the accounting identities that tie the
// book to its trade log.
module Ledger {

  datatype Side = Long | Short

  datatype Action = OpenLong | OpenShort | CloseLong | CloseShort | Hold | Wait

  datatype Decision = Decision(action: Action, symbol: string, quantity: real)

  datatype Kline = Kline(high: real, low: real, close: real)

  datatype FillPolicy = NextOpen | BarVwap | Mid

  datatype Config = Config(initial: real, leverage: int, feeBps: real, slippageBps: real, policy: FillPolicy) {
    // What Start leaves after filling in defaults.
    predicate Valid() {
      initial > 0.0 && leverage >= 1 && feeBps >= 0.0 && slippageBps >= 0.0
    }
  }

  datatype Position = Position(side: Side, qty: real, entry: real)

  datatype Kind = Open | Close | Liquidate

  datatype Trade = Trade(kind: Kind, symbol: string, side: Side, qty: real, price: real,
                         fee: real, slippage: real, orderValue: real, pnl: real)

  // One equity point.
  datatype Point = Point(timestamp: int, equity: real, available: real, drawdown: real)

  datatype Book = Book(equity: real, available: real, peak: real, positions: map<string, Position>,
                       trades: seq<Trade>, points: seq<Point>)

  // ---------- the operations ----------

  function Dir(side: Side): real { if side.Long? then 1.0 else -1.0 }

  function FillPrice(klines: seq<Kline>, policy: FillPolicy, opening: bool): real {
    if klines == [] then 0.0
    else
      var last := klines[|klines| - 1];
      match policy
      case NextOpen => if opening && |klines| > 1 then klines[|klines| - 2].close else last.close
      case BarVwap => (last.high + last.low + last.close) / 3.0
      case Mid => (last.high + last.low) / 2.0
  }

  function Notional(p: Position): real { p.qty * p.entry }

  function Bps(amount: real, bps: real): real { amount * bps / 10000.0 }

  function OpenTrade(cfg: Config, symbol: string, action: Action, qty: real, price: real): Trade {
    var notional := qty * price;
    Trade(Open, symbol, if action == OpenShort then Short else Long, qty, price,
          Bps(notional, cfg.feeBps), Bps(notional, cfg.slippageBps), notional, 0.0)
  }

  function CloseTrade(cfg: Config, symbol: string, pos: Position, price: real): Trade {
    Trade(Close, symbol, pos.side, pos.qty, price, Bps(pos.qty * price, cfg.feeBps), Bps(pos.qty * price, cfg.slippageBps),
          0.0, (price - pos.entry) * pos.qty * Dir(pos.side))
  }

  function LiquidationTrade(symbol: string, pos: Position): Trade {
    Trade(Liquidate, symbol, pos.side, pos.qty, pos.entry * 0.95, 0.0, 0.0, 0.0,
          (pos.entry * 0.95 - pos.entry) * pos.qty * Dir(pos.side))
  }

  /** The position's own notional is taken from the cash, whatever the leverage. */
  function OpenPosition(cfg: Config, b: Book, symbol: string, d: Decision, klines: seq<Kline>): Book {
    var qty := if d.quantity <= 0.0 then 0.001 else d.quantity;
    var price := FillPrice(klines, cfg.policy, true);
    var t := OpenTrade(cfg, symbol, d.action, qty, price);
    if price <= 0.0 || t.orderValue > b.available then b
    else b.(available := b.available - (t.orderValue + t.fee),
            equity := b.equity - (t.fee + t.slippage),
            positions := b.positions[symbol := Position(t.side, qty, price)],
            trades := b.trades + [t])
  }

  function MaxReal(a: real, b: real): real { if a > b then a else b }

  /** Closing returns the notional divided by the leverage; the closing fee is taken from the
      equity but not from the cash. */
  function ClosePosition(cfg: Config, b: Book, symbol: string, klines: seq<Kline>): Book
    requires cfg.leverage != 0
  {
    var price := FillPrice(klines, cfg.policy, false);
    if price <= 0.0 || symbol !in b.positions then b
    else
      var pos := b.positions[symbol];
      var t := CloseTrade(cfg, symbol, pos, price);
      var equity := b.equity + t.pnl - t.fee - t.slippage;
      b.(available := b.available + (Notional(pos) / cfg.leverage as real + t.pnl),
         equity := equity,
         positions := b.positions - {symbol},
         peak := MaxReal(b.peak, equity),
         trades := b.trades + [t])
  }

  function SideMatches(side: Side, action: Action): bool {
    if side.Long? then action == CloseLong else action == CloseShort
  }

  function ExecuteOne(cfg: Config, b: Book, symbol: string, d: Decision, klines: seq<Kline>): Book
    requires cfg.leverage != 0
  {
    if d.symbol != "" && d.symbol != symbol then b
    else match d.action
      case OpenLong | OpenShort => if symbol in b.positions then b else OpenPosition(cfg, b, symbol, d, klines)
      case CloseLong | CloseShort =>
        if symbol !in b.positions || !SideMatches(b.positions[symbol].side, d.action) then b
        else ClosePosition(cfg, b, symbol, klines)
      case _ => b
  }

  function Execute(cfg: Config, b: Book, symbol: string, ds: seq<Decision>, klines: seq<Kline>): Book
    requires cfg.leverage != 0
  {
    if ds == [] then b
    else ExecuteOne(cfg, Execute(cfg, b, symbol, ds[..|ds| - 1], klines), symbol, ds[|ds| - 1], klines)
  }

  function LiquidateOne(b: Book, symbol: string): Book
    requires symbol in b.positions
  {
    var t := LiquidationTrade(symbol, b.positions[symbol]);
    b.(equity := b.equity + t.pnl, positions := b.positions - {symbol}, trades := b.trades + [t])
  }

  // ---------- sums over the open positions ----------

  ghost function Total(m: map<string, Position>, f: Position -> real): real
    decreases |m|
  {
    if m == map[] then 0.0 else var k :| k in m; f(m[k]) + Total(m - {k}, f)
  }

  lemma {:induction false} TotalWithout(m: map<string, Position>, f: Position -> real, k: string)
    requires k in m
    ensures Total(m, f) == f(m[k]) + Total(m - {k}, f)
    decreases |m|
  {
    var j :| j in m && Total(m, f) == f(m[j]) + Total(m - {j}, f);
    if j != k {
      TotalWithout(m - {j}, f, k);
      TotalWithout(m - {k}, f, j);
      assert (m - {j}) - {k} == (m - {k}) - {j};
    }
  }

  lemma {:induction false} TotalNonNegative(m: map<string, Position>, f: Position -> real)
    requires forall k :: k in m ==> f(m[k]) >= 0.0
    ensures Total(m, f) >= 0.0
    decreases |m|
  {
    if m != map[] {
      var k :| k in m;
      TotalWithout(m, f, k);
      TotalNonNegative(m - {k}, f);
    }
  }

  // The approximate floating profit: every position, long or short, is marked 1% above entry.
  function FloatingGain(p: Position): real { p.qty * (p.entry * 1.01 - p.entry) }

  ghost function Marked(b: Book): real { b.equity + Total(b.positions, FloatingGain) }

  function DrawdownFrom(peak: real, equity: real): real {
    if peak > 0.0 && peak > equity then (peak - equity) / peak * 100.0 else 0.0
  }

  /** Records the marked equity; the drawdown is measured from the peak before this point. */
  ghost function Snapshot(b: Book, timestamp: int): Book {
    b.(peak := if Marked(b) > b.peak then Marked(b) else b.peak,
       points := b.points + [Point(timestamp, Marked(b), b.available, DrawdownFrom(b.peak, Marked(b)))])
  }

  /** Liquidates the positions in the given order; all of them if the order names every symbol. */
  function LiquidateAll(b: Book, order: seq<string>): Book {
    if order == [] then b
    else
      var c, symbol := LiquidateAll(b, order[..|order| - 1]), order[|order| - 1];
      if symbol in c.positions then LiquidateOne(c, symbol) else c
  }

  // ---------- the log as the only source of truth ----------

  /** The positions that the log leaves open. */
  function Holdings(trades: seq<Trade>): map<string, Position> {
    if trades == [] then map[]
    else
      var before, t := Holdings(trades[..|trades| - 1]), trades[|trades| - 1];
      if t.kind.Open? then before[t.symbol := Position(t.side, t.qty, t.price)] else before - {t.symbol}
  }

  function EquityOf(cfg: Config, trades: seq<Trade>): real {
    if trades == [] then cfg.initial
    else
      var t := trades[|trades| - 1];
      EquityOf(cfg, trades[..|trades| - 1]) + (t.pnl - t.fee - t.slippage)
  }

  // The notional at entry of the position that trade t ends.
  function EndedNotional(before: map<string, Position>, t: Trade): real {
    if t.symbol in before then Notional(before[t.symbol]) else 0.0
  }

  function AvailableOf(cfg: Config, trades: seq<Trade>): real
    requires cfg.leverage != 0
  {
    if trades == [] then cfg.initial
    else
      var front, t := trades[..|trades| - 1], trades[|trades| - 1];
      AvailableOf(cfg, front) +
      match t.kind
      case Open => -(t.orderValue + t.fee)
      case Close => t.pnl + EndedNotional(Holdings(front), t) / cfg.leverage as real
      case Liquidate => 0.0
  }

  /** A trade that the log so far allows: opens only where nothing is held, and ends exactly the
      held position, at its side and quantity, with the profit of that position. */
  predicate Follows(cfg: Config, before: map<string, Position>, t: Trade) {
    && t.qty > 0.0 && t.price > 0.0
    && (!t.kind.Liquidate? ==>
          t.fee == Bps(t.qty * t.price, cfg.feeBps) && t.slippage == Bps(t.qty * t.price, cfg.slippageBps))
    && if t.kind.Open? then
         t.symbol !in before && t.orderValue == t.qty * t.price && t.pnl == 0.0
       else
         && t.symbol in before && t.side == before[t.symbol].side && t.qty == before[t.symbol].qty
         && t.pnl == (t.price - before[t.symbol].entry) * t.qty * Dir(t.side)
         && (t.kind.Liquidate? ==> t.fee == 0.0 && t.slippage == 0.0 && t.price == before[t.symbol].entry * 0.95)
  }

  predicate Legal(cfg: Config, trades: seq<Trade>) {
    trades == [] ||
    (Legal(cfg, trades[..|trades| - 1]) && Follows(cfg, Holdings(trades[..|trades| - 1]), trades[|trades| - 1]))
  }

  ghost predicate Consistent(cfg: Config, b: Book)
    requires cfg.leverage != 0
  {
    && Legal(cfg, b.trades)
    && b.positions == Holdings(b.trades)
    && b.equity == EquityOf(cfg, b.trades)
    && b.available == AvailableOf(cfg, b.trades)
  }

  function Empty(cfg: Config): Book {
    Book(cfg.initial, cfg.initial, cfg.initial, map[], [], [])
  }

  lemma {:induction false} HoldingsPositive(cfg: Config, trades: seq<Trade>, symbol: string)
    requires Legal(cfg, trades) && symbol in Holdings(trades)
    ensures Holdings(trades)[symbol].qty > 0.0 && Holdings(trades)[symbol].entry > 0.0
  {
    if trades != [] && (trades[|trades| - 1].symbol != symbol || !trades[|trades| - 1].kind.Open?) {
      HoldingsPositive(cfg, trades[..|trades| - 1], symbol);
    }
  }

  // Appending an allowed trade keeps the log legal and moves every fold by that trade.
  lemma Appended(cfg: Config, trades: seq<Trade>, t: Trade)
    requires cfg.leverage != 0 && Legal(cfg, trades) && Follows(cfg, Holdings(trades), t)
    ensures Legal(cfg, trades + [t])
    ensures Holdings(trades + [t]) ==
      if t.kind.Open? then Holdings(trades)[t.symbol := Position(t.side, t.qty, t.price)] else Holdings(trades) - {t.symbol}
    ensures EquityOf(cfg, trades + [t]) == EquityOf(cfg, trades) + (t.pnl - t.fee - t.slippage)
    ensures AvailableOf(cfg, trades + [t]) == AvailableOf(cfg, trades) +
      match t.kind
      case Open => -(t.orderValue + t.fee)
      case Close => t.pnl + EndedNotional(Holdings(trades), t) / cfg.leverage as real
      case Liquidate => 0.0
  {
    assert (trades + [t])[..|trades|] == trades;
  }

  lemma OpenKeepsBooks(cfg: Config, b: Book, symbol: string, d: Decision, klines: seq<Kline>)
    requires cfg.Valid() && Consistent(cfg, b) && symbol !in b.positions
    ensures Consistent(cfg, OpenPosition(cfg, b, symbol, d, klines))
  {
    var qty := if d.quantity <= 0.0 then 0.001 else d.quantity;
    var price := FillPrice(klines, cfg.policy, true);
    var t := OpenTrade(cfg, symbol, d.action, qty, price);
    if price > 0.0 && t.orderValue <= b.available {
      Appended(cfg, b.trades, t);
    }
  }

  lemma CloseKeepsBooks(cfg: Config, b: Book, symbol: string, klines: seq<Kline>)
    requires cfg.Valid() && Consistent(cfg, b)
    ensures Consistent(cfg, ClosePosition(cfg, b, symbol, klines))
  {
    var price := FillPrice(klines, cfg.policy, false);
    if price > 0.0 && symbol in b.positions {
      var pos := b.positions[symbol];
      HoldingsPositive(cfg, b.trades, symbol);
      Appended(cfg, b.trades, CloseTrade(cfg, symbol, pos, price));
    }
  }

  lemma LiquidationKeepsBooks(cfg: Config, b: Book, symbol: string)
    requires cfg.Valid() && Consistent(cfg, b) && symbol in b.positions
    ensures Consistent(cfg, LiquidateOne(b, symbol))
  {
    HoldingsPositive(cfg, b.trades, symbol);
    Appended(cfg, b.trades, LiquidationTrade(symbol, b.positions[symbol]));
  }

  lemma {:induction false} ExecuteKeepsBooks(cfg: Config, b: Book, symbol: string, ds: seq<Decision>, klines: seq<Kline>)
    requires cfg.Valid() && Consistent(cfg, b)
    ensures Consistent(cfg, Execute(cfg, b, symbol, ds, klines))
  {
    if ds != [] {
      var c, d := Execute(cfg, b, symbol, ds[..|ds| - 1], klines), ds[|ds| - 1];
      ExecuteKeepsBooks(cfg, b, symbol, ds[..|ds| - 1], klines);
      if symbol !in c.positions {
        OpenKeepsBooks(cfg, c, symbol, d, klines);
      } else {
        CloseKeepsBooks(cfg, c, symbol, klines);
      }
    }
  }

  lemma {:induction false} LiquidateAllKeepsBooks(cfg: Config, b: Book, order: seq<string>)
    requires cfg.Valid() && Consistent(cfg, b)
    ensures Consistent(cfg, LiquidateAll(b, order))
    ensures LiquidateAll(b, order).positions.Keys == b.positions.Keys - (set s | s in order)
    ensures LiquidateAll(b, order).points == b.points
  {
    if order != [] {
      var front, symbol := order[..|order| - 1], order[|order| - 1];
      LiquidateAllKeepsBooks(cfg, b, front);
      var c := LiquidateAll(b, front);
      if symbol in c.positions {
        LiquidationKeepsBooks(cfg, c, symbol);
      }
      assert (set s | s in order) == (set s | s in front) + {symbol};
    }
  }
}
