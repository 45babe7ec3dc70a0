// What the steps of a backtest do to the books, in terms of prices, quantities and the fields of
// the book alone (internal/backtest/replay.go).
module ReplayEffects {
  import opened Ledger
  import opened Metrics
  import opened Replay
  import opened ReplayTheorems

  // ---------- one symbol's decisions ----------

  /** The price that the policy picks: the last bar's close, but the close before it for an opening
      under next-open; the mean of high, low and close; or the mean of high and low. */
  predicate PolicyPrice(klines: seq<Kline>, policy: FillPolicy, opening: bool, price: real) {
    klines != [] &&
    var n := |klines|;
    var last := klines[n - 1];
    match policy
    case NextOpen => price == (if opening && n >= 2 then klines[n - 2] else last).close
    case BarVwap => 3.0 * price == last.high + last.low + last.close
    case Mid => 2.0 * price == last.high + last.low
  }

  lemma PriceIs(klines: seq<Kline>, policy: FillPolicy, opening: bool)
    ensures klines == [] ==> Ledger.FillPrice(klines, policy, opening) == 0.0
    ensures klines != [] ==> PolicyPrice(klines, policy, opening, Ledger.FillPrice(klines, policy, opening))
    ensures forall price ::
      PolicyPrice(klines, policy, opening, price) ==> price == Ledger.FillPrice(klines, policy, opening)
  {
  }

  // The loop is before a symbol of its own, and the feed holds this one decision.
  ghost predicate Asked(p: Plan, r: Run, feed: Feed, klines: seq<Kline>, d: Decision) {
    && r.status.Running? && r.pc.AtSymbol? && r.pc.i < |p.symbols|
    && feed == Some((klines, [d])) && (d.symbol == "" || d.symbol == p.symbols[r.pc.i])
  }

  lemma OneDecision(p: Plan, r: Run, feed: Feed, klines: seq<Kline>, d: Decision, order: seq<string>)
    requires p.Valid() && r.status.Running? && r.pc.AtSymbol? && r.pc.i < |p.symbols| && feed == Some((klines, [d]))
    ensures LoopStep(p, r, feed, order)
      == r.(book := ExecuteOne(p.cfg, r.book, p.symbols[r.pc.i], d, klines), pc := AtSymbol(r.pc.i + 1))
  {
    assert [d][..0] == [];
    assert Execute(p.cfg, r.book, p.symbols[r.pc.i], [], klines) == r.book;
  }

  // A share of the amount in basis points.
  predicate Charged(amount: real, bps: real, charge: real) { charge * 10000.0 == amount * bps }

  lemma BpsIs(amount: real, bps: real)
    ensures Charged(amount, bps, Ledger.Bps(amount, bps))
  {
  }

  // The trade that an opening leaves in the log.
  predicate OpeningTrade(cfg: Config, t: Trade, symbol: string, d: Decision, qty: real, price: real) {
    && t.kind.Open? && t.symbol == symbol && (t.side.Long? <==> d.action.OpenLong?)
    && t.qty == qty && t.price == price && t.orderValue == qty * price && t.pnl == 0.0
    && Charged(qty * price, cfg.feeBps, t.fee) && Charged(qty * price, cfg.slippageBps, t.slippage)
  }

  // The quantity asked for, or the least one.
  function Asking(d: Decision): real { if d.quantity > 0.0 then d.quantity else 0.001 }

  /** Exactly one trade is added, of the asked side and quantity at the given price; the position
      is held; notional and fee leave the cash, fee and slippage the equity. */
  predicate Opened(cfg: Config, b: Book, c: Book, symbol: string, d: Decision, price: real) {
    var n, side := |b.trades|, if d.action.OpenLong? then Long else Short;
    && |c.trades| == n + 1 && c.trades[..n] == b.trades
    && OpeningTrade(cfg, c.trades[n], symbol, d, Asking(d), price)
    && c.positions == b.positions[symbol := Position(side, Asking(d), price)]
    && c.available == b.available - Asking(d) * price - c.trades[n].fee
    && c.equity == b.equity - c.trades[n].fee - c.trades[n].slippage
    && c.points == b.points && c.peak == b.peak
  }

  /** An opening of a symbol that is not held is executed at the policy's price if that is positive
      and the notional is within the cash; otherwise nothing changes. */
  lemma OpeningIsExecuted(p: Plan, r: Run, feed: Feed, order: seq<string>, klines: seq<Kline>, d: Decision, price: real)
    requires p.Valid() && Asked(p, r, feed, klines, d) && (d.action.OpenLong? || d.action.OpenShort?)
    requires p.symbols[r.pc.i] !in r.book.positions
    requires PolicyPrice(klines, p.cfg.policy, true, price)
    ensures var s := LoopStep(p, r, feed, order);
      && s.pc == AtSymbol(r.pc.i + 1)
      && if price > 0.0 && Asking(d) * price <= r.book.available then
           Opened(p.cfg, r.book, s.book, p.symbols[r.pc.i], d, price)
         else s.book == r.book
  {
    OneDecision(p, r, feed, klines, d, order);
    PriceIs(klines, p.cfg.policy, true);
    OpenedBook(p.cfg, r.book, p.symbols[r.pc.i], d, klines, price);
  }

  lemma OpenedBook(cfg: Config, b: Book, symbol: string, d: Decision, klines: seq<Kline>, price: real)
    requires d.action.OpenLong? || d.action.OpenShort?
    requires price == Ledger.FillPrice(klines, cfg.policy, true)
    ensures var c := OpenPosition(cfg, b, symbol, d, klines);
      if price > 0.0 && Asking(d) * price <= b.available then Opened(cfg, b, c, symbol, d, price) else c == b
  {
    BpsIs(Asking(d) * price, cfg.feeBps);
    BpsIs(Asking(d) * price, cfg.slippageBps);
  }

  // The trade that a closing leaves in the log: the whole position, at the profit of its side.
  predicate ClosingTrade(cfg: Config, t: Trade, symbol: string, pos: Position, price: real) {
    && t.kind.Close? && t.symbol == symbol && t.side == pos.side && t.qty == pos.qty && t.price == price
    && t.pnl == (if pos.side.Long? then (price - pos.entry) * pos.qty else (pos.entry - price) * pos.qty)
    && Charged(pos.qty * price, cfg.feeBps, t.fee) && Charged(pos.qty * price, cfg.slippageBps, t.slippage)
  }

  /** Exactly one trade is added, of the whole position with its profit, and the symbol is held no
      more; the cash gets the profit and the notional at entry over the leverage, the equity the
      profit less fee and slippage. */
  predicate Closed(cfg: Config, b: Book, c: Book, symbol: string, price: real)
    requires symbol in b.positions
  {
    var n, pos := |b.trades|, b.positions[symbol];
    && |c.trades| == n + 1 && c.trades[..n] == b.trades
    && ClosingTrade(cfg, c.trades[n], symbol, pos, price)
    && c.positions == b.positions - {symbol}
    && (c.available - b.available - c.trades[n].pnl) * cfg.leverage as real == pos.qty * pos.entry
    && c.equity == b.equity + c.trades[n].pnl - c.trades[n].fee - c.trades[n].slippage
    && c.peak == (if c.equity > b.peak then c.equity else b.peak) && c.points == b.points
  }

  /** A closing of the side that is held is executed at the policy's price if that is positive. */
  lemma ClosingIsExecuted(p: Plan, r: Run, feed: Feed, order: seq<string>, klines: seq<Kline>, d: Decision, price: real)
    requires p.Valid() && Asked(p, r, feed, klines, d) && p.symbols[r.pc.i] in r.book.positions
    requires if r.book.positions[p.symbols[r.pc.i]].side.Long? then d.action.CloseLong? else d.action.CloseShort?
    requires PolicyPrice(klines, p.cfg.policy, false, price)
    ensures var s := LoopStep(p, r, feed, order);
      && s.pc == AtSymbol(r.pc.i + 1)
      && if price > 0.0 then Closed(p.cfg, r.book, s.book, p.symbols[r.pc.i], price) else s.book == r.book
  {
    OneDecision(p, r, feed, klines, d, order);
    PriceIs(klines, p.cfg.policy, false);
    ClosedBook(p.cfg, r.book, p.symbols[r.pc.i], klines, price);
  }

  lemma ClosedBook(cfg: Config, b: Book, symbol: string, klines: seq<Kline>, price: real)
    requires cfg.leverage >= 1 && symbol in b.positions && price == Ledger.FillPrice(klines, cfg.policy, false)
    ensures var c := ClosePosition(cfg, b, symbol, klines);
      if price > 0.0 then Closed(cfg, b, c, symbol, price) else c == b
  {
    var pos := b.positions[symbol];
    BpsIs(pos.qty * price, cfg.feeBps);
    BpsIs(pos.qty * price, cfg.slippageBps);
    Divided(pos.qty * pos.entry, cfg.leverage as real);
    Signed(price, pos.entry, pos.qty);
  }

  lemma Divided(x: real, n: real)
    requires n > 0.0
    ensures x / n * n == x
  {
  }

  lemma Signed(price: real, entry: real, qty: real)
    ensures (price - entry) * qty * 1.0 == (price - entry) * qty
    ensures (price - entry) * qty * -1.0 == (entry - price) * qty
  {
  }

  /** What the replay leaves alone: another symbol's decision, a hold or a wait, an opening of a
      symbol that is held, and a closing of a symbol that is not held or is held on the other side. */
  predicate Idle(d: Decision, symbol: string, positions: map<string, Position>) {
    || (d.symbol != "" && d.symbol != symbol) || d.action.Hold? || d.action.Wait?
    || ((d.action.OpenLong? || d.action.OpenShort?) && symbol in positions)
    || (d.action.CloseLong? && !(symbol in positions && positions[symbol].side.Long?))
    || (d.action.CloseShort? && !(symbol in positions && positions[symbol].side.Short?))
  }

  lemma NothingIsExecuted(p: Plan, r: Run, feed: Feed, order: seq<string>)
    requires p.Valid() && r.status.Running? && r.pc.AtSymbol? && r.pc.i < |p.symbols|
    requires feed.None? || (|feed.value.1| == 1 && Idle(feed.value.1[0], p.symbols[r.pc.i], r.book.positions))
    ensures LoopStep(p, r, feed, order) == r.(pc := AtSymbol(r.pc.i + 1))
  {
    if feed.Some? {
      assert feed.value.1 == [feed.value.1[0]];
      OneDecision(p, r, feed, feed.value.0, feed.value.1[0], order);
    }
  }

  lemma {:induction false} ExecuteSplits(cfg: Config, b: Book, symbol: string, x: seq<Decision>, y: seq<Decision>,
                                         klines: seq<Kline>)
    requires cfg.leverage != 0
    ensures Execute(cfg, b, symbol, x + y, klines) == Execute(cfg, Execute(cfg, b, symbol, x, klines), symbol, y, klines)
  {
    if y == [] {
      assert x + y == x;
    } else {
      ExecuteSplits(cfg, b, symbol, x, y[..|y| - 1], klines);
      assert (x + y)[..|x + y| - 1] == x + y[..|y| - 1];
    }
  }

  /** A list of decisions has the effect of its parts one after the other, down to single ones. */
  lemma FeedSplits(p: Plan, r: Run, klines: seq<Kline>, x: seq<Decision>, y: seq<Decision>, order: seq<string>)
    requires p.Valid() && r.status.Running? && r.pc.AtSymbol? && r.pc.i < |p.symbols|
    ensures var half := LoopStep(p, r, Some((klines, x)), order);
      LoopStep(p, r, Some((klines, x + y)), order) == LoopStep(p, half.(pc := r.pc), Some((klines, y)), order)
  {
    ExecuteSplits(p.cfg, r.book, p.symbols[r.pc.i], x, y, klines);
  }

  lemma {:induction false} ExecuteLeavesOthers(cfg: Config, b: Book, symbol: string, ds: seq<Decision>,
                                               klines: seq<Kline>, k: string)
    requires cfg.leverage != 0 && k != symbol
    ensures var c := Execute(cfg, b, symbol, ds, klines);
      (k in c.positions <==> k in b.positions) && (k in b.positions ==> c.positions[k] == b.positions[k])
  {
    if ds != [] {
      ExecuteLeavesOthers(cfg, b, symbol, ds[..|ds| - 1], klines, k);
    }
  }

  /** Whatever the feed, the positions of all other symbols stay and the log only grows. */
  lemma OthersStay(p: Plan, r: Run, feed: Feed, order: seq<string>, k: string)
    requires p.Valid() && r.status.Running? && r.pc.AtSymbol? && r.pc.i < |p.symbols| && k != p.symbols[r.pc.i]
    ensures var s := LoopStep(p, r, feed, order);
      && r.book.trades <= s.book.trades && s.pc == AtSymbol(r.pc.i + 1)
      && s.cycle == r.cycle && s.windowStart == r.windowStart
      && (k in s.book.positions <==> k in r.book.positions)
      && (k in r.book.positions ==> s.book.positions[k] == r.book.positions[k])
  {
    if feed.Some? {
      ExecuteLeavesOthers(p.cfg, r.book, p.symbols[r.pc.i], feed.value.1, feed.value.0, k);
      ExecuteLogs(p.cfg, r.book, p.symbols[r.pc.i], feed.value.1, feed.value.0);
    }
  }

  // ---------- snapshots and guards ----------

  lemma {:induction false} FloatingIsPercent(m: map<string, Position>)
    ensures Total(m, FloatingGain) == 0.01 * Total(m, Notional)
    decreases |m|
  {
    if m != map[] {
      var k :| k in m;
      TotalWithout(m, FloatingGain, k);
      TotalWithout(m, Notional, k);
      FloatingIsPercent(m - {k});
      OnePercent(m[k].qty, m[k].entry);
    }
  }

  lemma OnePercent(qty: real, entry: real)
    ensures qty * (entry * 1.01 - entry) == 0.01 * (qty * entry)
  {
  }

  /** After the last symbol one point is recorded at the end of the window: the equity with every
      position, long or short, marked 1% of its notional up, and the fall from the peak before. */
  lemma SnapshotIs(p: Plan, r: Run, feed: Feed, order: seq<string>)
    requires p.Valid() && r.pc.AtSymbol? && r.pc.i >= |p.symbols|
    ensures var s, marked := LoopStep(p, r, feed, order), r.book.equity + 0.01 * Total(r.book.positions, Notional);
      var n := |r.book.points|;
      && s.pc.AtGuards? && s.book == r.book.(peak := s.book.peak, points := s.book.points)
      && |s.book.points| == n + 1 && s.book.points[..n] == r.book.points
      && s.book.peak == (if marked > r.book.peak then marked else r.book.peak)
      && s.book.points[n].timestamp == r.windowStart + p.step && s.book.points[n].equity == marked
      && s.book.points[n].available == r.book.available
      && (r.book.peak > 0.0 ==>
            s.book.points[n].drawdown * r.book.peak
            == if marked < r.book.peak then (r.book.peak - marked) * 100.0 else 0.0)
  {
    FloatingIsPercent(r.book.positions);
  }

  /** The guard liquidates exactly when the peak lay more than 5% above the initial balance and the
      equity has fallen by at least 40% from it. */
  lemma GuardIs(p: Plan, b: Book)
    requires p.Valid()
    ensures GuardTrips(p.cfg, b) <==> b.peak * 100.0 > p.cfg.initial * 105.0 && b.equity * 10.0 <= b.peak * 6.0
  {
    if b.peak > 0.0 && b.peak > b.equity {
      FallIs(b.peak, b.equity);
    }
  }

  lemma FallIs(peak: real, equity: real)
    requires peak > 0.0
    ensures (peak - equity) / peak * 100.0 >= 40.0 <==> equity * 10.0 <= peak * 6.0
  {
    var x := (peak - equity) / peak;
    assert x * peak == peak - equity;
    if x >= 0.4 {
      assert (x - 0.4) * peak >= 0.0;
    } else {
      assert (0.4 - x) * peak > 0.0;
    }
  }

  // ---------- liquidation ----------

  // The trade of a forced exit at 95% of the entry, with its loss or, for a short, its gain.
  predicate Exit(t: Trade, symbol: string, pos: Position) {
    && t.kind.Liquidate? && t.symbol == symbol && t.side == pos.side && t.qty == pos.qty
    && t.price * 100.0 == pos.entry * 95.0 && t.fee == 0.0 && t.slippage == 0.0
    && t.pnl * 100.0 == (if pos.side.Long? then -5.0 else 5.0) * Notional(pos)
  }

  // The trades from `n` on are exits, one for every position of `m` outside `left`.
  ghost predicate Exits(trades: seq<Trade>, n: nat, m: map<string, Position>, left: map<string, Position>) {
    && |trades| + |left| == n + |m|
    && (forall j :: n <= j < |trades| ==> trades[j].symbol in m && Exit(trades[j], trades[j].symbol, m[trades[j].symbol]))
    && (forall k :: k in m && k !in left ==> exists j :: n <= j < |trades| && trades[j].symbol == k)
    && (forall i, j :: n <= i < j < |trades| ==> trades[i].symbol != trades[j].symbol)
    && (forall j :: n <= j < |trades| ==> trades[j].symbol !in left)
  }

  function PnlSum(trades: seq<Trade>): real {
    if trades == [] then 0.0 else PnlSum(trades[..|trades| - 1]) + trades[|trades| - 1].pnl
  }

  lemma {:induction false} LiquidateAllIs(b: Book, order: seq<string>)
    ensures var c, n := LiquidateAll(b, order), |b.trades|;
      && |c.trades| >= n && c.trades[..n] == b.trades && Exits(c.trades, n, b.positions, c.positions)
      && (forall k :: k in c.positions ==> k in b.positions && c.positions[k] == b.positions[k])
      && (forall k :: k in order ==> k !in c.positions)
      && c.equity == b.equity + PnlSum(c.trades[n..])
      && c.available == b.available && c.peak == b.peak && c.points == b.points
  {
    if order != [] {
      var front, symbol := order[..|order| - 1], order[|order| - 1];
      LiquidateAllIs(b, front);
      var c := LiquidateAll(b, front);
      if symbol in c.positions {
        ExitOne(b, c, symbol);
      }
    }
  }

  lemma ExitOne(b: Book, c: Book, symbol: string)
    requires |c.trades| >= |b.trades| && c.trades[..|b.trades|] == b.trades
    requires Exits(c.trades, |b.trades|, b.positions, c.positions)
    requires symbol in c.positions && symbol in b.positions && c.positions[symbol] == b.positions[symbol]
    ensures var d, n := LiquidateOne(c, symbol), |b.trades|;
      && d.trades[..n] == b.trades && Exits(d.trades, n, b.positions, d.positions)
      && PnlSum(d.trades[n..]) == PnlSum(c.trades[n..]) + (d.equity - c.equity)
  {
    var d, n, m := LiquidateOne(c, symbol), |b.trades|, |c.trades|;
    ExitIs(symbol, c.positions[symbol]);
    assert d.trades[n..][..m - n] == c.trades[n..];
    assert d.trades[m].symbol == symbol;
    assert forall k :: 0 <= k < m ==> d.trades[k] == c.trades[k];
    assert |d.positions| == |c.positions| - 1 by {
      assert c.positions == d.positions[symbol := c.positions[symbol]];
    }
  }

  lemma ExitIs(symbol: string, pos: Position)
    ensures Exit(LiquidationTrade(symbol, pos), symbol, pos)
  {
    FivePercent(pos.entry, pos.qty);
  }

  lemma FivePercent(entry: real, qty: real)
    ensures (entry * 0.95 - entry) * qty * 100.0 == -5.0 * (qty * entry)
    ensures (entry * 0.95 - entry) * qty * -1.0 * 100.0 == 5.0 * (qty * entry)
  {
    assert entry * 0.95 - entry == -0.05 * entry;
    assert (entry * 0.95 - entry) * qty == -0.05 * (qty * entry);
  }

  /** A peak more than 5% above the initial balance and an equity fallen by 40% from it end the run:
      every position gets exactly one exit at 95% of its entry, nothing stays open, and the equity
      moves by what the exits say; otherwise the books stay. */
  lemma GuardLiquidates(p: Plan, r: Run, feed: Feed, order: seq<string>)
    requires p.Valid() && r.pc.AtGuards? && forall k :: k in r.book.positions ==> k in order
    ensures var s, n := LoopStep(p, r, feed, order), |r.book.trades|;
      if r.book.peak * 100.0 > p.cfg.initial * 105.0 && r.book.equity * 10.0 <= r.book.peak * 6.0 then
        && s.status.Liquidated? && s.pc.Gone? && s.liquidated && s.book.positions == map[]
        && r.book.trades <= s.book.trades && |s.book.trades| == n + |r.book.positions|
        && Exits(s.book.trades, n, r.book.positions, map[])
        && s.book.equity == r.book.equity + PnlSum(s.book.trades[n..])
        && s.book.available == r.book.available && s.book.points == r.book.points
      else s.book == r.book
  {
    GuardIs(p, r.book);
    LiquidateAllIs(r.book, order);
    var c := LiquidateAll(r.book, order);
    assert forall k :: k in c.positions ==> k in r.book.positions && k in order;
    assert c.positions == map[];
  }

  // ---------- whole replays ----------

  // The steps of one window: begin, check, every symbol, snapshot, guards.
  function PerWindow(p: Plan): nat { |p.symbols| + 4 }

  // The number of steps after which an uninterrupted loop stands here.
  function StepsTo(p: Plan, windows: int, pc: Pc): int {
    windows * PerWindow(p) +
    match pc
    case Begun => 1
    case AtSymbol(i) => 2 + i
    case AtGuards => |p.symbols| + 3
    case _ => 0
  }

  // The windows that lie behind the loop.
  function Behind(r: Run): int { if r.pc.Waiting? then r.cycle else r.cycle - 1 }

  ghost predicate OnTime(p: Plan, r: Run, n: nat) {
    if r.pc.Gone? then n >= |r.book.points| * PerWindow(p)
    else
      && r.status.Running? && n == StepsTo(p, Behind(r), r.pc) && (r.pc.AtSymbol? ==> r.pc.i <= |p.symbols|)
      && |r.book.points| == (if r.pc.AtGuards? then r.cycle else Behind(r))
  }

  lemma OneStepOnTime(p: Plan, r: Run, n: nat, e: Event)
    requires p.Valid() && OnTime(p, r, n) && e.Loop?
    ensures OnTime(p, Next(p, r, e), n + 1)
  {
    if r.pc.AtSymbol? && r.pc.i < |p.symbols| && e.feed.Some? {
      ExecuteFrame(p.cfg, r.book, p.symbols[r.pc.i], e.feed.value.1, e.feed.value.0);
    }
    NextWindow(Behind(r), PerWindow(p));
    LiquidateFrame(r.book, e.order);
  }

  lemma NextWindow(w: int, m: int)
    ensures (w + 1) * m == w * m + m
  {
  }

  lemma {:induction false} AlwaysOnTime(p: Plan, events: seq<Event>)
    requires p.Valid() && OnlyLoop(events)
    ensures OnTime(p, After(p, Initial(p), events), |events|)
  {
    if events != [] {
      var front := events[..|events| - 1];
      AlwaysOnTime(p, front);
      OneStepOnTime(p, After(p, Initial(p), front), |front|, events[|events| - 1]);
    }
  }

  // The same place in the loop has only one number of steps.
  lemma SameStep(p: Plan, r: Run, windows: int, i: nat)
    requires !r.pc.Gone? && (r.pc.AtSymbol? ==> r.pc.i <= |p.symbols|) && i < |p.symbols|
    requires StepsTo(p, Behind(r), r.pc) == StepsTo(p, windows, AtSymbol(i))
    ensures r.pc == AtSymbol(i) && Behind(r) == windows
  {
    WindowsApart(Behind(r), windows, PerWindow(p));
    WindowsApart(windows, Behind(r), PerWindow(p));
  }

  lemma WindowsApart(v: int, w: int, m: nat)
    ensures v < w ==> v * m + m <= w * m
  {
    if v < w {
      var d := w - v - 1;
      NextWindow(v, m);
      assert (v + 1 + d) * m == (v + 1) * m + d * m;
      assert d * m >= 0;
    }
  }

  predicate Stands(r: Run, w: nat, i: nat) { r.pc == AtSymbol(i) && r.cycle == w }

  /** In a replay that nobody interrupted and that has ended, every symbol of every window with a
      recorded point was consulted, while the run was running, at exactly one step. */
  lemma ConsultedOnce(p: Plan, events: seq<Event>, w: nat, i: nat)
    requires p.Valid() && OnlyLoop(events) && i < |p.symbols|
    requires After(p, Initial(p), events).pc.Gone? && 1 <= w <= |After(p, Initial(p), events).book.points|
    ensures var k := StepsTo(p, w - 1, AtSymbol(i));
      && 0 <= k < |events|
      && (var r := After(p, Initial(p), events[..k]);
          r.status.Running? && r.pc == AtSymbol(i) && r.cycle == w && r.windowStart == At(p, w - 1))
      && (forall j :: 0 <= j < |events| && Stands(After(p, Initial(p), events[..j]), w, i) ==> j == k)
  {
    var k, end := StepsTo(p, w - 1, AtSymbol(i)), After(p, Initial(p), events);
    AlwaysOnTime(p, events);
    WindowsApart(w - 1, |end.book.points|, PerWindow(p));
    var r := After(p, Initial(p), events[..k]);
    AlwaysOnTime(p, events[..k]);
    AlwaysScheduled(p, events[..k]);
    if r.pc.Gone? {
      LaterIs(p, events, k);
      GoneIsForever(p, r, events[k..]);
      assert false;
    }
    SameStep(p, r, w - 1, i);
    forall j | 0 <= j < |events| && Stands(After(p, Initial(p), events[..j]), w, i)
      ensures j == k
    {
      AlwaysOnTime(p, events[..j]);
    }
  }

  lemma LaterIs(p: Plan, events: seq<Event>, k: nat)
    requires p.Valid() && k <= |events|
    ensures After(p, Initial(p), events) == After(p, After(p, Initial(p), events[..k]), events[k..])
  {
    var a, b := events[..k], events[k..];
    assert a + b == events;
    AfterConcat(p, Initial(p), a, b);
  }

  lemma {:induction false} LogGrows(p: Plan, r: Run, events: seq<Event>)
    requires p.Valid()
    ensures r.book.trades <= After(p, r, events).book.trades
  {
    if events != [] {
      LogGrows(p, r, events[..|events| - 1]);
      var s, e := After(p, r, events[..|events| - 1]), events[|events| - 1];
      if e.Loop? {
        LiquidateLogs(s.book, e.order);
      }
      if e.Loop? && s.pc.AtSymbol? && s.pc.i < |p.symbols| && e.feed.Some? {
        ExecuteLogs(p.cfg, s.book, p.symbols[s.pc.i], e.feed.value.1, e.feed.value.0);
      }
    }
  }

  lemma {:induction false} FedStep(p: Plan, market: (nat, nat) -> Feed, events: seq<Event>, k: nat)
    requires p.Valid() && Fed(p, market, events) && k < |events|
    ensures Served(p, market, After(p, Initial(p), events[..k]), events[k])
    ensures OnlyLoop(events)
  {
    var front := events[..|events| - 1];
    if front != [] {
      FedStep(p, market, front, if k < |front| then k else 0);
    }
    if k < |front| {
      assert front[..k] == events[..k];
    } else {
      assert events[..k] == front;
    }
  }

  // The state in which a replay fed by the market consults symbol i in window w.
  ghost function Consulting(p: Plan, events: seq<Event>, w: nat, i: nat): Run
    requires p.Valid() && 0 <= StepsTo(p, w - 1, AtSymbol(i)) <= |events|
  {
    After(p, Initial(p), events[..StepsTo(p, w - 1, AtSymbol(i))])
  }

  // A replay fed by the market that has ended, with window w behind it.
  ghost predicate Replayed(p: Plan, market: (nat, nat) -> Feed, events: seq<Event>, w: nat, i: nat) {
    && p.Valid() && Fed(p, market, events) && After(p, Initial(p), events).pc.Gone?
    && 1 <= w <= |After(p, Initial(p), events).book.points| && i < |p.symbols|
  }

  lemma ConsultedWithFeed(p: Plan, market: (nat, nat) -> Feed, events: seq<Event>, w: nat, i: nat)
    requires Replayed(p, market, events, w, i)
    ensures 0 <= StepsTo(p, w - 1, AtSymbol(i)) < |events|
    ensures var k, r := StepsTo(p, w - 1, AtSymbol(i)), Consulting(p, events, w, i);
      && r.status.Running? && r.pc == AtSymbol(i) && r.cycle == w && r.windowStart == At(p, w - 1)
      && After(p, Initial(p), events[..k + 1]) == LoopStep(p, r, market(w, i), [])
      && After(p, Initial(p), events[..k + 1]).book.trades <= After(p, Initial(p), events).book.trades
  {
    var k := StepsTo(p, w - 1, AtSymbol(i));
    if events != [] {
      FedStep(p, market, events, 0);
    }
    ConsultedOnce(p, events, w, i);
    FedStep(p, market, events, k);
    assert events[..k + 1][..k] == events[..k];
    LaterIs(p, events, k + 1);
    LogGrows(p, After(p, Initial(p), events[..k + 1]), events[k + 1..]);
  }

  // What stands right behind a shorter log.
  predicate Follow(before: seq<Trade>, log: seq<Trade>, t: Trade) {
    before < log && log[|before|] == t
  }

  lemma NextInLonger(b: Book, c: Book, log: seq<Trade>)
    requires |c.trades| == |b.trades| + 1 && c.trades[..|b.trades|] == b.trades && c.trades <= log
    ensures Follow(b.trades, log, c.trades[|b.trades|])
  {
  }

  // An opening that the cash allows of a symbol that is not held.
  predicate Affordable(b: Book, symbol: string, d: Decision, price: real) {
    && (d.action.OpenLong? || d.action.OpenShort?) && symbol !in b.positions
    && price > 0.0 && Asking(d) * price <= b.available
  }

  // A closing of the side that is held.
  predicate Closable(b: Book, symbol: string, d: Decision) {
    symbol in b.positions && if b.positions[symbol].side.Long? then d.action.CloseLong? else d.action.CloseShort?
  }

  /** Every opening that the model asked for in a replayed window, of a symbol not held at that
      time, at a positive price and within the cash, is in the final log, right behind the trades
      before it, with the asked side and quantity and the policy's price. */
  lemma OpeningReachesTheLog(p: Plan, market: (nat, nat) -> Feed, events: seq<Event>, w: nat, i: nat,
                             klines: seq<Kline>, d: Decision, price: real)
    requires Replayed(p, market, events, w, i) && market(w, i) == Some((klines, [d]))
    requires (d.symbol == "" || d.symbol == p.symbols[i]) && PolicyPrice(klines, p.cfg.policy, true, price)
    ensures 0 <= StepsTo(p, w - 1, AtSymbol(i)) <= |events|
    ensures var b, log := Consulting(p, events, w, i).book, After(p, Initial(p), events).book.trades;
      Affordable(b, p.symbols[i], d, price) ==>
        exists t :: Follow(b.trades, log, t) && OpeningTrade(p.cfg, t, p.symbols[i], d, Asking(d), price)
  {
    ConsultedWithFeed(p, market, events, w, i);
    var r, log := Consulting(p, events, w, i), After(p, Initial(p), events).book.trades;
    if Affordable(r.book, p.symbols[i], d, price) {
      OpeningThere(p, r, market(w, i), log, klines, d, price);
    }
  }

  lemma OpeningThere(p: Plan, r: Run, feed: Feed, log: seq<Trade>, klines: seq<Kline>, d: Decision, price: real)
    requires p.Valid() && Asked(p, r, feed, klines, d) && Affordable(r.book, p.symbols[r.pc.i], d, price)
    requires PolicyPrice(klines, p.cfg.policy, true, price) && LoopStep(p, r, feed, []).book.trades <= log
    ensures exists t :: Follow(r.book.trades, log, t) && OpeningTrade(p.cfg, t, p.symbols[r.pc.i], d, Asking(d), price)
  {
    OpeningIsExecuted(p, r, feed, [], klines, d, price);
    NextInLonger(r.book, LoopStep(p, r, feed, []).book, log);
  }

  /** Likewise for a closing of the side that is held. */
  lemma ClosingReachesTheLog(p: Plan, market: (nat, nat) -> Feed, events: seq<Event>, w: nat, i: nat,
                             klines: seq<Kline>, d: Decision, price: real)
    requires Replayed(p, market, events, w, i) && market(w, i) == Some((klines, [d]))
    requires (d.symbol == "" || d.symbol == p.symbols[i]) && PolicyPrice(klines, p.cfg.policy, false, price)
    ensures 0 <= StepsTo(p, w - 1, AtSymbol(i)) <= |events|
    ensures var b, log := Consulting(p, events, w, i).book, After(p, Initial(p), events).book.trades;
      Closable(b, p.symbols[i], d) && price > 0.0 ==>
        exists t :: Follow(b.trades, log, t) && ClosingTrade(p.cfg, t, p.symbols[i], b.positions[p.symbols[i]], price)
  {
    ConsultedWithFeed(p, market, events, w, i);
    var r, log := Consulting(p, events, w, i), After(p, Initial(p), events).book.trades;
    if Closable(r.book, p.symbols[i], d) && price > 0.0 {
      ClosingThere(p, r, market(w, i), log, klines, d, price);
    }
  }

  lemma ClosingThere(p: Plan, r: Run, feed: Feed, log: seq<Trade>, klines: seq<Kline>, d: Decision, price: real)
    requires p.Valid() && Asked(p, r, feed, klines, d) && Closable(r.book, p.symbols[r.pc.i], d) && price > 0.0
    requires PolicyPrice(klines, p.cfg.policy, false, price) && LoopStep(p, r, feed, []).book.trades <= log
    ensures var symbol := p.symbols[r.pc.i];
      exists t :: Follow(r.book.trades, log, t) && ClosingTrade(p.cfg, t, symbol, r.book.positions[symbol], price)
  {
    ClosingIsExecuted(p, r, feed, [], klines, d, price);
    NextInLonger(r.book, LoopStep(p, r, feed, []).book, log);
  }
}
