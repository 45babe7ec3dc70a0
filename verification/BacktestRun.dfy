// The run object and its methods (internal/backtest/engine.go and replay.go), updated in place.
// Each method's effect is the matching function of the Ledger and Replay modules.
module BacktestRun {
  import opened Ledger
  import opened Replay
  import Metrics

  class Backtest {
    const plan: Plan
    var status: Status
    var cycle: nat
    var windowStart: int
    var equity: real
    var available: real
    var peakEquity: real
    var positions: map<string, Position>
    var liquidated: bool
    var trades: seq<Trade>   // the run's rows in the store
    var points: seq<Point>   // its equity rows
    ghost var pc: Pc         // where the loop goroutine is

    ghost function Books(): Book
      reads this
    {
      Book(equity, available, peakEquity, positions, trades, points)
    }

    ghost function State(): Run
      reads this
    {
      Run(status, cycle, windowStart, pc, Books(), liquidated)
    }

    constructor (p: Plan)
      requires p.Valid()
      ensures plan == p && State() == Initial(p)
    {
      plan := p;
      status, cycle, windowStart, pc := Running, 0, p.start, Waiting;
      equity, available, peakEquity := p.cfg.initial, p.cfg.initial, p.cfg.initial;
      positions, liquidated, trades, points := map[], false, [], [];
    }

    // ---------- the user's calls ----------

    method PauseRun() returns (ok: bool)
      requires plan.Valid()
      modifies this`status
      ensures State() == Next(plan, old(State()), Pause) && ok == old(status).Running?
    {
      if status != Running {
        return false;
      }
      status := Paused;
      return true;
    }

    method ResumeRun() returns (ok: bool)
      requires plan.Valid()
      modifies this`status
      ensures State() == Next(plan, old(State()), Resume) && ok == old(status).Paused?
    {
      if status != Paused {
        return false;
      }
      status := Running;
      return true;
    }

    method StopRun() returns (ok: bool)
      requires plan.Valid()
      modifies this`status
      ensures State() == Next(plan, old(State()), Stop)
      ensures ok == !(old(status).Completed? || old(status).Stopped? || old(status).Failed?)
    {
      if status == Completed || status == Stopped || status == Failed {
        return false;
      }
      status := Stopped;
      return true;
    }

    // ---------- the ledger ----------

    method Open(symbol: string, d: Decision, klines: seq<Kline>)
      modifies this`equity, this`available, this`positions, this`trades
      ensures Books() == OpenPosition(plan.cfg, old(Books()), symbol, d, klines)
    {
      var qty := d.quantity;
      if qty <= 0.0 {
        qty := 0.001;
      }
      var price := FillPrice(klines, plan.cfg.policy, true);
      if price <= 0.0 {
        return;
      }
      var notional := qty * price;
      if notional > available {
        return;
      }
      var fee := notional * plan.cfg.feeBps / 10000.0;
      var slippage := notional * plan.cfg.slippageBps / 10000.0;
      available := available - (notional + fee);
      equity := equity - (fee + slippage);
      var side := Long;
      if d.action == OpenShort {
        side := Short;
      }
      positions := positions[symbol := Position(side, qty, price)];
      trades := trades + [Trade(Kind.Open, symbol, side, qty, price, fee, slippage, notional, 0.0)];
      assert trades[|old(trades)|] == OpenTrade(plan.cfg, symbol, d.action, qty, price);
    }

    method Close(symbol: string, klines: seq<Kline>)
      requires plan.cfg.leverage != 0
      modifies this`equity, this`available, this`peakEquity, this`positions, this`trades
      ensures Books() == ClosePosition(plan.cfg, old(Books()), symbol, klines)
    {
      var price := FillPrice(klines, plan.cfg.policy, false);
      if price <= 0.0 || symbol !in positions {
        return;
      }
      var pos := positions[symbol];
      var dir := 1.0;
      if pos.side == Short {
        dir := -1.0;
      }
      var realized := (price - pos.entry) * pos.qty * dir;
      var fee := pos.qty * price * plan.cfg.feeBps / 10000.0;
      var slippage := pos.qty * price * plan.cfg.slippageBps / 10000.0;
      var margin := pos.qty * pos.entry / plan.cfg.leverage as real;
      available := available + (margin + realized);
      equity := equity + realized - fee - slippage;
      positions := positions - {symbol};
      peakEquity := MaxReal(peakEquity, equity);
      assert dir == Dir(pos.side);
      trades := trades + [Trade(Kind.Close, symbol, pos.side, pos.qty, price, fee, slippage, 0.0, realized)];
      assert trades[|old(trades)|] == CloseTrade(plan.cfg, symbol, pos, price);
    }

    method ExecuteActions(symbol: string, klines: seq<Kline>, decisions: seq<Decision>)
      requires plan.cfg.leverage != 0
      modifies this`equity, this`available, this`peakEquity, this`positions, this`trades
      ensures Books() == Execute(plan.cfg, old(Books()), symbol, decisions, klines)
    {
      for i := 0 to |decisions|
        invariant Books() == Execute(plan.cfg, old(Books()), symbol, decisions[..i], klines)
      {
        assert decisions[..i + 1][..i] == decisions[..i];
        var d := decisions[i];
        if d.symbol == "" || d.symbol == symbol {
          match d.action
          case OpenLong | OpenShort =>
            if symbol !in positions {
              Open(symbol, d, klines);
            }
          case CloseLong | CloseShort =>
            if symbol in positions && SideMatches(positions[symbol].side, d.action) {
              Close(symbol, klines);
            }
          case Hold | Wait =>
        }
      }
      assert decisions[..|decisions|] == decisions;
    }

    /** Meets the open positions in the order in which the map yields them. */
    method LiquidateEverything() returns (ghost order: seq<string>)
      modifies this`equity, this`positions, this`trades, this`liquidated
      ensures Books() == LiquidateAll(old(Books()), order)
      ensures positions == map[] && liquidated
      ensures forall k :: k in old(positions) ==> k in order
    {
      order := [];
      var copied := positions;
      var pending := copied.Keys;
      while pending != {}
        invariant pending <= copied.Keys == old(positions).Keys
        invariant positions == copied - (copied.Keys - pending)
        invariant Books() == LiquidateAll(old(Books()), order)
        invariant forall k :: k in copied && k !in pending ==> k in order
        decreases pending
      {
        var symbol :| symbol in pending;
        var pos := copied[symbol];
        var dir := 1.0;
        if pos.side == Short {
          dir := -1.0;
        }
        var realized := (pos.entry * 0.95 - pos.entry) * pos.qty * dir;
        ghost var before := Books();
        assert symbol in positions && positions[symbol] == pos;
        equity := equity + realized;
        positions := positions - {symbol};
        assert dir == Dir(pos.side);
        trades := trades + [Trade(Kind.Liquidate, symbol, pos.side, pos.qty, pos.entry * 0.95, 0.0, 0.0, 0.0, realized)];
        assert trades[|before.trades|] == LiquidationTrade(symbol, pos);
        assert Books() == LiquidateOne(before, symbol);
        pending, order := pending - {symbol}, order + [symbol];
        assert order[..|order| - 1] + [symbol] == order;
      }
      liquidated := true;
    }

    /** The sum over the positions, in whatever order the map yields them. */
    method Unrealized() returns (unrealized: real)
      ensures unrealized == Total(positions, FloatingGain)
    {
      unrealized := 0.0;
      var pending := positions;
      while pending != map[]
        invariant unrealized + Total(pending, FloatingGain) == Total(positions, FloatingGain)
        decreases |pending|
      {
        var symbol :| symbol in pending;
        var pos := pending[symbol];
        TotalWithout(pending, FloatingGain, symbol);
        var gain := pos.qty * (pos.entry * 1.01 - pos.entry);
        assert gain == FloatingGain(pos);
        unrealized := unrealized + gain;
        pending := pending - {symbol};
      }
    }

    method TakeSnapshot(timestamp: int)
      modifies this`peakEquity, this`points
      ensures Books() == Snapshot(old(Books()), timestamp)
    {
      var unrealized := Unrealized();
      var total, peak := equity + unrealized, peakEquity;
      if total > peak {
        peakEquity := total;
      }
      var dd := 0.0;
      if peak > 0.0 && peak > total {
        dd := (peak - total) / peak * 100.0;
      }
      points := points + [Point(timestamp, total, available, dd)];
    }

    /** The metrics are withheld until the run has completed. */
    method ReadMetrics() returns (m: Option<Metrics.Summary>)
      ensures m.Some? <==> status.Completed?
      ensures m.Some? ==>
        m.value == Metrics.Summary(Metrics.ReportOf(plan.cfg.initial, equity, trades, points), equity, liquidated)
    {
      if status != Completed {
        return None;
      }
      var report := Metrics.ComputeReport(plan.cfg.initial, equity, trades, points);
      m := Some(Metrics.Summary(report, equity, liquidated));
    }

    // ---------- the loop ----------

    // The drawdown of the equity, without floating profit, from the peak.
    function MaxDrawdown(): (d: real)
      reads this
      ensures d == CurrentDrawdown(Books())
    {
      if peakEquity <= 0.0 || peakEquity <= equity then 0.0 else (peakEquity - equity) / peakEquity * 100.0
    }

    // The steps so far, none of them interrupted and all of them fed by the market, explain the
    // state.
    ghost predicate Explained(market: (nat, nat) -> Feed, events: seq<Event>)
      reads this
      requires plan.Valid()
    {
      State() == After(plan, Initial(plan), events) && Fed(plan, market, events)
    }

    /** The replay loop of a run that nobody interrupts.  `market` delivers the klines and the
        decisions per cycle and symbol; the ghost log of steps ties the loop to the step system. */
    method RunLoop(market: (nat, nat) -> Feed) returns (ghost events: seq<Event>)
      requires plan.Valid() && State() == Initial(plan)
      modifies this
      ensures Explained(market, events) && pc.Gone?
      ensures status.Completed? || status.Liquidated?
    {
      events := [];
      while true
        invariant Explained(market, events)
        invariant status.Running? && pc.Waiting?
        decreases plan.end - windowStart
      {
        cycle := cycle + 1;
        events := Record(market, events, Begun, Running, None, []);
        if windowStart >= plan.end {
          events := Record(market, events, Gone, Completed, None, []);
          return;
        }
        events := Record(market, events, AtSymbol(0), Running, None, []);
        events := ReplayWindow(market, windowStart + plan.step, events);
        var ended;
        ended, events := CheckGuards(market, events);
        if ended {
          return;
        }
      }
    }

    /** All symbols of one window, and the snapshot at its end. */
    method ReplayWindow(market: (nat, nat) -> Feed, windowEnd: int, ghost before: seq<Event>)
      returns (ghost events: seq<Event>)
      requires plan.Valid() && Explained(market, before)
      requires status.Running? && pc == AtSymbol(0) && windowEnd == windowStart + plan.step
      modifies this
      ensures Explained(market, events) && status.Running? && pc.AtGuards? && windowStart == old(windowStart)
    {
      events := before;
      for i := 0 to |plan.symbols|
        invariant Explained(market, events)
        invariant status.Running? && pc == AtSymbol(i) && windowStart == old(windowStart)
      {
        var feed := market(cycle, i);
        if feed.Some? {
          ExecuteActions(plan.symbols[i], feed.value.0, feed.value.1);
        }
        events := Record(market, events, AtSymbol(i + 1), Running, feed, []);
      }
      TakeSnapshot(windowEnd);
      events := Record(market, events, AtGuards, Running, None, []);
    }

    /** The drawdown guard and the check for a depleted account; otherwise on to the next window. */
    method CheckGuards(market: (nat, nat) -> Feed, ghost before: seq<Event>) returns (ended: bool, ghost events: seq<Event>)
      requires plan.Valid() && Explained(market, before) && status.Running? && pc.AtGuards?
      modifies this
      ensures Explained(market, events)
      ensures if ended then pc.Gone? && status.Liquidated?
        else status.Running? && pc.Waiting? && windowStart == old(windowStart) + plan.step
    {
      ended := true;
      if peakEquity > plan.cfg.initial * 1.05 && MaxDrawdown() >= 40.0 {
        ghost var order := LiquidateEverything();
        events := Record(market, before, Gone, Liquidated, None, order);
      } else if equity <= 0.0 {
        events := Record(market, before, Gone, Liquidated, None, []);
      } else {
        windowStart, ended := windowStart + plan.step, false;
        events := Record(market, before, Waiting, Running, None, []);
      }
    }

    /** Ends one section of the loop: sets the status and notes where the loop is now. */
    method Record(ghost market: (nat, nat) -> Feed, ghost events: seq<Event>, ghost at: Pc, after: Status,
                  ghost feed: Feed, ghost order: seq<string>)
      returns (ghost longer: seq<Event>)
      requires plan.Valid() && Fed(plan, market, events)
      requires Served(plan, market, After(plan, Initial(plan), events), Loop(feed, order))
      requires State().(pc := at, status := after) == LoopStep(plan, After(plan, Initial(plan), events), feed, order)
      modifies this`status, this`pc
      ensures status == after && pc == at && Explained(market, longer)
    {
      longer := events + [Loop(feed, order)];
      assert longer[..|events|] == events;
      AfterAppend(plan, Initial(plan), events, Loop(feed, order));
      assert State().(pc := at, status := after) == After(plan, Initial(plan), longer);
      status, pc := after, at;
    }
  }
}
