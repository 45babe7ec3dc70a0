// A fill that is synchronised before the engine has put its own order on record
// (internal/trader/engine/engine.go and ordersync.go): the record comes last, so the builder takes
// the fill for somebody else's.
module EarlySync {
  import opened Trading
  import opened TradingTheorems

  /** The guard of the builder: of these open positions, the fill changes none. */
  predicate Ignores(open: seq<Position>, f: Fill) {
    match Match(open, f.symbol, Some(FillSide(f)))
    case Some(p) => f.quantity < p.quantity - 0.000000001
    case None => Match(open, f.symbol, None).Some?
  }

  lemma BuildChangesIff(s: State, trader: string, f: Fill)
    requires Rows(s.positions)
    ensures Ignores(ListOpen(s.positions, trader), f) ==> Build(s, trader, f) == s
    ensures Build(s, trader, f).positions == s.positions ==> Ignores(ListOpen(s.positions, trader), f)
  {
    MatchedIsOpen(s, trader, f.symbol, Some(FillSide(f)));
    var m := Match(ListOpen(s.positions, trader), f.symbol, Some(FillSide(f)));
    if m.Some? && f.quantity >= m.value.quantity - 0.000000001 {
      assert Build(s, trader, f).positions[m.value.id].closed;
    }
  }

  // A fill that is new to the store, of an order that is not on record.
  predicate Unrecorded(s: State, f: Fill) {
    f.orderId != "" && !HasOrder(s.orders, f.orderId) && FillAdded(s, f)
  }

  /** Synchronising a fill whose order is not on record leaves positions and metrics alone if and
      only if the builder's guard holds. */
  lemma SyncChangesIff(s: State, trader: string, f: Fill)
    requires Rows(s.positions) && Unrecorded(s, f)
    ensures var t := SyncOne(s, trader, f);
      && (t.positions == s.positions <==> Ignores(ListOpen(s.positions, trader), f))
      && (t.positions == s.positions ==> t.traders == s.traders)
  {
    var r := AddOrder(AddFill(s, trader, f), OrderRow(trader, f.orderId, f.symbol, f.quantity));
    assert r.positions == s.positions && r.traders == s.traders;
    BuildChangesIff(r, trader, f);
  }

  // ---------- between the change of positions and the record ----------

  predicate Sells(action: Action) { action.OpenShort? || action.CloseLong? }

  // The exchange's fill of the order that executes the decision.
  predicate FillOf(f: Fill, action: Action, symbol: string, orderId: string) {
    f.symbol == symbol && f.orderId == orderId && f.sell == Sells(action)
  }

  /** The open positions when the first of the symbol, the newest, is closed. */
  function WithoutFirst(open: seq<Position>, symbol: string): seq<Position> {
    if open == [] then []
    else if open[0].symbol == symbol then open[1..]
    else [open[0]] + WithoutFirst(open[1..], symbol)
  }

  lemma Unfold(last: Position, rest: seq<Position>, symbol: string)
    ensures last.symbol == symbol ==>
      Match([last] + rest, symbol, None) == Some(last) && WithoutFirst([last] + rest, symbol) == rest
    ensures last.symbol != symbol ==>
      && Match([last] + rest, symbol, None) == Match(rest, symbol, None)
      && WithoutFirst([last] + rest, symbol) == [last] + WithoutFirst(rest, symbol)
  {
    assert ([last] + rest)[1..] == rest;
  }

  lemma {:induction false} ListAfterClosing(ps: seq<Position>, trader: string, symbol: string, p: Position, pnl: real)
    requires Rows(ps) && Match(ListOpen(ps, trader), symbol, None) == Some(p)
    ensures ListOpen(ClosePosition(ps, p.id, pnl), trader) == WithoutFirst(ListOpen(ps, trader), symbol)
  {
    var n := |ps| - 1;
    var front, last := ps[..n], ps[n];
    var rest := ListOpen(front, trader);
    Unfold(last, rest, symbol);
    if last.trader == trader && !last.closed && last.symbol == symbol {
      assert ClosePosition(ps, n, pnl)[..n] == front;
    } else {
      assert p.id < n by {
        MatchListed(rest, symbol, None);
        ListedAreOpen(front, trader);
      }
      ListAfterClosing(front, trader, symbol, p, pnl);
      assert ClosePosition(ps, p.id, pnl)[..n] == ClosePosition(front, p.id, pnl);
    }
  }

  /** Which executions an early synchronisation of their own fill leaves alone, seen from the
      positions before: an opening, unless the newest position that the fill would close is no
      larger than it; a closing, if the positions that remain meet the builder's guard. */
  predicate Survives(open: seq<Position>, action: Action, symbol: string, f: Fill) {
    if action.OpenLong? || action.OpenShort? then
      var m := Match(open, symbol, Some(FillSide(f)));
      m.None? || f.quantity < m.value.quantity - 0.000000001
    else Ignores(WithoutFirst(open, symbol), f)
  }

  lemma IgnoresIffSurvives(s: State, trader: string, action: Action, symbol: string, quantity: real, r: Result, f: Fill)
    requires Rows(s.positions) && !action.Hold? && !action.Wait? && FillOf(f, action, symbol, r.orderId)
    ensures var c := Change(s, trader, action, symbol, quantity, r.price);
      Rows(c.positions)
      && (Ignores(ListOpen(c.positions, trader), f) <==> Survives(ListOpen(s.positions, trader), action, symbol, f))
  {
    var c, open := Change(s, trader, action, symbol, quantity, r.price), ListOpen(s.positions, trader);
    if action.OpenLong? || action.OpenShort? {
      var n := |s.positions|;
      assert c.positions[..n] == s.positions;
      var listed := ListOpen(c.positions, trader);
      assert listed == [c.positions[n]] + open && listed[1..] == open;
    } else {
      MatchedIsOpen(s, trader, symbol, None);
      var m := Match(open, symbol, None);
      if m.Some? {
        ListAfterClosing(s.positions, trader, symbol, m.value, Profit(m.value, r.price));
      } else {
        NothingToClose(open, symbol);
      }
    }
  }

  lemma {:induction false} NothingToClose(open: seq<Position>, symbol: string)
    ensures Match(open, symbol, None).None? ==> WithoutFirst(open, symbol) == open
  {
    if open != [] {
      NothingToClose(open[1..], symbol);
    }
  }

  /** An execution changes positions first and records its order last.  Its own fill, synchronised
      in between, changes positions again if and only if the execution is not of the surviving
      kind; once the order is on record it never does. */
  lemma EarlySyncIff(s: State, trader: string, action: Action, symbol: string, quantity: real, r: Result, f: Fill)
    requires Rows(s.positions) && !action.Hold? && !action.Wait?
    requires FillOf(f, action, symbol, r.orderId) && Unrecorded(s, f)
    ensures var c := Change(s, trader, action, symbol, quantity, r.price);
      var early := SyncOne(c, trader, f);
      var late := SyncOne(Execute(s, trader, action, symbol, quantity, Some(r)), trader, f);
      && (early.positions == c.positions <==> Survives(ListOpen(s.positions, trader), action, symbol, f))
      && (early.positions == c.positions ==> early.traders == c.traders)
      && late.positions == c.positions && late.traders == c.traders
  {
    var c := Change(s, trader, action, symbol, quantity, r.price);
    assert c.orders == s.orders && c.fills == s.fills;
    IgnoresIffSurvives(s, trader, action, symbol, quantity, r, f);
    SyncChangesIff(c, trader, f);
    HasOrderMore(s.orders, OrderRow(trader, r.orderId, symbol, quantity), r.orderId);
  }

  /** A closing whose fill is synchronised early closes a second position of the symbol, if there
      is one of the fill's side and no larger than it, and counts two trades for one order. */
  lemma OneOrderClosesTwo(s: State, trader: string, action: Action, symbol: string, quantity: real, r: Result, f: Fill,
                          p: Position, q: Position)
    requires Rows(s.positions) && trader in s.traders && (action.CloseLong? || action.CloseShort?)
    requires FillOf(f, action, symbol, r.orderId) && Unrecorded(s, f)
    requires Match(ListOpen(s.positions, trader), symbol, None) == Some(p)
    requires Match(WithoutFirst(ListOpen(s.positions, trader), symbol), symbol, Some(FillSide(f))) == Some(q)
    requires f.quantity >= q.quantity - 0.000000001
    ensures var early := SyncOne(Change(s, trader, action, symbol, quantity, r.price), trader, f);
      && p.id < |early.positions| == |s.positions| && q.id < |s.positions| && p.id != q.id
      && !s.positions[p.id].closed && early.positions[p.id].closed
      && !s.positions[q.id].closed && early.positions[q.id].closed
      && early.traders[trader].tradeCount == s.traders[trader].tradeCount + 2
  {
    var c := Change(s, trader, action, symbol, quantity, r.price);
    MatchedIsOpen(s, trader, symbol, None);
    ListAfterClosing(s.positions, trader, symbol, p, Profit(p, r.price));
    MatchedIsOpen(c, trader, symbol, Some(FillSide(f)));
    assert c.orders == s.orders && c.fills == s.fills;
  }

  /** An opening whose fill is synchronised early closes the newest position of the other side, if
      it is no larger. */
  lemma OpeningCloses(s: State, trader: string, action: Action, symbol: string, quantity: real, r: Result, f: Fill,
                      q: Position)
    requires Rows(s.positions) && (action.OpenLong? || action.OpenShort?)
    requires FillOf(f, action, symbol, r.orderId) && Unrecorded(s, f)
    requires Match(ListOpen(s.positions, trader), symbol, Some(FillSide(f))) == Some(q)
    requires f.quantity >= q.quantity - 0.000000001
    ensures var early := SyncOne(Change(s, trader, action, symbol, quantity, r.price), trader, f);
      q.id < |s.positions| == |early.positions| - 1 && !s.positions[q.id].closed && early.positions[q.id].closed
  {
    var c, n := Change(s, trader, action, symbol, quantity, r.price), |s.positions|;
    assert c.positions[..n] == s.positions;
    assert ListOpen(c.positions, trader)[1..] == ListOpen(s.positions, trader);
    MatchedIsOpen(s, trader, symbol, Some(FillSide(f)));
    assert c.orders == s.orders && c.fills == s.fills;
  }

  // ---------- two inputs ----------

  function Row(id: nat, side: Side): Position {
    Position(id, "t", "SOL", side, 1.0, 100.0, 100.0, 0.0, 0.0, PositionStatus.Open, false)
  }

  function Holding(ps: seq<Position>): State {
    State(ps, [], [], map["t" := Metrics(0.0, 0.0, 0, 0.0)])
  }

  /** Two longs, one order to close: the early fill leaves none open.  One long, one order to open a
      short: the early fill closes the long. */
  lemma BookedTwice()
    ensures var s, r := Holding([Row(0, Long), Row(1, Long)]), Result("o", 110.0);
      var f := Fill("f", "o", "SOL", true, 110.0, 1.0, 10.0);
      var early := SyncOne(Change(s, "t", CloseLong, "SOL", 1.0, r.price), "t", f);
      ListOpen(early.positions, "t") == [] && early.traders["t"].tradeCount == 2
    ensures var s, r := Holding([Row(0, Long)]), Result("o", 110.0);
      var f := Fill("f", "o", "SOL", true, 110.0, 1.0, 0.0);
      var early := SyncOne(Change(s, "t", OpenShort, "SOL", 1.0, r.price), "t", f);
      |early.positions| == 2 && early.positions[0].closed
  {
    var f, g := Fill("f", "o", "SOL", true, 110.0, 1.0, 10.0), Fill("f", "o", "SOL", true, 110.0, 1.0, 0.0);
    var two, one := Holding([Row(0, Long), Row(1, Long)]), Holding([Row(0, Long)]);
    TwoRows(two.positions);
    assert one.positions[..0] == [] && ListOpen(one.positions, "t") == [Row(0, Long)];
    assert [Row(1, Long), Row(0, Long)][1..] == [Row(0, Long)];
    OneOrderClosesTwo(two, "t", CloseLong, "SOL", 1.0, Result("o", 110.0), f, Row(1, Long), Row(0, Long));
    var early := SyncOne(Change(two, "t", CloseLong, "SOL", 1.0, 110.0), "t", f);
    assert |early.positions| == 2 && early.positions[0].closed && early.positions[1].closed;
    AllClosed(early.positions, "t");
    OpeningCloses(one, "t", OpenShort, "SOL", 1.0, Result("o", 110.0), g, Row(0, Long));
  }

  lemma TwoRows(ps: seq<Position>)
    requires ps == [Row(0, Long), Row(1, Long)]
    ensures ListOpen(ps, "t") == [Row(1, Long), Row(0, Long)]
  {
    assert ps[..1] == [Row(0, Long)] && ps[..1][..0] == [];
    assert ListOpen(ps[..1], "t") == [Row(0, Long)];
  }

  lemma {:induction false} AllClosed(ps: seq<Position>, trader: string)
    requires forall i :: 0 <= i < |ps| ==> ps[i].closed
    ensures ListOpen(ps, trader) == []
  {
    if ps != [] {
      AllClosed(ps[..|ps| - 1], trader);
    }
  }
}
