// Invariants of the live bookkeeping over any sequential run of executions, closings and fill
// synchronisations, and what synchronising the same fills again does.
module TradingTheorems {
  import opened Trading

  // ---------- runs ----------

  datatype Op =
    | Decide(trader: string, action: Action, symbol: string, quantity: real, result: Option<Result>)
    | GuardClose(trader: string, symbol: string, price: real)
    | Batch(trader: string, fills: seq<Fill>)

  function Step(s: State, op: Op): State {
    match op
    case Decide(trader, action, symbol, quantity, result) => Execute(s, trader, action, symbol, quantity, result)
    case GuardClose(trader, symbol, price) => CloseBySymbol(s, trader, symbol, price)
    case Batch(trader, fills) => Sync(s, trader, fills)
  }

  function After(s: State, ops: seq<Op>): State {
    if ops == [] then s else Step(After(s, ops[..|ops| - 1]), ops[|ops| - 1])
  }

  // ---------- positions ----------

  ghost predicate Rows(ps: seq<Position>) {
    forall i :: 0 <= i < |ps| ==> ps[i].id == i && (ps[i].status.Closed? <==> ps[i].closed)
  }

  lemma {:induction false} ListedAreOpen(ps: seq<Position>, trader: string)
    requires Rows(ps)
    ensures forall i :: 0 <= i < |ListOpen(ps, trader)| ==>
      var p := ListOpen(ps, trader)[i]; p.id < |ps| && ps[p.id] == p && p.trader == trader && !p.closed
  {
    if ps != [] {
      ListedAreOpen(ps[..|ps| - 1], trader);
    }
  }

  lemma {:induction false} MatchListed(open: seq<Position>, symbol: string, side: Option<Side>)
    ensures Match(open, symbol, side).Some? ==>
      var p := Match(open, symbol, side).value;
      p in open && p.symbol == symbol && (side.Some? ==> p.side == side.value)
  {
    if open != [] {
      MatchListed(open[1..], symbol, side);
    }
  }

  // Whatever the engine picks to close is an open position of that trader.
  lemma MatchedIsOpen(s: State, trader: string, symbol: string, side: Option<Side>)
    requires Rows(s.positions)
    ensures var m := Match(ListOpen(s.positions, trader), symbol, side);
      m.Some? ==>
        && m.value.id < |s.positions| && s.positions[m.value.id] == m.value
        && m.value.trader == trader && !m.value.closed && m.value.symbol == symbol
  {
    MatchListed(ListOpen(s.positions, trader), symbol, side);
    ListedAreOpen(s.positions, trader);
  }

  function ClosedPnl(ps: seq<Position>, trader: string): real {
    if ps == [] then 0.0
    else
      var last := ps[|ps| - 1];
      ClosedPnl(ps[..|ps| - 1], trader) + if last.trader == trader && last.closed then last.pnl else 0.0
  }

  lemma {:induction false} ClosingCounts(ps: seq<Position>, id: nat, pnl: real, trader: string)
    requires id < |ps| && !ps[id].closed
    ensures var qs, mine := ClosePosition(ps, id, pnl), ps[id].trader == trader;
      && ClosedCount(qs, trader) == ClosedCount(ps, trader) + (if mine then 1 else 0)
      && ClosedPnl(qs, trader) == ClosedPnl(ps, trader) + (if mine then pnl else 0.0)
      && (!mine ==> Wins(qs, trader) == Wins(ps, trader))
  {
    var n := |ps| - 1;
    var qs := ClosePosition(ps, id, pnl);
    if id < n {
      ClosingCounts(ps[..n], id, pnl, trader);
      assert qs[..n] == ClosePosition(ps[..n], id, pnl);
    } else {
      assert qs[..n] == ps[..n];
    }
  }

  lemma {:induction false} WinsAtMostClosed(ps: seq<Position>, trader: string)
    ensures Wins(ps, trader) <= ClosedCount(ps, trader)
  {
    if ps != [] {
      WinsAtMostClosed(ps[..|ps| - 1], trader);
    }
  }

  // ---------- metrics mirror the positions ----------

  ghost predicate MirrorOf(s: State, trader: string)
    requires trader in s.traders
  {
    var m := s.traders[trader];
    && m.tradeCount == ClosedCount(s.positions, trader)
    && m.totalPnl == ClosedPnl(s.positions, trader)
    && m.winRate == WinRate(s.positions, trader)
  }

  ghost predicate Mirror(s: State) {
    Rows(s.positions) && forall t :: t in s.traders ==> MirrorOf(s, t)
  }

  lemma SettleMirrors(s: State, trader: string, id: nat, pnl: real)
    requires Mirror(s) && id < |s.positions| && !s.positions[id].closed && s.positions[id].trader == trader
    ensures Mirror(Settle(s, trader, id, pnl))
  {
    var t := Settle(s, trader, id, pnl);
    forall k | k in t.traders
      ensures MirrorOf(t, k)
    {
      assert MirrorOf(s, k);
      ClosingCounts(s.positions, id, pnl, k);
    }
  }

  lemma AddMirrors(s: State, trader: string, symbol: string, side: Side, quantity: real, price: real)
    requires Mirror(s)
    ensures Mirror(AddPosition(s, trader, symbol, side, quantity, price))
  {
    var t := AddPosition(s, trader, symbol, side, quantity, price);
    assert t.positions[..|s.positions|] == s.positions;
    forall k | k in t.traders
      ensures MirrorOf(t, k)
    {
      assert MirrorOf(s, k);
    }
  }

  lemma RowsOnly(s: State, t: State)
    requires Mirror(s) && t.positions == s.positions && t.traders == s.traders
    ensures Mirror(t)
  {
    forall k | k in t.traders
      ensures MirrorOf(t, k)
    {
      assert MirrorOf(s, k);
    }
  }

  lemma CloseMirrors(s: State, trader: string, symbol: string, exitPrice: real)
    requires Mirror(s)
    ensures Mirror(CloseBySymbol(s, trader, symbol, exitPrice))
  {
    MatchedIsOpen(s, trader, symbol, None);
    var m := Match(ListOpen(s.positions, trader), symbol, None);
    if m.Some? {
      SettleMirrors(s, trader, m.value.id, Profit(m.value, exitPrice));
    }
  }

  lemma BuildMirrors(s: State, trader: string, f: Fill)
    requires Mirror(s)
    ensures Mirror(Build(s, trader, f))
  {
    MatchedIsOpen(s, trader, f.symbol, Some(FillSide(f)));
    var m := Match(ListOpen(s.positions, trader), f.symbol, Some(FillSide(f)));
    if m.Some? {
      SettleMirrors(s, trader, m.value.id, f.pnl);
    } else {
      AddMirrors(s, trader, f.symbol, FillSide(f), f.quantity, f.price);
    }
  }

  lemma SyncOneMirrors(s: State, trader: string, f: Fill)
    requires Mirror(s)
    ensures Mirror(SyncOne(s, trader, f))
  {
    var s1 := AddFill(s, trader, f);
    var s2 := AddOrder(s1, OrderRow(trader, f.orderId, f.symbol, f.quantity));
    RowsOnly(s, s1);
    RowsOnly(s, s2);
    BuildMirrors(s2, trader, f);
  }

  lemma {:induction false} SyncMirrors(s: State, trader: string, fills: seq<Fill>)
    requires Mirror(s)
    ensures Mirror(Sync(s, trader, fills))
  {
    if fills != [] {
      var front := fills[..|fills| - 1];
      SyncMirrors(s, trader, front);
      SyncOneMirrors(Sync(s, trader, front), trader, fills[|fills| - 1]);
    }
  }

  lemma StepMirrors(s: State, op: Op)
    requires Mirror(s)
    ensures Mirror(Step(s, op))
  {
    match op
    case Decide(trader, action, symbol, quantity, result) =>
      if result.Some? {
        var price := result.value.price;
        AddMirrors(s, trader, symbol, Long, quantity, price);
        AddMirrors(s, trader, symbol, Short, quantity, price);
        CloseMirrors(s, trader, symbol, price);
        var s1 := match action
          case OpenLong => AddPosition(s, trader, symbol, Long, quantity, price)
          case OpenShort => AddPosition(s, trader, symbol, Short, quantity, price)
          case CloseLong | CloseShort => CloseBySymbol(s, trader, symbol, price)
          case Hold | Wait => s;
        RowsOnly(s1, Step(s, op));
      }
    case GuardClose(trader, symbol, price) => CloseMirrors(s, trader, symbol, price);
    case Batch(trader, fills) => SyncMirrors(s, trader, fills);
  }

  /** From a store whose metrics agree with its positions (in particular an empty one with zero
      metrics), every run keeps them agreeing, for every trader: the trade count is the number of
      closed positions, the total profit their sum, the win rate the winning share of them, in
      [0, 1]; and a position is marked CLOSED exactly when its closing is set. */
  lemma MetricsMirrorPositions(s: State, ops: seq<Op>, trader: string)
    requires Mirror(s) && trader in After(s, ops).traders
    ensures Mirror(After(s, ops)) && MirrorOf(After(s, ops), trader)
    ensures 0.0 <= After(s, ops).traders[trader].winRate <= 1.0
  {
    RunMirrors(s, ops);
    var t := After(s, ops);
    assert MirrorOf(t, trader);
    WinsAtMostClosed(t.positions, trader);
    Share(Wins(t.positions, trader), ClosedCount(t.positions, trader));
  }

  lemma {:induction false} RunMirrors(s: State, ops: seq<Op>)
    requires Mirror(s)
    ensures Mirror(After(s, ops))
  {
    if ops != [] {
      RunMirrors(s, ops[..|ops| - 1]);
      StepMirrors(After(s, ops[..|ops| - 1]), ops[|ops| - 1]);
    }
  }

  lemma Share(part: nat, whole: nat)
    requires part <= whole
    ensures whole > 0 ==> 0.0 <= part as real / whole as real <= 1.0
  {
    if whole > 0 {
      var q := part as real / whole as real;
      assert q * whole as real == part as real;
    }
  }

  // ---------- history is permanent ----------

  // Later positions extend earlier ones; a closed one is never touched again and an open one
  // keeps what it was opened with.
  predicate Preserves(ps: seq<Position>, qs: seq<Position>) {
    |ps| <= |qs| && forall i :: 0 <= i < |ps| ==>
      if ps[i].closed then qs[i] == ps[i]
      else qs[i] == ps[i] || (qs[i].closed && qs[i] == CloseRow(ps[i], qs[i].pnl))
  }

  lemma BuildPreserves(s: State, trader: string, f: Fill)
    ensures Preserves(s.positions, Build(s, trader, f).positions)
  {
  }

  lemma {:induction false} SyncPreserves(s: State, trader: string, fills: seq<Fill>)
    ensures Preserves(s.positions, Sync(s, trader, fills).positions)
  {
    if fills != [] {
      var t, f := Sync(s, trader, fills[..|fills| - 1]), fills[|fills| - 1];
      SyncPreserves(s, trader, fills[..|fills| - 1]);
      var s2 := AddOrder(AddFill(t, trader, f), OrderRow(trader, f.orderId, f.symbol, f.quantity));
      assert s2.positions == t.positions;
      BuildPreserves(s2, trader, f);
      assert Preserves(t.positions, SyncOne(t, trader, f).positions);
      PreservesTransitive(s.positions, t.positions, SyncOne(t, trader, f).positions);
    }
  }

  lemma PreservesTransitive(a: seq<Position>, b: seq<Position>, c: seq<Position>)
    requires Preserves(a, b) && Preserves(b, c)
    ensures Preserves(a, c)
  {
  }

  /** Over any run no position disappears, and a closed one never changes again. */
  lemma {:induction false} HistoryIsPermanent(s: State, ops: seq<Op>)
    ensures Preserves(s.positions, After(s, ops).positions)
  {
    if ops != [] {
      var t, op := After(s, ops[..|ops| - 1]), ops[|ops| - 1];
      HistoryIsPermanent(s, ops[..|ops| - 1]);
      if op.Batch? {
        SyncPreserves(t, op.trader, op.fills);
      }
      assert Preserves(t.positions, Step(t, op).positions);
      PreservesTransitive(s.positions, t.positions, Step(t, op).positions);
    }
  }

  // ---------- synchronising again ----------

  lemma HasFillMore(fills: seq<FillRow>, row: FillRow, id: string)
    ensures HasFill(fills + [row], id) <==> HasFill(fills, id) || row.fill.tradeId == id
  {
    var more := fills + [row];
    if HasFill(fills, id) {
      var i :| 0 <= i < |fills| && fills[i].fill.tradeId == id;
      assert more[i].fill.tradeId == id;
    }
    if row.fill.tradeId == id {
      assert more[|fills|].fill.tradeId == id;
    }
  }

  // After a fill has been offered to the store, its id is there.
  lemma SyncOneRecords(s: State, trader: string, f: Fill, id: string)
    ensures var t := SyncOne(s, trader, f);
      && (HasFill(t.fills, id) <==> HasFill(s.fills, id) || f.tradeId == id)
      && |t.fills| == |s.fills| + if FillAdded(s, f) then 1 else 0
  {
    HasFillMore(s.fills, FillRow(trader, f), id);
  }

  predicate Mentions(fills: seq<Fill>, id: string) {
    exists i :: 0 <= i < |fills| && fills[i].tradeId == id
  }

  lemma {:induction false} SyncRecords(s: State, trader: string, fills: seq<Fill>, id: string)
    ensures HasFill(Sync(s, trader, fills).fills, id) <==> HasFill(s.fills, id) || Mentions(fills, id)
  {
    if fills != [] {
      var front, last := fills[..|fills| - 1], fills[|fills| - 1];
      SyncRecords(s, trader, front, id);
      SyncOneRecords(Sync(s, trader, front), trader, last, id);
      assert Mentions(fills, id) <==> Mentions(front, id) || last.tradeId == id by {
        assert forall i :: 0 <= i < |front| ==> fills[i] == front[i];
        assert fills[|front|] == last;
      }
    }
  }

  // The fills that the code can tell apart from earlier ones, in order.
  function Firsts(fills: seq<Fill>): seq<Fill> {
    if fills == [] then []
    else
      var front, last := fills[..|fills| - 1], fills[|fills| - 1];
      if last.tradeId != "" && Mentions(front, last.tradeId) then Firsts(front) else Firsts(front) + [last]
  }

  /** Repeated trade ids have no effect: only first occurrences count. */
  lemma {:induction false} OnlyFirstsCount(s: State, trader: string, fills: seq<Fill>)
    ensures Sync(s, trader, fills) == Sync(s, trader, Firsts(fills))
  {
    if fills != [] {
      var front, last := fills[..|fills| - 1], fills[|fills| - 1];
      OnlyFirstsCount(s, trader, front);
      if last.tradeId != "" && Mentions(front, last.tradeId) {
        SyncRecords(s, trader, front, last.tradeId);
      } else {
        assert (Firsts(front) + [last])[..|Firsts(front)|] == Firsts(front);
      }
    }
  }

  function SyncAll(s: State, trader: string, batches: seq<seq<Fill>>): State {
    if batches == [] then s else Sync(SyncAll(s, trader, batches[..|batches| - 1]), trader, batches[|batches| - 1])
  }

  function Flatten(batches: seq<seq<Fill>>): seq<Fill> {
    if batches == [] then [] else Flatten(batches[..|batches| - 1]) + batches[|batches| - 1]
  }

  lemma {:induction false} SyncAppend(s: State, trader: string, a: seq<Fill>, b: seq<Fill>)
    ensures Sync(s, trader, a + b) == Sync(Sync(s, trader, a), trader, b)
  {
    if b == [] {
      assert a + b == a;
    } else {
      SyncAppend(s, trader, a, b[..|b| - 1]);
      assert (a + b)[..|a + b| - 1] == a + b[..|b| - 1];
    }
  }

  lemma {:induction false} SyncFlatten(s: State, trader: string, batches: seq<seq<Fill>>)
    ensures SyncAll(s, trader, batches) == Sync(s, trader, Flatten(batches))
  {
    if batches != [] {
      SyncFlatten(s, trader, batches[..|batches| - 1]);
      SyncAppend(s, trader, Flatten(batches[..|batches| - 1]), batches[|batches| - 1]);
    }
  }

  /** However the fills are cut into batches and however the batches overlap: the same first
      occurrences in the same order end in the same store. */
  lemma BatchesDoNotMatter(s: State, trader: string, a: seq<seq<Fill>>, b: seq<seq<Fill>>)
    requires Firsts(Flatten(a)) == Firsts(Flatten(b))
    ensures SyncAll(s, trader, a) == SyncAll(s, trader, b)
  {
    SyncFlatten(s, trader, a);
    SyncFlatten(s, trader, b);
    OnlyFirstsCount(s, trader, Flatten(a));
    OnlyFirstsCount(s, trader, Flatten(b));
  }

  predicate AllHaveIds(fills: seq<Fill>) {
    forall i :: 0 <= i < |fills| ==> fills[i].tradeId != ""
  }

  // Fills whose ids are all on record change nothing.
  lemma {:induction false} SyncKnown(s: State, trader: string, fills: seq<Fill>)
    requires AllHaveIds(fills) && forall i :: 0 <= i < |fills| ==> HasFill(s.fills, fills[i].tradeId)
    ensures Sync(s, trader, fills) == s
  {
    if fills != [] {
      SyncKnown(s, trader, fills[..|fills| - 1]);
    }
  }

  lemma {:induction false} SyncGrows(s: State, trader: string, fills: seq<Fill>)
    ensures |Sync(s, trader, fills).fills| >= |s.fills|
    ensures !AllHaveIds(fills) ==> |Sync(s, trader, fills).fills| > |s.fills|
  {
    if fills != [] {
      var front, last := fills[..|fills| - 1], fills[|fills| - 1];
      SyncGrows(s, trader, front);
      SyncOneRecords(Sync(s, trader, front), trader, last, "");
      if !AllHaveIds(fills) && AllHaveIds(front) {
        var i :| 0 <= i < |fills| && fills[i].tradeId == "";
        assert i < |front| ==> front[i].tradeId == "";
      }
    }
  }

  /** Synchronising a batch a second time changes nothing if and only if every fill in it carries
      a trade id. */
  lemma SyncIdempotentIff(s: State, trader: string, fills: seq<Fill>)
    ensures Sync(Sync(s, trader, fills), trader, fills) == Sync(s, trader, fills) <==> AllHaveIds(fills)
  {
    var t := Sync(s, trader, fills);
    if AllHaveIds(fills) {
      forall i | 0 <= i < |fills|
        ensures HasFill(t.fills, fills[i].tradeId)
      {
        SyncRecords(s, trader, fills, fills[i].tradeId);
      }
      SyncKnown(t, trader, fills);
    } else {
      SyncGrows(t, trader, fills);
    }
  }

  // ---------- unique ids, and one builder run per order ----------

  ghost predicate UniqueIds(s: State) {
    && (forall i, j :: 0 <= i < j < |s.fills| && s.fills[i].fill.tradeId != "" ==>
          s.fills[i].fill.tradeId != s.fills[j].fill.tradeId)
    && (forall i, j :: 0 <= i < j < |s.orders| && s.orders[i].orderId != "" ==>
          s.orders[i].orderId != s.orders[j].orderId)
  }

  lemma StepUnique(s: State, trader: string, f: Fill)
    requires UniqueIds(s)
    ensures UniqueIds(SyncOne(s, trader, f))
  {
    var s1 := AddFill(s, trader, f);
    assert UniqueIds(s1);
    var s2 := AddOrder(s1, OrderRow(trader, f.orderId, f.symbol, f.quantity));
    assert UniqueIds(s2);
    assert Build(s2, trader, f).fills == s2.fills && Build(s2, trader, f).orders == s2.orders;
  }

  lemma {:induction false} SyncUnique(s: State, trader: string, fills: seq<Fill>)
    requires UniqueIds(s)
    ensures UniqueIds(Sync(s, trader, fills))
  {
    if fills != [] {
      SyncUnique(s, trader, fills[..|fills| - 1]);
      StepUnique(Sync(s, trader, fills[..|fills| - 1]), trader, fills[|fills| - 1]);
    }
  }

  /** No run stores two fills with one trade id or two orders with one order id. */
  lemma {:induction false} IdsStayUnique(s: State, ops: seq<Op>)
    requires UniqueIds(s)
    ensures UniqueIds(After(s, ops))
  {
    if ops != [] {
      var t, op := After(s, ops[..|ops| - 1]), ops[|ops| - 1];
      IdsStayUnique(s, ops[..|ops| - 1]);
      if op.Batch? {
        SyncUnique(t, op.trader, op.fills);
      } else if op.Decide? {
        assert forall symbol, price ::
            var c := CloseBySymbol(t, op.trader, symbol, price); c.orders == t.orders && c.fills == t.fills;
      }
    }
  }

  // How often a batch hands a fill of this order to the position builder.
  function BuilderRuns(s: State, trader: string, fills: seq<Fill>, orderId: string): nat {
    if fills == [] then 0
    else
      var front, f := fills[..|fills| - 1], fills[|fills| - 1];
      var t := Sync(s, trader, front);
      BuilderRuns(s, trader, front, orderId) +
        if FillAdded(t, f) && OrderAdded(AddFill(t, trader, f), f.orderId) && f.orderId == orderId then 1 else 0
  }

  lemma HasOrderMore(orders: seq<OrderRow>, o: OrderRow, id: string)
    ensures HasOrder(orders + [o], id) <==> HasOrder(orders, id) || o.orderId == id
  {
    var more := orders + [o];
    if HasOrder(orders, id) {
      var i :| 0 <= i < |orders| && orders[i].orderId == id;
      assert more[i].orderId == id;
    }
    if o.orderId == id {
      assert more[|orders|].orderId == id;
    }
  }

  // Some new fill of this order is in the batch.
  predicate Arrives(s: State, trader: string, fills: seq<Fill>, orderId: string) {
    fills != [] && (Arrives(s, trader, fills[..|fills| - 1], orderId) ||
      (fills[|fills| - 1].orderId == orderId && FillAdded(Sync(s, trader, fills[..|fills| - 1]), fills[|fills| - 1])))
  }

  /** The builder runs exactly once for every order id that the batch brings and that was not on
      record before, and never for one that was: later partial fills do not reach it. */
  lemma {:induction false} OneBuilderRunPerOrder(s: State, trader: string, fills: seq<Fill>, orderId: string)
    requires orderId != ""
    ensures BuilderRuns(s, trader, fills, orderId) ==
      if !HasOrder(s.orders, orderId) && Arrives(s, trader, fills, orderId) then 1 else 0
    ensures HasOrder(Sync(s, trader, fills).orders, orderId) <==>
      HasOrder(s.orders, orderId) || Arrives(s, trader, fills, orderId)
  {
    if fills != [] {
      var front, f := fills[..|fills| - 1], fills[|fills| - 1];
      OneBuilderRunPerOrder(s, trader, front, orderId);
      var t := Sync(s, trader, front);
      var o := OrderRow(trader, f.orderId, f.symbol, f.quantity);
      HasOrderMore(t.orders, o, orderId);
      assert SyncOne(t, trader, f).orders ==
        if FillAdded(t, f) && OrderAdded(AddFill(t, trader, f), f.orderId) then t.orders + [o] else t.orders;
    }
  }

  lemma {:induction false} OrdersPersist(s: State, trader: string, fills: seq<Fill>, id: string)
    requires HasOrder(s.orders, id)
    ensures HasOrder(Sync(s, trader, fills).orders, id)
  {
    if fills != [] {
      var t, f := Sync(s, trader, fills[..|fills| - 1]), fills[|fills| - 1];
      OrdersPersist(s, trader, fills[..|fills| - 1], id);
      HasOrderMore(t.orders, OrderRow(trader, f.orderId, f.symbol, f.quantity), id);
    }
  }

  /** Fills of orders already on record, such as those the engine placed itself, never touch
      positions or metrics: nothing is booked twice. */
  lemma {:induction false} RecordedOrdersAreNotRebuilt(s: State, trader: string, fills: seq<Fill>)
    requires forall i :: 0 <= i < |fills| ==> fills[i].orderId != "" && HasOrder(s.orders, fills[i].orderId)
    ensures var t := Sync(s, trader, fills); t.positions == s.positions && t.traders == s.traders
  {
    if fills != [] {
      RecordedOrdersAreNotRebuilt(s, trader, fills[..|fills| - 1]);
      OrdersPersist(s, trader, fills[..|fills| - 1], fills[|fills| - 1].orderId);
    }
  }

  /** The engine's own order is on record as soon as it is executed. */
  lemma ExecutedOrderIsRecorded(s: State, trader: string, action: Action, symbol: string, quantity: real, r: Result)
    requires r.orderId != "" && !action.Hold? && !action.Wait?
    ensures HasOrder(Execute(s, trader, action, symbol, quantity, Some(r)).orders, r.orderId)
  {
    HasOrderMore(CloseBySymbol(s, trader, symbol, r.price).orders, OrderRow(trader, r.orderId, symbol, quantity), r.orderId);
    HasOrderMore(s.orders, OrderRow(trader, r.orderId, symbol, quantity), r.orderId);
  }

  // ---------- the side of a back-filled position ----------

  lemma {:induction false} MatchNone(open: seq<Position>, symbol: string, side: Side)
    ensures Match(open, symbol, None).None? ==> Match(open, symbol, Some(side)).None?
  {
    if open != [] {
      MatchNone(open[1..], symbol, side);
    }
  }

  /** A position that the builder back-fills gets the side that its own fill would close: the
      next fill of its symbol closes it if and only if it has the same direction and at least that
      size, but for the rounding tolerance, and otherwise changes nothing. */
  lemma BackfillIsClosedByTheSameDirection(s: State, trader: string, f: Fill, g: Fill)
    requires Rows(s.positions) && Match(ListOpen(s.positions, trader), f.symbol, None).None?
    requires g.symbol == f.symbol
    ensures var n, once, twice := |s.positions|, Build(s, trader, f), Build(Build(s, trader, f), trader, g);
      var closes := g.sell == f.sell && g.quantity >= f.quantity - 0.000000001;
      && |once.positions| == n + 1 && !once.positions[n].closed && once.positions[n].side == FillSide(f)
      && |twice.positions| == n + 1 && (twice.positions[n].closed <==> closes)
      && if closes then twice.positions[n].pnl == g.pnl else twice == once
  {
    var n, once, open := |s.positions|, Build(s, trader, f), ListOpen(s.positions, trader);
    MatchNone(open, f.symbol, FillSide(f));
    MatchNone(open, f.symbol, FillSide(g));
    assert once.positions[..n] == s.positions;
    var listed := ListOpen(once.positions, trader);
    assert listed == [once.positions[n]] + open && listed[1..] == open;
    assert Match(listed, g.symbol, None) == Some(once.positions[n]);
    assert Match(listed, g.symbol, Some(FillSide(g))) == if g.sell == f.sell then Some(once.positions[n]) else None;
  }
}
