// Live bookkeeping of the trading engine on the in-memory store: positions, deduplicated orders
// and fills, trader metrics (internal/trader/engine/engine.go and ordersync.go,
// internal/store/store.go and order_fill_store.go).
module Trading {

  datatype Option<T> = None | Some(value: T)

  datatype Side = Long | Short

  datatype PositionStatus = Open | Closed

  // `closed` says whether ClosedAt is set; times themselves are not modelled.
  datatype Position = Position(id: nat, trader: string, symbol: string, side: Side, quantity: real,
                               entry: real, mark: real, exit: real, pnl: real, status: PositionStatus, closed: bool)

  datatype Metrics = Metrics(totalPnl: real, winRate: real, tradeCount: int, dailyPnl: real)

  // A fill as the exchange reports it.
  datatype Fill = Fill(tradeId: string, orderId: string, symbol: string, sell: bool, price: real,
                       quantity: real, pnl: real)

  datatype FillRow = FillRow(trader: string, fill: Fill)

  datatype OrderRow = OrderRow(trader: string, orderId: string, symbol: string, quantity: real)

  datatype State = State(positions: seq<Position>, orders: seq<OrderRow>, fills: seq<FillRow>,
                         traders: map<string, Metrics>)

  function Dir(side: Side): real { if side.Long? then 1.0 else -1.0 }

  // ---------- the store ----------

  predicate HasFill(fills: seq<FillRow>, tradeId: string) {
    exists i :: 0 <= i < |fills| && fills[i].fill.tradeId == tradeId
  }

  predicate HasOrder(orders: seq<OrderRow>, orderId: string) {
    exists i :: 0 <= i < |orders| && orders[i].orderId == orderId
  }

  // Rows without an exchange id are never recognised as duplicates.
  predicate FillAdded(s: State, f: Fill) {
    f.tradeId == "" || !HasFill(s.fills, f.tradeId)
  }

  predicate OrderAdded(s: State, orderId: string) {
    orderId == "" || !HasOrder(s.orders, orderId)
  }

  function AddFill(s: State, trader: string, f: Fill): State {
    if FillAdded(s, f) then s.(fills := s.fills + [FillRow(trader, f)]) else s
  }

  function AddOrder(s: State, o: OrderRow): State {
    if OrderAdded(s, o.orderId) then s.(orders := s.orders + [o]) else s
  }

  // Ids are fresh random strings; here the n-th position has id n.
  function AddPosition(s: State, trader: string, symbol: string, side: Side, quantity: real, price: real): State {
    s.(positions := s.positions +
         [Position(|s.positions|, trader, symbol, side, quantity, price, price, 0.0, 0.0, Open, false)])
  }

  function CloseRow(p: Position, pnl: real): Position {
    p.(pnl := pnl, status := Closed, exit := p.mark, closed := true)
  }

  function ClosePosition(ps: seq<Position>, id: nat, pnl: real): seq<Position> {
    if id < |ps| && !ps[id].closed then ps[id := CloseRow(ps[id], pnl)] else ps
  }

  /** The open positions of a trader, newest first. */
  function ListOpen(ps: seq<Position>, trader: string): seq<Position> {
    if ps == [] then []
    else
      var rest, last := ListOpen(ps[..|ps| - 1], trader), ps[|ps| - 1];
      if last.trader == trader && !last.closed then [last] + rest else rest
  }

  // ---------- the engine ----------

  function Wins(ps: seq<Position>, trader: string): nat {
    if ps == [] then 0
    else
      var last := ps[|ps| - 1];
      Wins(ps[..|ps| - 1], trader) + if last.trader == trader && last.closed && last.pnl > 0.0 then 1 else 0
  }

  function ClosedCount(ps: seq<Position>, trader: string): nat {
    if ps == [] then 0
    else
      var last := ps[|ps| - 1];
      ClosedCount(ps[..|ps| - 1], trader) + if last.trader == trader && last.closed then 1 else 0
  }

  function WinRate(ps: seq<Position>, trader: string): real {
    if ClosedCount(ps, trader) == 0 then 0.0 else Wins(ps, trader) as real / ClosedCount(ps, trader) as real
  }

  // Closing position `id` and writing the result into the trader's metrics, if there is one.
  function Settle(s: State, trader: string, id: nat, pnl: real): State {
    var ps := ClosePosition(s.positions, id, pnl);
    if trader !in s.traders then s.(positions := ps)
    else
      var m := s.traders[trader];
      s.(positions := ps,
         traders := s.traders[trader := Metrics(m.totalPnl + pnl, WinRate(ps, trader), m.tradeCount + 1, m.dailyPnl + pnl)])
  }

  // The first position of the list with this symbol and, if given, this side.
  function Match(open: seq<Position>, symbol: string, side: Option<Side>): Option<Position> {
    if open == [] then None
    else if open[0].symbol == symbol && (side.None? || open[0].side == side.value) then Some(open[0])
    else Match(open[1..], symbol, side)
  }

  function Profit(p: Position, exitPrice: real): real { (exitPrice - p.entry) * p.quantity * Dir(p.side) }

  function CloseBySymbol(s: State, trader: string, symbol: string, exitPrice: real): State {
    match Match(ListOpen(s.positions, trader), symbol, None)
    case None => s
    case Some(p) => Settle(s, trader, p.id, Profit(p, exitPrice))
  }

  /** The side of position that this fill would close; also the side of a position that the
      builder back-fills from it. */
  function FillSide(f: Fill): Side { if f.sell then Long else Short }

  function Build(s: State, trader: string, f: Fill): State {
    var open := ListOpen(s.positions, trader);
    match Match(open, f.symbol, Some(FillSide(f)))
    case Some(p) => if f.quantity >= p.quantity - 0.000000001 then Settle(s, trader, p.id, f.pnl) else s
    case None =>
      if Match(open, f.symbol, None).Some? then s
      else AddPosition(s, trader, f.symbol, FillSide(f), f.quantity, f.price)
  }

  function SyncOne(s: State, trader: string, f: Fill): State {
    var s1 := AddFill(s, trader, f);
    var s2 := AddOrder(s1, OrderRow(trader, f.orderId, f.symbol, f.quantity));
    if !FillAdded(s, f) then s
    else if !OrderAdded(s1, f.orderId) then s1
    else Build(s2, trader, f)
  }

  function Sync(s: State, trader: string, fills: seq<Fill>): State {
    if fills == [] then s else SyncOne(Sync(s, trader, fills[..|fills| - 1]), trader, fills[|fills| - 1])
  }

  datatype Action = OpenLong | OpenShort | CloseLong | CloseShort | Hold | Wait

  datatype Result = Result(orderId: string, price: real)

  // What executing a decision does to positions and metrics, before the order is put on record.
  function Change(s: State, trader: string, action: Action, symbol: string, quantity: real, price: real): State {
    match action
    case OpenLong => AddPosition(s, trader, symbol, Long, quantity, price)
    case OpenShort => AddPosition(s, trader, symbol, Short, quantity, price)
    case CloseLong | CloseShort => CloseBySymbol(s, trader, symbol, price)
    case Hold | Wait => s
  }

  /** Executes one decision; `result` is None when the exchange refuses the order. */
  function Execute(s: State, trader: string, action: Action, symbol: string, quantity: real, result: Option<Result>): State {
    if action.Hold? || action.Wait? || result.None? then s
    else
      var r := result.value;
      var s1 := Change(s, trader, action, symbol, quantity, r.price);
      AddOrder(s1, OrderRow(trader, r.orderId, symbol, quantity))
  }

  // ---------- the same, in place ----------

  class Store {
    var positions: seq<Position>
    var orders: seq<OrderRow>
    var fills: seq<FillRow>
    var traders: map<string, Metrics>

    ghost function Now(): State
      reads this
    {
      State(positions, orders, fills, traders)
    }

    method InsertFill(trader: string, f: Fill) returns (added: bool)
      modifies this`fills
      ensures Now() == AddFill(old(Now()), trader, f) && added == FillAdded(old(Now()), f)
    {
      if f.tradeId != "" {
        for i := 0 to |fills|
          invariant forall j :: 0 <= j < i ==> fills[j].fill.tradeId != f.tradeId
          invariant fills == old(fills)
        {
          if fills[i].fill.tradeId == f.tradeId {
            return false;
          }
        }
      }
      fills := fills + [FillRow(trader, f)];
      return true;
    }

    method InsertOrder(o: OrderRow) returns (added: bool)
      modifies this`orders
      ensures Now() == AddOrder(old(Now()), o) && added == OrderAdded(old(Now()), o.orderId)
    {
      if o.orderId != "" {
        for i := 0 to |orders|
          invariant forall j :: 0 <= j < i ==> orders[j].orderId != o.orderId
          invariant orders == old(orders)
        {
          if orders[i].orderId == o.orderId {
            return false;
          }
        }
      }
      orders := orders + [o];
      return true;
    }

    method InsertPosition(trader: string, symbol: string, side: Side, quantity: real, price: real)
      modifies this`positions
      ensures Now() == AddPosition(old(Now()), trader, symbol, side, quantity, price)
    {
      positions := positions + [Position(|positions|, trader, symbol, side, quantity, price, price, 0.0, 0.0, Open, false)];
    }

    /** Closes the position with this id, once. */
    method CloseById(id: nat, pnl: real) returns (ok: bool)
      requires forall i :: 0 <= i < |positions| ==> positions[i].id == i
      modifies this`positions
      ensures positions == ClosePosition(old(positions), id, pnl)
      ensures ok == (id < |old(positions)| && !old(positions)[id].closed)
    {
      for i := 0 to |positions|
        invariant positions == old(positions) && (id < |positions| ==> i <= id)
      {
        if positions[i].id == id {
          if positions[i].closed {
            return false;
          }
          positions := positions[i := CloseRow(positions[i], pnl)];
          return true;
        }
      }
      return false;
    }

    method ListPositionsByTrader(trader: string) returns (open: seq<Position>)
      ensures open == ListOpen(positions, trader)
    {
      open := [];
      assert positions[..|positions|] == positions;
      for i := |positions| downto 0
        invariant open + ListOpen(positions[..i], trader) == ListOpen(positions, trader)
      {
        var p := positions[i];
        assert positions[..i + 1][..i] == positions[..i];
        if p.trader == trader && !p.closed {
          open := open + [p];
        }
      }
    }

    method ComputeWinRate(trader: string) returns (rate: real)
      ensures rate == WinRate(positions, trader)
    {
      var wins, total := 0, 0;
      for i := 0 to |positions|
        invariant wins == Wins(positions[..i], trader) && total == ClosedCount(positions[..i], trader)
      {
        assert positions[..i + 1][..i] == positions[..i];
        if positions[i].trader == trader && positions[i].closed {
          total := total + 1;
          if positions[i].pnl > 0.0 {
            wins := wins + 1;
          }
        }
      }
      assert positions[..|positions|] == positions;
      return if total == 0 then 0.0 else wins as real / total as real;
    }

    method SettlePosition(trader: string, id: nat, pnl: real)
      requires forall i :: 0 <= i < |positions| ==> positions[i].id == i
      modifies this`positions, this`traders
      ensures Now() == Settle(old(Now()), trader, id, pnl)
    {
      var _ := CloseById(id, pnl);
      if trader in traders {
        var m := traders[trader];
        var rate := ComputeWinRate(trader);
        traders := traders[trader := Metrics(m.totalPnl + pnl, rate, m.tradeCount + 1, m.dailyPnl + pnl)];
      }
    }
  }

  method FindMatch(open: seq<Position>, symbol: string, side: Option<Side>) returns (found: Option<Position>)
    ensures found == Match(open, symbol, side)
  {
    for i := 0 to |open|
      invariant Match(open[i..], symbol, side) == Match(open, symbol, side)
    {
      if open[i].symbol == symbol && (side.None? || open[i].side == side.value) {
        return Some(open[i]);
      }
      assert open[i..][1..] == open[i + 1..];
    }
    return None;
  }

  method ClosePositionOf(store: Store, trader: string, symbol: string, exitPrice: real)
    requires forall i :: 0 <= i < |store.positions| ==> store.positions[i].id == i
    modifies store
    ensures store.Now() == CloseBySymbol(old(store.Now()), trader, symbol, exitPrice)
  {
    var open := store.ListPositionsByTrader(trader);
    var target := FindMatch(open, symbol, None);
    if target.None? {
      return;
    }
    var p, dir := target.value, 1.0;
    if p.side == Short {
      dir := -1.0;
    }
    var pnl := (exitPrice - p.entry) * p.quantity * dir;
    assert pnl == Profit(p, exitPrice);
    store.SettlePosition(trader, p.id, pnl);
  }

  method PositionBuilder(store: Store, trader: string, f: Fill)
    requires forall i :: 0 <= i < |store.positions| ==> store.positions[i].id == i
    modifies store
    ensures store.Now() == Build(old(store.Now()), trader, f)
  {
    var open := store.ListPositionsByTrader(trader);
    var matched := FindMatch(open, f.symbol, Some(FillSide(f)));
    if matched.Some? {
      if f.quantity >= matched.value.quantity - 0.000000001 {
        store.SettlePosition(trader, matched.value.id, f.pnl);
      }
      return;
    }
    var any := FindMatch(open, f.symbol, None);
    if any.Some? {
      return;
    }
    store.InsertPosition(trader, f.symbol, FillSide(f), f.quantity, f.price);
  }

  lemma BuildKeepsIds(s: State, trader: string, f: Fill)
    requires forall i :: 0 <= i < |s.positions| ==> s.positions[i].id == i
    ensures var t := Build(s, trader, f); forall i :: 0 <= i < |t.positions| ==> t.positions[i].id == i
  {
  }

  method OrderSync(store: Store, trader: string, batch: seq<Fill>)
    requires forall i :: 0 <= i < |store.positions| ==> store.positions[i].id == i
    modifies store
    ensures store.Now() == Sync(old(store.Now()), trader, batch)
  {
    for i := 0 to |batch|
      invariant store.Now() == Sync(old(store.Now()), trader, batch[..i])
      invariant forall j :: 0 <= j < |store.positions| ==> store.positions[j].id == j
    {
      assert batch[..i + 1][..i] == batch[..i];
      var f := batch[i];
      var added := store.InsertFill(trader, f);
      if added {
        var orderAdded := store.InsertOrder(OrderRow(trader, f.orderId, f.symbol, f.quantity));
        if orderAdded {
          BuildKeepsIds(store.Now(), trader, f);
          PositionBuilder(store, trader, f);
        }
      }
    }
    assert batch[..|batch|] == batch;
  }

  method ExecuteDecision(store: Store, trader: string, action: Action, symbol: string, quantity: real,
                         result: Option<Result>)
    requires forall i :: 0 <= i < |store.positions| ==> store.positions[i].id == i
    modifies store
    ensures store.Now() == Execute(old(store.Now()), trader, action, symbol, quantity, result)
  {
    if action.Hold? || action.Wait? || result.None? {
      return;
    }
    var r := result.value;
    match action {
      case OpenLong => store.InsertPosition(trader, symbol, Long, quantity, r.price);
      case OpenShort => store.InsertPosition(trader, symbol, Short, quantity, r.price);
      case CloseLong | CloseShort => ClosePositionOf(store, trader, symbol, r.price);
      case Hold | Wait =>
    }
    var _ := store.InsertOrder(OrderRow(trader, r.orderId, symbol, quantity));
  }
}
