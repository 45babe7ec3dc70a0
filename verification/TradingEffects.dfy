// What executing, closing and rebuilding do to a trader's money, in prices, quantities and sides
// alone (internal/trader/engine/engine.go and ordersync.go).
module TradingEffects {
  import opened Trading
  import opened TradingTheorems

  // ---------- which position is meant ----------

  predicate Wanted(p: Position, trader: string, symbol: string, side: Option<Side>) {
    p.trader == trader && !p.closed && p.symbol == symbol && (side.None? || p.side == side.value)
  }

  // Row k is the trader's newest open position of the symbol and, if given, of the side.
  predicate Newest(ps: seq<Position>, trader: string, symbol: string, side: Option<Side>, k: nat) {
    k < |ps| && Wanted(ps[k], trader, symbol, side) && forall j :: k < j < |ps| ==> !Wanted(ps[j], trader, symbol, side)
  }

  predicate NoneOpen(ps: seq<Position>, trader: string, symbol: string, side: Option<Side>) {
    forall j :: 0 <= j < |ps| ==> !Wanted(ps[j], trader, symbol, side)
  }

  lemma MatchOfMore(last: Position, rest: seq<Position>, symbol: string, side: Option<Side>)
    ensures Match([last] + rest, symbol, side)
      == if last.symbol == symbol && (side.None? || last.side == side.value) then Some(last) else Match(rest, symbol, side)
  {
    assert ([last] + rest)[1..] == rest;
  }

  lemma {:induction false} MatchIsNewest(ps: seq<Position>, trader: string, symbol: string, side: Option<Side>, k: nat)
    requires Newest(ps, trader, symbol, side, k)
    ensures Match(ListOpen(ps, trader), symbol, side) == Some(ps[k])
  {
    var front, last := ps[..|ps| - 1], ps[|ps| - 1];
    MatchOfMore(last, ListOpen(front, trader), symbol, side);
    if k < |front| {
      assert !Wanted(last, trader, symbol, side);
      MatchIsNewest(front, trader, symbol, side, k);
    }
  }

  lemma {:induction false} NoMatch(ps: seq<Position>, trader: string, symbol: string, side: Option<Side>)
    requires NoneOpen(ps, trader, symbol, side)
    ensures Match(ListOpen(ps, trader), symbol, side) == None
  {
    if ps != [] {
      var front, last := ps[..|ps| - 1], ps[|ps| - 1];
      MatchOfMore(last, ListOpen(front, trader), symbol, side);
      assert !Wanted(last, trader, symbol, side);
      NoMatch(front, trader, symbol, side);
    }
  }

  // ---------- what a closing books ----------

  /** Row k alone is closed, with this profit, and the profit and one more trade are booked for the
      trader alone. */
  ghost predicate Booked(s: State, t: State, trader: string, k: nat, pnl: real) {
    && k < |s.positions| == |t.positions|
    && t.positions[k].closed && t.positions[k].status.Closed? && t.positions[k].pnl == pnl
    && t.positions[k].side == s.positions[k].side && t.positions[k].entry == s.positions[k].entry
    && t.positions[k].quantity == s.positions[k].quantity && t.positions[k].exit == s.positions[k].mark
    && (forall j :: 0 <= j < |s.positions| && j != k ==> t.positions[j] == s.positions[j])
    && t.traders.Keys == s.traders.Keys
    && (forall u :: u in s.traders && u != trader ==> t.traders[u] == s.traders[u])
    && (trader in s.traders ==>
          var m, n := s.traders[trader], t.traders[trader];
          n.totalPnl == m.totalPnl + pnl && n.dailyPnl == m.dailyPnl + pnl && n.tradeCount == m.tradeCount + 1)
  }

  lemma SettleBooks(s: State, trader: string, k: nat, pnl: real)
    requires k < |s.positions| && !s.positions[k].closed
    ensures Booked(s, Settle(s, trader, k, pnl), trader, k, pnl)
  {
  }

  // What the position has earned at this price: the way of its side times its quantity.
  predicate Earns(p: Position, price: real, pnl: real) {
    match p.side
    case Long => pnl == p.quantity * (price - p.entry)
    case Short => pnl == p.quantity * (p.entry - price)
  }

  lemma ProfitEarns(p: Position, price: real)
    ensures Earns(p, price, Profit(p, price))
  {
    Signed(price, p.entry, p.quantity);
  }

  lemma Signed(price: real, entry: real, qty: real)
    ensures (price - entry) * qty * 1.0 == qty * (price - entry)
    ensures (price - entry) * qty * -1.0 == qty * (entry - price)
  {
  }

  predicate Closing(action: Action) { action.CloseLong? || action.CloseShort? }

  /** Executing a closing, of either direction, closes the trader's newest open position of the
      symbol at what it has earned; a closing without such a position books nothing. */
  lemma ClosingBooks(s: State, trader: string, action: Action, symbol: string, quantity: real, r: Result, k: nat, pnl: real)
    requires Rows(s.positions) && Closing(action)
    requires Newest(s.positions, trader, symbol, None, k) && Earns(s.positions[k], r.price, pnl)
    ensures Booked(s, Execute(s, trader, action, symbol, quantity, Some(r)), trader, k, pnl)
  {
    MatchIsNewest(s.positions, trader, symbol, None, k);
    ProfitEarns(s.positions[k], r.price);
    SettleBooks(s, trader, k, pnl);
  }

  lemma NothingToBook(s: State, trader: string, action: Action, symbol: string, quantity: real, r: Result)
    requires Closing(action) && NoneOpen(s.positions, trader, symbol, None)
    ensures var t := Execute(s, trader, action, symbol, quantity, Some(r));
      t.positions == s.positions && t.traders == s.traders
  {
    NoMatch(s.positions, trader, symbol, None);
  }

  /** A position of positive quantity wins if and only if the price has moved its side's way. */
  lemma WinsIff(p: Position, price: real, pnl: real)
    requires Earns(p, price, pnl) && p.quantity > 0.0
    ensures pnl > 0.0 <==> if p.side.Long? then price > p.entry else price < p.entry
  {
    SignOfProduct(p.quantity, price - p.entry);
    SignOfProduct(p.quantity, p.entry - price);
  }

  lemma SignOfProduct(x: real, y: real)
    requires x > 0.0
    ensures x * y > 0.0 <==> y > 0.0
  {
  }

  /** From a state without an open position of the symbol, opening n at p and closing at q books
      n * (q - p) for a long, n * (p - q) for a short, as one trade and one closed row, and leaves
      all older rows and all other traders alone. */
  lemma RoundTrip(s: State, trader: string, long: bool, symbol: string, n: real, asked: real, entry: Result, exit: Result)
    requires Rows(s.positions) && NoneOpen(s.positions, trader, symbol, None)
    ensures var s1 := Execute(s, trader, if long then OpenLong else OpenShort, symbol, n, Some(entry));
      var s2 := Execute(s1, trader, if long then CloseLong else CloseShort, symbol, asked, Some(exit));
      var k := |s.positions|;
      && |s1.positions| == |s2.positions| == k + 1 && s1.positions[..k] == s2.positions[..k] == s.positions
      && s1.traders == s.traders && Wanted(s1.positions[k], trader, symbol, Some(if long then Side.Long else Side.Short))
      && s1.positions[k].quantity == n && s1.positions[k].entry == entry.price
      && Booked(s1, s2, trader, k, if long then n * (exit.price - entry.price) else n * (entry.price - exit.price))
  {
    var s1 := Execute(s, trader, if long then OpenLong else OpenShort, symbol, n, Some(entry));
    var k, pnl := |s.positions|, if long then n * (exit.price - entry.price) else n * (entry.price - exit.price);
    assert s1.positions[..k] == s.positions;
    assert Newest(s1.positions, trader, symbol, None, k);
    ClosingBooks(s1, trader, if long then CloseLong else CloseShort, symbol, asked, exit, k, pnl);
  }

  // ---------- what the builder books ----------

  /** A sale closes the newest long position of its symbol, a purchase the newest short one, at the
      fill's own profit, if the fill is no smaller by more than 1e-9; a smaller one books nothing. */
  lemma FillBooks(s: State, trader: string, f: Fill, k: nat)
    requires Rows(s.positions) && Newest(s.positions, trader, f.symbol, Some(if f.sell then Side.Long else Side.Short), k)
    ensures if s.positions[k].quantity - f.quantity <= 0.000000001 then
        Booked(s, Build(s, trader, f), trader, k, f.pnl)
      else Build(s, trader, f) == s
  {
    MatchIsNewest(s.positions, trader, f.symbol, Some(if f.sell then Side.Long else Side.Short), k);
    SettleBooks(s, trader, k, f.pnl);
  }

  /** Without a position of that side, a fill of a symbol with another open position changes nothing,
      and one without any becomes a position: long for a sale, short for a purchase. */
  lemma FillOpens(s: State, trader: string, f: Fill)
    requires Rows(s.positions) && NoneOpen(s.positions, trader, f.symbol, Some(if f.sell then Side.Long else Side.Short))
    ensures var t, k := Build(s, trader, f), |s.positions|;
      if NoneOpen(s.positions, trader, f.symbol, None) then
        && |t.positions| == k + 1 && t.positions[..k] == s.positions && t.traders == s.traders
        && Wanted(t.positions[k], trader, f.symbol, Some(if f.sell then Side.Long else Side.Short))
        && t.positions[k].quantity == f.quantity && t.positions[k].entry == f.price && t.positions[k].status.Open?
      else t == s
  {
    NoMatch(s.positions, trader, f.symbol, Some(if f.sell then Side.Long else Side.Short));
    if NoneOpen(s.positions, trader, f.symbol, None) {
      NoMatch(s.positions, trader, f.symbol, None);
    } else {
      var k := NewestExists(s.positions, trader, f.symbol, None);
      MatchIsNewest(s.positions, trader, f.symbol, None, k);
    }
  }

  lemma {:induction false} NewestExists(ps: seq<Position>, trader: string, symbol: string, side: Option<Side>)
    returns (k: nat)
    requires !NoneOpen(ps, trader, symbol, side)
    ensures Newest(ps, trader, symbol, side, k)
  {
    k := |ps| - 1;
    if !Wanted(ps[k], trader, symbol, side) {
      k := NewestExists(ps[..|ps| - 1], trader, symbol, side);
    }
  }

  // ---------- the win rate ----------

  predicate ClosedFor(p: Position, trader: string) { p.trader == trader && p.closed }
  predicate WonFor(p: Position, trader: string) { p.trader == trader && p.closed && p.pnl > 0.0 }

  function ClosedRows(ps: seq<Position>, trader: string): set<nat> {
    set i: nat | i < |ps| && ClosedFor(ps[i], trader)
  }

  function WonRows(ps: seq<Position>, trader: string): set<nat> {
    set i: nat | i < |ps| && WonFor(ps[i], trader)
  }

  lemma {:induction false} ClosedCountIs(ps: seq<Position>, trader: string)
    ensures ClosedCount(ps, trader) == |ClosedRows(ps, trader)|
  {
    if ps == [] {
      assert ClosedRows(ps, trader) == {};
    } else {
      var front, n := ps[..|ps| - 1], |ps| - 1;
      ClosedCountIs(front, trader);
      var before := ClosedRows(front, trader);
      assert n !in before;
      if ClosedFor(ps[n], trader) {
        assert ClosedRows(ps, trader) == before + {n};
      } else {
        assert ClosedRows(ps, trader) == before;
      }
    }
  }

  lemma {:induction false} WinsIs(ps: seq<Position>, trader: string)
    ensures Wins(ps, trader) == |WonRows(ps, trader)|
  {
    if ps == [] {
      assert WonRows(ps, trader) == {};
    } else {
      var front, n := ps[..|ps| - 1], |ps| - 1;
      WinsIs(front, trader);
      var before := WonRows(front, trader);
      assert n !in before;
      if WonFor(ps[n], trader) {
        assert WonRows(ps, trader) == before + {n};
      } else {
        assert WonRows(ps, trader) == before;
      }
    }
  }

  /** After a closing of a registered trader's position the win rate is the share of rows with a
      positive profit among the trader's closed rows, the new one included. */
  lemma RateAfterClosing(s: State, trader: string, k: nat, pnl: real)
    requires k < |s.positions| && !s.positions[k].closed && s.positions[k].trader == trader && trader in s.traders
    ensures var t := Settle(s, trader, k, pnl); var closed := ClosedRows(t.positions, trader);
      && k in closed && (k in WonRows(t.positions, trader) <==> pnl > 0.0)
      && t.traders[trader].winRate * |closed| as real == |WonRows(t.positions, trader)| as real
  {
    var t := Settle(s, trader, k, pnl);
    ClosedCountIs(t.positions, trader);
    WinsIs(t.positions, trader);
    assert k in ClosedRows(t.positions, trader);
    Ratio(Wins(t.positions, trader), ClosedCount(t.positions, trader));
  }

  lemma Ratio(part: nat, whole: nat)
    requires whole > 0
    ensures part as real / whole as real * whole as real == part as real
  {
  }
}
