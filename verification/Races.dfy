// The live bookkeeping at the grain of its locks: the trading cycle and the fill sync of one
// trader run in two goroutines, and closing a position takes three critical sections
// (internal/trader/engine/engine.go, ordersync.go, internal/store/store.go).
module Races {
  import opened Trading
  import opened TradingTheorems

  // A closing: the position is listed; closed, or found closed already; then the metrics are
  // written, whatever the store answered.
  datatype Stage = Listed | Asked(ok: bool) | Done(ok: bool)

  datatype Closing = Closing(trader: string, id: nat, pnl: real, stage: Stage)

  datatype World = World(store: State, closings: seq<Closing>)

  datatype Event =
    | ListToClose(trader: string, symbol: string, price: real)
    | ListToBuild(trader: string, fill: Fill)
    | Ask(i: nat)
    | Write(i: nat)
    | Insert(trader: string, symbol: string, side: Side, quantity: real, price: real)

  function Picked(w: World, trader: string, p: Position, pnl: real): World {
    w.(closings := w.closings + [Closing(trader, p.id, pnl, Listed)])
  }

  function WriteMetrics(s: State, trader: string, pnl: real): State {
    if trader !in s.traders then s
    else
      var m := s.traders[trader];
      s.(traders := s.traders[trader :=
           Metrics(m.totalPnl + pnl, WinRate(s.positions, trader), m.tradeCount + 1, m.dailyPnl + pnl)])
  }

  /** One critical section. */
  function Next(w: World, e: Event): World {
    match e
    case ListToClose(trader, symbol, price) =>
      (match Match(ListOpen(w.store.positions, trader), symbol, None)
       case None => w
       case Some(p) => Picked(w, trader, p, Profit(p, price)))
    case ListToBuild(trader, f) =>
      (match Match(ListOpen(w.store.positions, trader), f.symbol, Some(FillSide(f)))
       case None => w
       case Some(p) => if f.quantity >= p.quantity - 0.000000001 then Picked(w, trader, p, f.pnl) else w)
    case Ask(i) =>
      if i < |w.closings| && w.closings[i].stage.Listed? then
        var c := w.closings[i];
        var ok := c.id < |w.store.positions| && !w.store.positions[c.id].closed;
        World(w.store.(positions := ClosePosition(w.store.positions, c.id, c.pnl)),
              w.closings[i := c.(stage := Asked(ok))])
      else w
    case Write(i) =>
      if i < |w.closings| && w.closings[i].stage.Asked? then
        var c := w.closings[i];
        World(WriteMetrics(w.store, c.trader, c.pnl), w.closings[i := c.(stage := Done(c.stage.ok))])
      else w
    case Insert(trader, symbol, side, quantity, price) =>
      w.(store := AddPosition(w.store, trader, symbol, side, quantity, price))
  }

  function Run(w: World, events: seq<Event>): World {
    if events == [] then w else Next(Run(w, events[..|events| - 1]), events[|events| - 1])
  }

  /** The three sections of one closing without another in between are the closing in one step. */
  lemma SerialIsSettle(w: World, trader: string, symbol: string, price: real)
    requires Rows(w.store.positions)
    ensures var n := |w.closings|;
      Next(Next(Next(w, ListToClose(trader, symbol, price)), Ask(n)), Write(n)).store
        == CloseBySymbol(w.store, trader, symbol, price)
  {
    MatchedIsOpen(w.store, trader, symbol, None);
    var m := Match(ListOpen(w.store.positions, trader), symbol, None);
    if m.Some? {
      SerialFrom(w, trader, m.value, Profit(m.value, price));
    }
  }

  lemma SerialFrom(w: World, trader: string, p: Position, pnl: real)
    requires p.id < |w.store.positions| && !w.store.positions[p.id].closed
    ensures var n := |w.closings|;
      Next(Next(Picked(w, trader, p, pnl), Ask(n)), Write(n)).store == Settle(w.store, trader, p.id, pnl)
  {
  }

  // ---------- counting closings ----------

  function Count(cs: seq<Closing>, f: Closing -> bool): nat {
    if cs == [] then 0 else Count(cs[..|cs| - 1], f) + if f(cs[|cs| - 1]) then 1 else 0
  }

  function SumPnl(cs: seq<Closing>, f: Closing -> bool): real {
    if cs == [] then 0.0 else SumPnl(cs[..|cs| - 1], f) + if f(cs[|cs| - 1]) then cs[|cs| - 1].pnl else 0.0
  }

  // Asked, but the metrics are still to be written.
  function Unwritten(trader: string): Closing -> bool {
    (c: Closing) => c.trader == trader && c.stage.Asked?
  }

  // Found the position closed already.
  function Refused(trader: string): Closing -> bool {
    (c: Closing) => c.trader == trader && !c.stage.Listed? && !c.stage.ok
  }

  lemma {:induction false} CountUpdate(cs: seq<Closing>, i: nat, c: Closing, f: Closing -> bool)
    requires i < |cs| && c.pnl == cs[i].pnl
    ensures Count(cs[i := c], f) == Count(cs, f) - (if f(cs[i]) then 1 else 0) + (if f(c) then 1 else 0)
    ensures SumPnl(cs[i := c], f) == SumPnl(cs, f) - (if f(cs[i]) then c.pnl else 0.0) + (if f(c) then c.pnl else 0.0)
  {
    var n := |cs| - 1;
    if i < n {
      CountUpdate(cs[..n], i, c, f);
      assert cs[i := c][..n] == cs[..n][i := c];
    } else {
      assert cs[i := c][..n] == cs[..n];
    }
  }

  lemma CountMore(cs: seq<Closing>, c: Closing, f: Closing -> bool)
    ensures Count(cs + [c], f) == Count(cs, f) + if f(c) then 1 else 0
    ensures SumPnl(cs + [c], f) == SumPnl(cs, f) + if f(c) then c.pnl else 0.0
  {
    assert (cs + [c])[..|cs|] == cs;
  }

  // ---------- what every critical section keeps ----------

  // Metrics are behind by what is unwritten, and ahead by what was refused.
  ghost predicate Accounted(m: Metrics, ps: seq<Position>, cs: seq<Closing>, trader: string) {
    && m.tradeCount + Count(cs, Unwritten(trader)) == ClosedCount(ps, trader) + Count(cs, Refused(trader))
    && m.totalPnl + SumPnl(cs, Unwritten(trader)) == ClosedPnl(ps, trader) + SumPnl(cs, Refused(trader))
    && (Count(cs, Unwritten(trader)) == 0 ==> m.winRate == WinRate(ps, trader))
  }

  predicate Won(c: Closing) { !c.stage.Listed? && c.stage.ok }

  ghost predicate HasWinner(cs: seq<Closing>, id: nat) {
    exists j :: 0 <= j < |cs| && cs[j].id == id && Won(cs[j])
  }

  // The closing is of a position of its trader, which is closed once the closing has asked, and
  // then some closing of it was accepted.
  ghost predicate OwnedBy(ps: seq<Position>, cs: seq<Closing>, c: Closing) {
    && c.id < |ps| && ps[c.id].trader == c.trader
    && (!c.stage.Listed? ==> ps[c.id].closed)
    && (ps[c.id].closed ==> HasWinner(cs, c.id))
  }

  ghost predicate Owned(ps: seq<Position>, cs: seq<Closing>) {
    && (forall i :: 0 <= i < |cs| ==> OwnedBy(ps, cs, cs[i]))
    && (forall i, j :: 0 <= i < j < |cs| && Won(cs[i]) && Won(cs[j]) ==> cs[i].id != cs[j].id)
  }

  ghost predicate Invariant(w: World) {
    && Rows(w.store.positions) && Owned(w.store.positions, w.closings)
    && forall t :: t in w.store.traders ==> Accounted(w.store.traders[t], w.store.positions, w.closings, t)
  }

  lemma PickOwned(ps: seq<Position>, cs: seq<Closing>, c: Closing)
    requires Owned(ps, cs) && c.stage.Listed? && c.id < |ps| && ps[c.id].trader == c.trader && !ps[c.id].closed
    ensures Owned(ps, cs + [c])
  {
    var ds := cs + [c];
    forall i | 0 <= i < |ds|
      ensures OwnedBy(ps, ds, ds[i])
    {
      if i < |cs| {
        assert OwnedBy(ps, cs, cs[i]);
        if j :| 0 <= j < |cs| && cs[j].id == cs[i].id && Won(cs[j]) {
          assert ds[j] == cs[j];
        }
      }
    }
  }

  lemma PickKeeps(w: World, trader: string, p: Position, pnl: real)
    requires Invariant(w) && p.id < |w.store.positions|
    requires w.store.positions[p.id].trader == trader && !w.store.positions[p.id].closed
    ensures Invariant(Picked(w, trader, p, pnl))
  {
    var c := Closing(trader, p.id, pnl, Listed);
    forall t | t in w.store.traders
      ensures Accounted(w.store.traders[t], w.store.positions, w.closings + [c], t)
    {
      CountMore(w.closings, c, Unwritten(t));
      CountMore(w.closings, c, Refused(t));
    }
    PickOwned(w.store.positions, w.closings, c);
  }

  lemma WinnerStays(cs: seq<Closing>, i: nat, d: Closing, id: nat)
    requires i < |cs| && d.id == cs[i].id && (Won(cs[i]) ==> Won(d))
    ensures HasWinner(cs, id) ==> HasWinner(cs[i := d], id)
  {
    if j :| 0 <= j < |cs| && cs[j].id == id && Won(cs[j]) {
      assert Won(cs[i := d][j]) && cs[i := d][j].id == id;
    }
  }

  lemma AskOwned(ps: seq<Position>, cs: seq<Closing>, i: nat, d: Closing)
    requires Owned(ps, cs) && i < |cs| && cs[i].stage.Listed?
    requires cs[i].id < |ps| && d == cs[i].(stage := Asked(!ps[cs[i].id].closed))
    ensures Owned(ClosePosition(ps, d.id, d.pnl), cs[i := d])
  {
    var qs, ds := ClosePosition(ps, d.id, d.pnl), cs[i := d];
    assert OwnedBy(ps, cs, cs[i]);
    assert d.stage.ok ==> HasWinner(ds, d.id) by {
      assert ds[i] == d;
    }
    WinnerStays(cs, i, d, d.id);
    forall k | 0 <= k < |ds|
      ensures OwnedBy(qs, ds, ds[k])
    {
      assert OwnedBy(ps, cs, cs[k]);
      WinnerStays(cs, i, d, cs[k].id);
    }
    NewWinner(ps, cs, i, d, ds);
  }

  // An accepted closing is of a position that was open: no other closing of it was accepted.
  lemma NewWinner(ps: seq<Position>, cs: seq<Closing>, i: nat, d: Closing, ds: seq<Closing>)
    requires Owned(ps, cs) && i < |cs| && d.id == cs[i].id < |ps| && (Won(d) ==> !ps[d.id].closed)
    requires ds == cs[i := d]
    ensures forall j, k :: 0 <= j < k < |ds| && Won(ds[j]) && Won(ds[k]) ==> ds[j].id != ds[k].id
  {
    forall j, k | 0 <= j < k < |ds| && Won(ds[j]) && Won(ds[k])
      ensures ds[j].id != ds[k].id
    {
      assert OwnedBy(ps, cs, cs[j]) && OwnedBy(ps, cs, cs[k]);
    }
  }

  lemma AskAccounted(m: Metrics, ps: seq<Position>, cs: seq<Closing>, i: nat, d: Closing, trader: string)
    requires Accounted(m, ps, cs, trader) && i < |cs| && cs[i].stage.Listed? && OwnedBy(ps, cs, cs[i])
    requires d == cs[i].(stage := Asked(!ps[cs[i].id].closed))
    ensures Accounted(m, ClosePosition(ps, d.id, d.pnl), cs[i := d], trader)
  {
    CountUpdate(cs, i, d, Unwritten(trader));
    CountUpdate(cs, i, d, Refused(trader));
    if d.stage.ok {
      ClosingCounts(ps, d.id, d.pnl, trader);
    }
    if d.trader == trader {
      assert Unwritten(trader)(d) && !Unwritten(trader)(cs[i]) && !Refused(trader)(cs[i]);
    }
  }

  lemma AskKeeps(w: World, i: nat)
    requires Invariant(w) && i < |w.closings| && w.closings[i].stage.Listed?
    ensures Invariant(Next(w, Ask(i)))
  {
    var c, ps := w.closings[i], w.store.positions;
    assert OwnedBy(ps, w.closings, c);
    var d := c.(stage := Asked(!ps[c.id].closed));
    assert Next(w, Ask(i)) == World(w.store.(positions := ClosePosition(ps, d.id, d.pnl)), w.closings[i := d]);
    forall t | t in w.store.traders
      ensures Accounted(w.store.traders[t], ClosePosition(ps, d.id, d.pnl), w.closings[i := d], t)
    {
      AskAccounted(w.store.traders[t], ps, w.closings, i, d, t);
    }
    AskOwned(ps, w.closings, i, d);
  }

  lemma WriteOwned(ps: seq<Position>, cs: seq<Closing>, i: nat, d: Closing)
    requires Owned(ps, cs) && i < |cs| && cs[i].stage.Asked? && d == cs[i].(stage := Done(cs[i].stage.ok))
    ensures Owned(ps, cs[i := d])
  {
    var ds := cs[i := d];
    forall k | 0 <= k < |ds|
      ensures OwnedBy(ps, ds, ds[k])
    {
      assert OwnedBy(ps, cs, cs[k]);
      WinnerStays(cs, i, d, cs[k].id);
    }
  }

  function Written(m: Metrics, ps: seq<Position>, c: Closing, trader: string): Metrics {
    if c.trader == trader then Metrics(m.totalPnl + c.pnl, WinRate(ps, trader), m.tradeCount + 1, m.dailyPnl + c.pnl) else m
  }

  lemma WriteAccounted(m: Metrics, ps: seq<Position>, cs: seq<Closing>, i: nat, d: Closing, trader: string)
    requires Accounted(m, ps, cs, trader) && i < |cs| && cs[i].stage.Asked? && d == cs[i].(stage := Done(cs[i].stage.ok))
    ensures Accounted(Written(m, ps, d, trader), ps, cs[i := d], trader)
  {
    CountUpdate(cs, i, d, Unwritten(trader));
    CountUpdate(cs, i, d, Refused(trader));
    assert Refused(trader)(d) == Refused(trader)(cs[i]);
    assert Unwritten(trader)(cs[i]) == (d.trader == trader) && !Unwritten(trader)(d);
  }

  lemma WriteKeeps(w: World, i: nat)
    requires Invariant(w) && i < |w.closings| && w.closings[i].stage.Asked?
    ensures Invariant(Next(w, Write(i)))
  {
    var c, ps := w.closings[i], w.store.positions;
    var d := c.(stage := Done(c.stage.ok));
    var u := Next(w, Write(i));
    assert u.closings == w.closings[i := d] && u.store.positions == ps;
    forall t | t in u.store.traders
      ensures Accounted(u.store.traders[t], ps, w.closings[i := d], t)
    {
      WriteAccounted(w.store.traders[t], ps, w.closings, i, d, t);
      assert u.store.traders[t] == Written(w.store.traders[t], ps, d, t);
    }
    WriteOwned(ps, w.closings, i, d);
  }

  lemma InsertOwned(ps: seq<Position>, p: Position, cs: seq<Closing>)
    requires Owned(ps, cs)
    ensures Owned(ps + [p], cs)
  {
    forall i | 0 <= i < |cs|
      ensures OwnedBy(ps + [p], cs, cs[i])
    {
      assert OwnedBy(ps, cs, cs[i]);
    }
  }

  lemma InsertAccounted(m: Metrics, ps: seq<Position>, p: Position, cs: seq<Closing>, trader: string)
    requires Accounted(m, ps, cs, trader) && !p.closed
    ensures Accounted(m, ps + [p], cs, trader)
  {
    assert (ps + [p])[..|ps|] == ps;
  }

  lemma InsertKeeps(w: World, trader: string, symbol: string, side: Side, quantity: real, price: real)
    requires Invariant(w)
    ensures Invariant(Next(w, Insert(trader, symbol, side, quantity, price)))
  {
    var u, ps := Next(w, Insert(trader, symbol, side, quantity, price)), w.store.positions;
    var p := u.store.positions[|ps|];
    assert u.store.positions == ps + [p];
    forall t | t in w.store.traders
      ensures Accounted(u.store.traders[t], ps + [p], w.closings, t)
    {
      InsertAccounted(w.store.traders[t], ps, p, w.closings, t);
    }
    InsertOwned(ps, p, w.closings);
  }

  lemma NextKeeps(w: World, e: Event)
    requires Invariant(w)
    ensures Invariant(Next(w, e))
  {
    match e
    case ListToClose(trader, symbol, price) =>
      MatchedIsOpen(w.store, trader, symbol, None);
      var m := Match(ListOpen(w.store.positions, trader), symbol, None);
      if m.Some? {
        PickKeeps(w, trader, m.value, Profit(m.value, price));
      }
    case ListToBuild(trader, f) =>
      MatchedIsOpen(w.store, trader, f.symbol, Some(FillSide(f)));
      var m := Match(ListOpen(w.store.positions, trader), f.symbol, Some(FillSide(f)));
      if m.Some? {
        PickKeeps(w, trader, m.value, f.pnl);
      }
    case Ask(i) =>
      if i < |w.closings| && w.closings[i].stage.Listed? {
        AskKeeps(w, i);
      }
    case Write(i) =>
      if i < |w.closings| && w.closings[i].stage.Asked? {
        WriteKeeps(w, i);
      }
    case Insert(trader, symbol, side, quantity, price) => InsertKeeps(w, trader, symbol, side, quantity, price);
  }

  lemma {:induction false} Reachable(s: State, events: seq<Event>)
    requires Mirror(s)
    ensures Invariant(Run(World(s, []), events))
  {
    if events == [] {
      assert forall t :: t in s.traders ==> MirrorOf(s, t);
    } else {
      Reachable(s, events[..|events| - 1]);
      NextKeeps(Run(World(s, []), events[..|events| - 1]), events[|events| - 1]);
    }
  }

  // ---------- what is left when every closing is over ----------

  predicate AllDone(w: World) { forall i :: 0 <= i < |w.closings| ==> w.closings[i].stage.Done? }

  // Two closings of this trader were of one position.
  ghost predicate Raced(w: World, trader: string) {
    exists i, j :: 0 <= i < j < |w.closings| && w.closings[i].trader == trader && w.closings[j].id == w.closings[i].id
  }

  lemma {:induction false} CountNone(cs: seq<Closing>, f: Closing -> bool)
    ensures Count(cs, f) == 0 <==> forall i :: 0 <= i < |cs| ==> !f(cs[i])
    ensures Count(cs, f) == 0 ==> SumPnl(cs, f) == 0.0
  {
    if cs != [] {
      var front := cs[..|cs| - 1];
      CountNone(front, f);
      assert forall i :: 0 <= i < |front| ==> front[i] == cs[i];
    }
  }

  /** However the critical sections of cycle and sync interleave: when every closing is over, the
      trade count exceeds the closed positions by exactly the closings that came too late, the
      profit by theirs, and the win rate is right. */
  lemma RacesAreCounted(s: State, events: seq<Event>, trader: string)
    requires Mirror(s)
    ensures var w := Run(World(s, []), events);
      AllDone(w) && trader in w.store.traders ==>
        var m, ps := w.store.traders[trader], w.store.positions;
        && m.tradeCount == ClosedCount(ps, trader) + Count(w.closings, Refused(trader))
        && m.totalPnl == ClosedPnl(ps, trader) + SumPnl(w.closings, Refused(trader))
        && m.winRate == WinRate(ps, trader)
  {
    Reachable(s, events);
    var w := Run(World(s, []), events);
    if AllDone(w) && trader in w.store.traders {
      assert Accounted(w.store.traders[trader], w.store.positions, w.closings, trader);
      CountNone(w.closings, Unwritten(trader));
    }
  }

  lemma RefusedIffRaced(w: World, trader: string)
    requires Owned(w.store.positions, w.closings) && AllDone(w)
    ensures Count(w.closings, Refused(trader)) == 0 <==> !Raced(w, trader)
  {
    var ps, cs := w.store.positions, w.closings;
    CountNone(cs, Refused(trader));
    if i :| 0 <= i < |cs| && Refused(trader)(cs[i]) {
      RefusedRaced(w, trader, i);
    } else if i, j :| 0 <= i < j < |cs| && cs[i].trader == trader && cs[j].id == cs[i].id {
      RacedRefused(w, trader, i, j);
    }
  }

  lemma RacedRefused(w: World, trader: string, i: nat, j: nat)
    requires Owned(w.store.positions, w.closings) && AllDone(w) && i < j < |w.closings|
    requires w.closings[i].trader == trader && w.closings[j].id == w.closings[i].id
    ensures Refused(trader)(w.closings[i]) || Refused(trader)(w.closings[j])
  {
    var ps, cs := w.store.positions, w.closings;
    assert OwnedBy(ps, cs, cs[i]) && OwnedBy(ps, cs, cs[j]);
    assert cs[i].stage.Done? && cs[j].stage.Done?;
  }

  lemma RefusedRaced(w: World, trader: string, i: nat)
    requires Owned(w.store.positions, w.closings) && i < |w.closings| && Refused(trader)(w.closings[i])
    ensures Raced(w, trader)
  {
    var ps, cs := w.store.positions, w.closings;
    assert OwnedBy(ps, cs, cs[i]);
    var j :| 0 <= j < |cs| && cs[j].id == cs[i].id && Won(cs[j]);
    assert OwnedBy(ps, cs, cs[j]);
    if i < j {
      assert cs[i].trader == trader && cs[j].id == cs[i].id;
    } else {
      assert j < i && cs[j].trader == trader && cs[i].id == cs[j].id;
    }
  }

  /** When every closing is over, the metrics mirror the positions if and only if no position was
      picked by two closings. */
  lemma MirrorIffNoRace(s: State, events: seq<Event>, trader: string)
    requires Mirror(s)
    ensures var w := Run(World(s, []), events);
      AllDone(w) && trader in w.store.traders ==> (MirrorOf(w.store, trader) <==> !Raced(w, trader))
  {
    Reachable(s, events);
    RacesAreCounted(s, events, trader);
    var w := Run(World(s, []), events);
    if AllDone(w) {
      RefusedIffRaced(w, trader);
      CountNone(w.closings, Refused(trader));
    }
  }
}
