// The number of open positions while a trading cycle executes and the fill sync runs beside it:
// one step per critical section that inserts or closes a position
// (internal/trader/engine/engine.go and ordersync.go, internal/store/store.go).
module Cycles {
  import opened Trading
  import opened Risk

  // An execution inserts the position it opened, the builder back-fills one, or either closes one.
  datatype Section =
    | Opened(trader: string, d: Decision, price: real)
    | Backfilled(trader: string, f: Fill)
    | Closed(id: nat, pnl: real)

  function OpenSide(d: Decision): Side { if d.action.OpenLong? then Long else Short }

  function Apply(s: State, x: Section): State {
    match x
    case Opened(trader, d, price) => AddPosition(s, trader, d.symbol, OpenSide(d), d.quantity, price)
    case Backfilled(trader, f) => AddPosition(s, trader, f.symbol, FillSide(f), f.quantity, f.price)
    case Closed(id, pnl) => s.(positions := ClosePosition(s.positions, id, pnl))
  }

  function Run(s: State, xs: seq<Section>): State {
    if xs == [] then s else Apply(Run(s, xs[..|xs| - 1]), xs[|xs| - 1])
  }

  /** The decisions of this trader whose positions were inserted. */
  function OpenedBy(xs: seq<Section>, trader: string): seq<Decision> {
    if xs == [] then []
    else
      var rest, x := OpenedBy(xs[..|xs| - 1], trader), xs[|xs| - 1];
      if x.Opened? && x.trader == trader then rest + [x.d] else rest
  }

  function Backfills(xs: seq<Section>, trader: string): nat {
    if xs == [] then 0
    else
      var x := xs[|xs| - 1];
      Backfills(xs[..|xs| - 1], trader) + if x.Backfilled? && x.trader == trader then 1 else 0
  }

  predicate Closes(s: State, x: Section, trader: string) {
    x.Closed? && x.id < |s.positions| && !s.positions[x.id].closed && s.positions[x.id].trader == trader
  }

  // The closings that found the position open.
  function Closings(s: State, xs: seq<Section>, trader: string): nat {
    if xs == [] then 0
    else
      var front := xs[..|xs| - 1];
      Closings(s, front, trader) + if Closes(Run(s, front), xs[|xs| - 1], trader) then 1 else 0
  }

  lemma {:induction false} ClosingRemovesOne(ps: seq<Position>, id: nat, pnl: real, trader: string)
    ensures |ListOpen(ClosePosition(ps, id, pnl), trader)|
      == |ListOpen(ps, trader)| - if id < |ps| && !ps[id].closed && ps[id].trader == trader then 1 else 0
  {
    if id < |ps| && !ps[id].closed {
      var n := |ps| - 1;
      var qs := ClosePosition(ps, id, pnl);
      if id < n {
        ClosingRemovesOne(ps[..n], id, pnl, trader);
        assert qs[..n] == ClosePosition(ps[..n], id, pnl);
      } else {
        assert qs[..n] == ps[..n];
      }
    }
  }

  /** In any order of the sections the open positions are those at the start, what was opened and
      what was back-filled, less what was closed. */
  lemma {:induction false} OpenCountIs(s: State, xs: seq<Section>, trader: string)
    ensures OpenCount(Run(s, xs), trader) + Closings(s, xs, trader)
      == OpenCount(s, trader) + |OpenedBy(xs, trader)| + Backfills(xs, trader)
  {
    if xs != [] {
      var front, x := xs[..|xs| - 1], xs[|xs| - 1];
      OpenCountIs(s, front, trader);
      var r := Run(s, front);
      if x.Closed? {
        ClosingRemovesOne(r.positions, x.id, x.pnl, trader);
      } else {
        assert Apply(r, x).positions[..|r.positions|] == r.positions;
      }
    }
  }

  // Each of these decisions is one of the plan's, in the plan's order.
  predicate Within(ds: seq<Decision>, plan: seq<Decision>) {
    ds == [] ||
    (plan != [] &&
     ((ds[|ds| - 1] == plan[|plan| - 1] && Within(ds[..|ds| - 1], plan[..|plan| - 1])) || Within(ds, plan[..|plan| - 1])))
  }

  lemma {:induction false} WithinOpens(ds: seq<Decision>, plan: seq<Decision>)
    requires Within(ds, plan)
    ensures CountOpens(ds) <= CountOpens(plan)
    decreases plan
  {
    if ds != [] {
      if ds[|ds| - 1] == plan[|plan| - 1] && Within(ds[..|ds| - 1], plan[..|plan| - 1]) {
        WithinOpens(ds[..|ds| - 1], plan[..|plan| - 1]);
      } else {
        WithinOpens(ds, plan[..|plan| - 1]);
      }
    }
  }

  lemma {:induction false} AllOpens(ds: seq<Decision>)
    requires forall i :: 0 <= i < |ds| ==> Opens(ds[i])
    ensures CountOpens(ds) == |ds|
  {
    if ds != [] {
      AllOpens(ds[..|ds| - 1]);
    }
  }

  // Up to now the cycle has executed openings of its plan, in order; failed ones are left out.
  ghost predicate Follows(xs: seq<Section>, trader: string, plan: seq<Decision>) {
    && Within(OpenedBy(xs, trader), plan)
    && forall i :: 0 <= i < |OpenedBy(xs, trader)| ==> Opens(OpenedBy(xs, trader)[i])
  }

  /** At every point of a cycle, however the sections of the fill sync, of other closings and of
      other traders fall in between: the trader has at most as many open positions as the
      configured maximum, or as when the filter counted them if that was more, and the back-fills
      so far. */
  lemma OpenCountWithSync(rc: Config, balance: real, s: State, trader: string, actions: seq<Decision>, xs: seq<Section>)
    requires Follows(xs, trader, Plan(rc, balance, OpenCount(s, trader), actions))
    ensures var start := OpenCount(s, trader);
      OpenCount(Run(s, xs), trader) <= (if start > MaxOpen(rc) then start else MaxOpen(rc)) + Backfills(xs, trader)
  {
    var plan := Plan(rc, balance, OpenCount(s, trader), actions);
    OpenCountIs(s, xs, trader);
    AllOpens(OpenedBy(xs, trader));
    WithinOpens(OpenedBy(xs, trader), plan);
    PlanOpens(rc, balance, OpenCount(s, trader), actions);
  }

  /** The back-fills cannot be left out of the bound: with a maximum of one, a back-fill between
      filter and execution of an admissible opening makes two open positions. */
  lemma BackfillExceedsMaximum(rc: Config, balance: real, s: State, trader: string, d: Decision, price: real, f: Fill)
    requires MaxOpen(rc) == 1 && OpenCount(s, trader) == 0 && Opens(d) && Admissible(rc, balance, d)
    ensures var xs := [Backfilled(trader, f), Opened(trader, Clamp(rc, d), price)];
      Follows(xs, trader, Plan(rc, balance, 0, [d])) && OpenCount(Run(s, xs), trader) == 2
  {
    PlanOfOne(rc, balance, d);
    TwoInserted(s, trader, Clamp(rc, d), price, f);
  }

  lemma ChosenOne(rc: Config, balance: real, d: Decision, ds: seq<Decision>)
    requires ds == [d] && Selected(rc, balance, 1, [], d) && Opens(d)
    ensures Chosen(rc, balance, 1, ds) == [Clamp(rc, d)]
  {
    assert ds[..|ds| - 1] == [];
    assert Chosen(rc, balance, 1, []) == [];
  }

  lemma OnlyOne(c: Decision, ds: seq<Decision>)
    requires ds == [c] && Opens(c)
    ensures Only(ds, true) == [] && Only(ds, false) == [c]
  {
    assert ds[..|ds| - 1] == [];
  }

  lemma PlanOfOne(rc: Config, balance: real, d: Decision)
    requires MaxOpen(rc) == 1 && Opens(d) && Admissible(rc, balance, d)
    ensures Plan(rc, balance, 0, [d]) == [Clamp(rc, d)]
  {
    ChosenOne(rc, balance, d, [d]);
    OnlyOne(Clamp(rc, d), [Clamp(rc, d)]);
  }

  lemma TwoInserted(s: State, trader: string, d: Decision, price: real, f: Fill)
    requires OpenCount(s, trader) == 0 && Opens(d)
    ensures Follows([Backfilled(trader, f), Opened(trader, d, price)], trader, [d])
    ensures OpenCount(Run(s, [Backfilled(trader, f), Opened(trader, d, price)]), trader) == 2
  {
    var b, o, xs := Backfilled(trader, f), Opened(trader, d, price), [Backfilled(trader, f), Opened(trader, d, price)];
    assert xs[..1] == [b] && [b][..0] == [];
    var one := Apply(s, b);
    assert Run(s, []) == s && Run(s, [b]) == one && Run(s, xs) == Apply(one, o);
    assert one.positions[..|s.positions|] == s.positions;
    assert Apply(one, o).positions[..|one.positions|] == one.positions;
    assert OpenCount(one, trader) == 1 && OpenCount(Apply(one, o), trader) == 2;
    assert OpenedBy([], trader) == [] && OpenedBy([b], trader) == [] && OpenedBy(xs, trader) == [d];
    WithinItself([d]);
  }

  lemma {:induction false} WithinItself(ds: seq<Decision>)
    ensures Within(ds, ds)
  {
    if ds != [] {
      WithinItself(ds[..|ds| - 1]);
    }
  }

  // ---------- the operations as sections ----------

  /** An execution and a builder run are at most one such section each. */
  lemma ExecutionIsSection(s: State, trader: string, d: Decision, result: Option<Result>) returns (xs: seq<Section>)
    ensures Run(s, xs).positions == Execute(s, trader, d.action, d.symbol, d.quantity, result).positions
    ensures |xs| <= 1 && Backfills(xs, trader) == 0
    ensures OpenedBy(xs, trader) == if Opens(d) && result.Some? then [d] else []
  {
    xs := [];
    if result.Some? {
      var m := Match(ListOpen(s.positions, trader), d.symbol, None);
      if Opens(d) {
        xs := [Opened(trader, d, result.value.price)];
      } else if Risk.Closes(d) && m.Some? {
        xs := [Section.Closed(m.value.id, Profit(m.value, result.value.price))];
      }
    }
    assert xs != [] ==> xs[..0] == [] && Run(s, xs) == Apply(s, xs[0]);
  }

  lemma BuilderIsSection(s: State, trader: string, f: Fill) returns (xs: seq<Section>)
    ensures Run(s, xs).positions == Build(s, trader, f).positions
    ensures |xs| <= 1 && OpenedBy(xs, trader) == []
    ensures Backfills(xs, trader) == |Build(s, trader, f).positions| - |s.positions|
  {
    xs := [];
    var open := ListOpen(s.positions, trader);
    var m := Match(open, f.symbol, Some(FillSide(f)));
    if m.Some? && f.quantity >= m.value.quantity - 0.000000001 {
      xs := [Section.Closed(m.value.id, f.pnl)];
    } else if m.None? && Match(open, f.symbol, None).None? {
      xs := [Backfilled(trader, f)];
    }
    assert xs != [] ==> xs[..0] == [] && Run(s, xs) == Apply(s, xs[0]);
  }
}
