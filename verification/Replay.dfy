// One backtest run (internal/backtest/engine.go and replay.go): its status, its replay loop cut
// at the lock boundaries, and the user's pause, resume and stop in between.
module Replay {
  import opened Ledger

  datatype Option<T> = None | Some(value: T)

  datatype Plan = Plan(cfg: Config, symbols: seq<string>, start: int, end: int, step: int) {
    predicate Valid() {
      cfg.Valid() && symbols != [] && start < end && step > 0
    }

    // Start computes this with a floor division.
    function TotalCycles(): int
      requires step > 0
    {
      (end - start) / step + 1
    }
  }

  // ---------- the run ----------

  datatype Status = Running | Paused | Stopped | Completed | Liquidated | Failed

  // Where the loop goroutine is: waiting for a tick, past the locked status check, before the
  // i-th symbol (or, after the last, the snapshot), at the guards, or gone.
  datatype Pc = Waiting | Begun | AtSymbol(i: nat) | AtGuards | Gone

  datatype Run = Run(status: Status, cycle: nat, windowStart: int, pc: Pc, book: Book, liquidated: bool)

  function Initial(p: Plan): Run {
    Run(Running, 0, p.start, Waiting, Empty(p.cfg), false)
  }

  // What the market and the model deliver for one symbol; None when a fetch fails or there is
  // no usable model.
  type Feed = Option<(seq<Kline>, seq<Decision>)>

  // `order` is the map order in which a liquidation meets the positions.
  datatype Event = Loop(feed: Feed, order: seq<string>) | Pause | Resume | Stop

  function CurrentDrawdown(b: Book): real {
    if b.peak <= 0.0 || b.peak <= b.equity then 0.0 else (b.peak - b.equity) / b.peak * 100.0
  }

  predicate GuardTrips(cfg: Config, b: Book) {
    b.peak > cfg.initial * 1.05 && CurrentDrawdown(b) >= 40.0
  }

  ghost function LoopStep(p: Plan, r: Run, feed: Feed, order: seq<string>): Run
    requires p.Valid()
  {
    match r.pc
    case Waiting =>
      if r.status.Paused? then r
      else if !r.status.Running? then r.(pc := Gone)
      else r.(cycle := r.cycle + 1, pc := Begun)
    case Begun =>
      if r.windowStart >= p.end then r.(status := Completed, pc := Gone) else r.(pc := AtSymbol(0))
    case AtSymbol(i) =>
      if i < |p.symbols| then
        if !r.status.Running? then r.(pc := Gone)
        else if feed.None? then r.(pc := AtSymbol(i + 1))
        else r.(book := Execute(p.cfg, r.book, p.symbols[i], feed.value.1, feed.value.0), pc := AtSymbol(i + 1))
      else r.(book := Snapshot(r.book, r.windowStart + p.step), pc := AtGuards)
    case AtGuards =>
      if GuardTrips(p.cfg, r.book) then
        r.(book := LiquidateAll(r.book, order), liquidated := true, status := Liquidated, pc := Gone)
      else if r.book.equity <= 0.0 then r.(status := Liquidated, pc := Gone)
      else r.(windowStart := r.windowStart + p.step, pc := Waiting)
    case Gone => r
  }

  ghost function Next(p: Plan, r: Run, e: Event): Run
    requires p.Valid()
  {
    match e
    case Loop(feed, order) => LoopStep(p, r, feed, order)
    case Pause => if r.status.Running? then r.(status := Paused) else r
    case Resume => if r.status.Paused? then r.(status := Running) else r
    case Stop => if r.status.Completed? || r.status.Stopped? || r.status.Failed? then r else r.(status := Stopped)
  }

  ghost function After(p: Plan, r: Run, events: seq<Event>): Run
    requires p.Valid()
    decreases events
  {
    if events == [] then r else Next(p, After(p, r, events[..|events| - 1]), events[|events| - 1])
  }

  lemma AfterAppend(p: Plan, r: Run, events: seq<Event>, e: Event)
    requires p.Valid()
    ensures After(p, r, events + [e]) == Next(p, After(p, r, events), e)
  {
    assert (events + [e])[..|events|] == events;
  }

  // Every step before a symbol was given what the market delivers for that cycle and symbol, and
  // every liquidation met all positions.
  ghost predicate Fed(p: Plan, market: (nat, nat) -> Feed, events: seq<Event>)
    requires p.Valid()
    decreases events
  {
    events == [] ||
    (Fed(p, market, events[..|events| - 1]) &&
     Served(p, market, After(p, Initial(p), events[..|events| - 1]), events[|events| - 1]))
  }

  ghost predicate Served(p: Plan, market: (nat, nat) -> Feed, r: Run, e: Event) {
    && e.Loop?
    && (r.pc.AtSymbol? && r.pc.i < |p.symbols| ==> e.feed == market(r.cycle, r.pc.i))
    && (r.pc.AtGuards? && GuardTrips(p.cfg, r.book) ==> forall k :: k in r.book.positions ==> k in e.order)
  }
}
