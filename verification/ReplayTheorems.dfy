// Safety of a backtest run over every interleaving of its loop with the user's calls: the books,
// the schedule of windows, progress, termination, and what pausing and stopping really do.
module ReplayTheorems {
  import opened Ledger
  import opened LedgerTheorems
  import opened Metrics
  import opened Replay

  // ---------- what one step does to the book ----------

  lemma {:induction false} ExecuteFrame(cfg: Config, b: Book, symbol: string, ds: seq<Decision>, klines: seq<Kline>)
    requires cfg.leverage != 0
    ensures var c := Execute(cfg, b, symbol, ds, klines); c.points == b.points && c.peak >= b.peak
  {
    if ds != [] {
      ExecuteFrame(cfg, b, symbol, ds[..|ds| - 1], klines);
    }
  }

  lemma {:induction false} LiquidateFrame(b: Book, order: seq<string>)
    ensures var c := LiquidateAll(b, order); c.points == b.points && c.peak == b.peak
  {
    if order != [] {
      LiquidateFrame(b, order[..|order| - 1]);
    }
  }

  /** In every state that any interleaving reaches, equity, cash and positions are exactly what
      the trade log says. */
  lemma {:induction false} BooksBalance(p: Plan, events: seq<Event>)
    requires p.Valid()
    ensures Consistent(p.cfg, After(p, Initial(p), events).book)
  {
    if events != [] {
      var front, e := events[..|events| - 1], events[|events| - 1];
      BooksBalance(p, front);
      var r := After(p, Initial(p), front);
      if e.Loop? {
        match r.pc
        case AtSymbol(i) =>
          if i < |p.symbols| && e.feed.Some? {
            ExecuteKeepsBooks(p.cfg, r.book, p.symbols[i], e.feed.value.1, e.feed.value.0);
          }
        case AtGuards => LiquidateAllKeepsBooks(p.cfg, r.book, e.order);
        case _ =>
      }
    }
  }

  // ---------- the schedule ----------

  function At(p: Plan, k: int): int { p.start + k * p.step }

  ghost predicate Scheduled(p: Plan, r: Run) {
    var n := |r.book.points|;
    && (forall k :: 0 <= k < n ==> r.book.points[k].timestamp == At(p, k + 1) && At(p, k) < p.end)
    && (match r.pc
        case Waiting => r.windowStart == At(p, n) && r.cycle == n
        case Begun => r.windowStart == At(p, n) && r.cycle == n + 1
        case AtSymbol(_) => r.windowStart == At(p, n) < p.end && r.cycle == n + 1
        case AtGuards => r.windowStart == At(p, n - 1) && r.cycle == n && n >= 1
        case Gone => r.cycle == n || r.cycle == n + 1)
    && (r.status.Completed? ==> r.pc.Gone? && r.cycle == n + 1 && At(p, n) >= p.end)
    && (r.status.Liquidated? ==> r.pc.Gone?)
  }

  lemma NextScheduled(p: Plan, r: Run, e: Event)
    requires p.Valid() && Scheduled(p, r)
    ensures Scheduled(p, Next(p, r, e))
  {
    var n := |r.book.points|;
    assert At(p, n + 1) == At(p, n) + p.step && At(p, n - 1) + p.step == At(p, n);
    if e.Loop? && r.pc.AtSymbol? && r.pc.i < |p.symbols| && e.feed.Some? {
      ExecuteFrame(p.cfg, r.book, p.symbols[r.pc.i], e.feed.value.1, e.feed.value.0);
    }
    if e.Loop? && r.pc.AtGuards? {
      LiquidateFrame(r.book, e.order);
    }
  }

  lemma {:induction false} AlwaysScheduled(p: Plan, events: seq<Event>)
    requires p.Valid()
    ensures Scheduled(p, After(p, Initial(p), events))
  {
    if events != [] {
      AlwaysScheduled(p, events[..|events| - 1]);
      NextScheduled(p, After(p, Initial(p), events[..|events| - 1]), events[|events| - 1]);
    }
  }

  // Division rounding up: how many windows cover d.
  function Ceil(d: int, step: int): int
    requires step > 0
  {
    (d + step - 1) / step
  }

  lemma Cancel(a: int, b: int, s: int)
    requires s > 0
    ensures a * s < b * s ==> a < b
  {
    if a >= b {
      assert (a - b) * s >= 0;
    }
  }

  // Ceil is the only n with (n - 1) * step < d <= n * step.
  lemma CeilIs(d: int, step: int, n: int)
    requires step > 0
    ensures (n - 1) * step < d ==> n <= Ceil(d, step)
    ensures n * step >= d ==> n >= Ceil(d, step)
  {
    var c := Ceil(d, step);
    assert c * step <= d + step - 1 < c * step + step;
    assert (c - 1) * step == c * step - step;
    Cancel(n - 1, c, step);
    Cancel(c - 1, n, step);
  }

  lemma CompletedSchedule(p: Plan, r: Run)
    requires p.Valid() && Scheduled(p, r)
    ensures |r.book.points| <= Ceil(p.end - p.start, p.step)
    ensures r.status.Completed? ==> |r.book.points| == Ceil(p.end - p.start, p.step) && r.cycle == |r.book.points| + 1
  {
    var n := |r.book.points|;
    assert n > 0 ==> r.book.points[n - 1].timestamp == At(p, n);
    WindowCount(p, n);
  }

  lemma WindowCount(p: Plan, n: nat)
    requires p.Valid()
    ensures n == 0 || At(p, n - 1) < p.end ==> n <= Ceil(p.end - p.start, p.step)
    ensures At(p, n) >= p.end ==> n >= Ceil(p.end - p.start, p.step)
  {
    CeilIs(p.end - p.start, p.step, n);
    CeilIs(p.end - p.start, p.step, 0);
  }

  /** Whatever the interleaving: the k-th snapshot carries the end of the k-th window, there are
      never more windows than the range holds, and a completed run has replayed every window of
      the range, once each, and stopped one cycle later. */
  lemma WindowsInOrder(p: Plan, events: seq<Event>)
    requires p.Valid()
    ensures var r := After(p, Initial(p), events); var n := |r.book.points|;
      && (forall k :: 0 <= k < n ==> r.book.points[k].timestamp == At(p, k + 1))
      && n <= Ceil(p.end - p.start, p.step)
      && (r.status.Completed? ==> n == Ceil(p.end - p.start, p.step) && r.cycle == n + 1)
  {
    AlwaysScheduled(p, events);
    CompletedSchedule(p, After(p, Initial(p), events));
  }

  // ---------- progress ----------

  function Progress(p: Plan, cycle: nat): real
    requires p.step > 0
  {
    if p.TotalCycles() <= 0 then 0.0
    else
      var pct := cycle as real / p.TotalCycles() as real * 100.0;
      if pct > 100.0 then 100.0 else pct
  }

  lemma ProgressBounds(p: Plan, c: nat, d: nat)
    requires p.Valid() && c <= d
    ensures 0.0 <= Progress(p, c) <= Progress(p, d) <= 100.0
    ensures Progress(p, c) == 100.0 <==> c >= p.TotalCycles()
  {
    var t := p.TotalCycles() as real;
    assert p.TotalCycles() >= 1;
    var x, y := c as real / t, d as real / t;
    assert x * t == c as real && y * t == d as real;
    assert (y - x) * t >= 0.0;
    assert (x - 1.0) * t == c as real - t;
  }

  /** Until it reads 100 the progress is the share of the cycles in the whole steps of the range and
      one, in percent. */
  lemma ProgressIs(p: Plan, c: nat, whole: int)
    requires p.Valid() && whole * p.step <= p.end - p.start < whole * p.step + p.step
    ensures c <= whole + 1 ==> Progress(p, c) * (whole + 1) as real == c as real * 100.0
    ensures c > whole ==> Progress(p, c) == 100.0
  {
    WholeSteps(p.end - p.start, p.step, whole);
    ProgressBounds(p, c, c);
    var t := (whole + 1) as real;
    var x := c as real / t;
    assert x * t == c as real;
    assert x * 100.0 * t == (x * t) * 100.0;
  }

  lemma WholeSteps(d: int, step: int, whole: int)
    requires d > 0 && step > 0 && whole * step <= d < whole * step + step
    ensures whole == d / step && whole >= 0
  {
    var q, m := d / step, d % step;
    assert d == q * step + m;
    Cancel(whole, q + 1, step);
    Cancel(q, whole + 1, step);
    assert (q + 1) * step == q * step + step && (whole + 1) * step == whole * step + step;
  }

  /** Progress never falls, stays within 0 and 100, and reads 100 when the run completes. */
  lemma ProgressIsMonotone(p: Plan, events: seq<Event>, e: Event)
    requires p.Valid()
    ensures var r := After(p, Initial(p), events);
      && 0.0 <= Progress(p, r.cycle) <= Progress(p, Next(p, r, e).cycle) <= 100.0
      && (r.status.Completed? ==> Progress(p, r.cycle) == 100.0)
  {
    var r := After(p, Initial(p), events);
    ProgressBounds(p, r.cycle, Next(p, r, e).cycle);
    AlwaysScheduled(p, events);
    if r.status.Completed? {
      CompletedSchedule(p, r);
      FloorCeiling(p.end - p.start, p.step);
    }
  }

  lemma FloorCeiling(d: int, step: int)
    requires d > 0 && step > 0
    ensures Ceil(d, step) == if d % step == 0 then d / step else d / step + 1
  {
    var q, m := d / step, d % step;
    var c := if m == 0 then q else q + 1;
    assert d == q * step + m;
    assert (q + 1) * step == q * step + step && (q - 1) * step == q * step - step;
    CeilIs(d, step, c);
  }

  /** Because the total is computed with a floor, the last window is already shown as 100 percent
      while it is still being replayed exactly when the step does not divide the range. */
  lemma ProgressReadsFullEarly(p: Plan, events: seq<Event>)
    requires p.Valid()
    ensures var r := After(p, Initial(p), events);
      r.pc.AtSymbol? && r.windowStart + p.step >= p.end ==>
        (Progress(p, r.cycle) == 100.0 <==> (p.end - p.start) % p.step != 0)
  {
    var r := After(p, Initial(p), events);
    AlwaysScheduled(p, events);
    if r.pc.AtSymbol? && r.windowStart + p.step >= p.end {
      LastWindow(p, r);
      ProgressBounds(p, r.cycle, r.cycle);
      FloorCeiling(p.end - p.start, p.step);
    }
  }

  lemma LastWindow(p: Plan, r: Run)
    requires p.Valid() && Scheduled(p, r) && r.pc.AtSymbol? && r.windowStart + p.step >= p.end
    ensures r.cycle == Ceil(p.end - p.start, p.step)
  {
    assert At(p, r.cycle - 1) == p.start + (r.cycle - 1) * p.step;
    assert (r.cycle - 1) * p.step + p.step == r.cycle * p.step;
    CeilIs(p.end - p.start, p.step, r.cycle);
  }

  // ---------- termination ----------

  predicate OnlyLoop(events: seq<Event>) {
    forall i :: 0 <= i < |events| ==> events[i].Loop?
  }

  // Steps the loop still has to make if it is never interrupted.
  function StepsLeft(p: Plan, r: Run): int
    requires p.step > 0
  {
    var perWindow := |p.symbols| + 4;
    var windows := if r.windowStart < p.end then Ceil(p.end - r.windowStart, p.step) else 0;
    match r.pc
    case Waiting => windows * perWindow + 2
    case Begun => windows * perWindow + 1
    case AtSymbol(i) => windows * perWindow - i
    case AtGuards => windows * perWindow - |p.symbols| - 1
    case Gone => 0
  }

  // Between steps of an uninterrupted loop.
  ghost predicate Undisturbed(p: Plan, r: Run) {
    && (r.pc.AtSymbol? ==> r.pc.i <= |p.symbols|)
    && (r.pc.AtSymbol? || r.pc.AtGuards? ==> r.windowStart < p.end)
    && (r.pc.Gone? <==> r.status.Completed? || r.status.Liquidated?)
    && (!r.pc.Gone? ==> r.status.Running?)
  }

  lemma WindowsDecrease(p: Plan, w: int)
    requires p.step > 0 && w < p.end
    ensures Ceil(p.end - w, p.step) >= 1
    ensures w + p.step < p.end ==> Ceil(p.end - (w + p.step), p.step) == Ceil(p.end - w, p.step) - 1
  {
    CeilIs(p.end - w, p.step, 1);
    OneWindowLess(p.end - w, p.step);
    assert p.end - (w + p.step) == p.end - w - p.step;
  }

  lemma OneWindowLess(d: int, step: int)
    requires step > 0
    ensures Ceil(d - step, step) == Ceil(d, step) - 1
  {
    var c := Ceil(d, step);
    assert c * step <= d + step - 1 < c * step + step;
    assert (c - 1) * step == c * step - step && (c - 2) * step == c * step - 2 * step;
    CeilIs(d - step, step, c - 1);
  }

  lemma LoopProgress(p: Plan, r: Run, feed: Feed, order: seq<string>)
    requires p.Valid() && Undisturbed(p, r) && !r.pc.Gone?
    ensures var s := LoopStep(p, r, feed, order);
      Undisturbed(p, s) && 0 <= StepsLeft(p, s) < StepsLeft(p, r)
  {
    var perWindow := |p.symbols| + 4;
    if r.windowStart < p.end {
      WindowsDecrease(p, r.windowStart);
      var c := Ceil(p.end - r.windowStart, p.step);
      assert (c - 1) * perWindow == c * perWindow - perWindow;
      assert c * perWindow >= perWindow by { assert (c - 1) * perWindow >= 0; }
    }
  }

  /** An uninterrupted run always ends, completed or liquidated, within a number of steps fixed by
      the range and the number of symbols. */
  lemma {:induction false} UninterruptedRunEnds(p: Plan, events: seq<Event>)
    requires p.Valid() && OnlyLoop(events)
    ensures var r := After(p, Initial(p), events); var bound := Ceil(p.end - p.start, p.step) * (|p.symbols| + 4) + 2;
      && Undisturbed(p, r)
      && (r.pc.Gone? || 0 < StepsLeft(p, r) <= bound - |events|)
      && (|events| >= bound ==> r.status.Completed? || r.status.Liquidated?)
  {
    if events != [] {
      var front, e := events[..|events| - 1], events[|events| - 1];
      UninterruptedRunEnds(p, front);
      var r := After(p, Initial(p), front);
      if !r.pc.Gone? {
        LoopProgress(p, r, e.feed, e.order);
        var s := LoopStep(p, r, e.feed, e.order);
        if !s.pc.Gone? {
          StepsLeftPositive(p, s);
        }
      }
    }
  }

  lemma StepsLeftPositive(p: Plan, r: Run)
    requires p.Valid() && Undisturbed(p, r) && !r.pc.Gone?
    ensures StepsLeft(p, r) > 0
  {
    var perWindow := |p.symbols| + 4;
    if r.windowStart < p.end {
      WindowsDecrease(p, r.windowStart);
      var c := Ceil(p.end - r.windowStart, p.step);
      assert c * perWindow >= perWindow by { assert (c - 1) * perWindow >= 0; }
    }
  }

  // ---------- pausing and stopping ----------

  lemma {:induction false} AfterConcat(p: Plan, r: Run, a: seq<Event>, b: seq<Event>)
    requires p.Valid()
    ensures After(p, r, a + b) == After(p, After(p, r, a), b)
  {
    if b == [] {
      assert a + b == a;
    } else {
      AfterConcat(p, r, a, b[..|b| - 1]);
      assert (a + b)[..|a + b| - 1] == a + b[..|b| - 1];
    }
  }

  /** Once the loop goroutine is gone, no run of events, resumes included, brings it back: the
      book, the cycle and the window stay, and the run never completes. */
  lemma {:induction false} GoneIsForever(p: Plan, r: Run, events: seq<Event>)
    requires p.Valid() && r.pc.Gone?
    ensures var s := After(p, r, events);
      && s.pc.Gone? && s.book == r.book && s.cycle == r.cycle && s.windowStart == r.windowStart
      && (s.status.Completed? ==> r.status.Completed?)
  {
    if events != [] {
      GoneIsForever(p, r, events[..|events| - 1]);
      GoneStep(p, After(p, r, events[..|events| - 1]), events[|events| - 1]);
    }
  }

  lemma GoneStep(p: Plan, r: Run, e: Event)
    requires p.Valid() && r.pc.Gone?
    ensures var s := Next(p, r, e);
      && s.pc.Gone? && s.book == r.book && s.cycle == r.cycle && s.windowStart == r.windowStart
      && (s.status.Completed? ==> r.status.Completed?)
  {
  }

  // Where a paused loop that was at `r` has got to after n steps.
  ghost predicate PausedAfter(p: Plan, r: Run, s: Run, n: nat) {
    match r.pc
    case Waiting => s.pc.Waiting? && s.status.Paused?
    case Begun =>
      if n == 0 then s == r.(status := Paused)
      else if r.windowStart >= p.end then s.pc.Gone? && s.status.Completed?
      else s.status.Paused? && (if n == 1 then s.pc == AtSymbol(0) else s.pc.Gone?)
    case AtSymbol(i) =>
      if i >= |p.symbols| then PastSymbols(p, s)
      else s.status.Paused? && (if n == 0 then s.pc == r.pc else s.pc.Gone?)
    case AtGuards => PastSymbols(p, s)
    case Gone => true
  }

  ghost predicate PastSymbols(p: Plan, s: Run) {
    if s.pc.Gone? then s.status.Liquidated?
    else s.status.Paused? && !s.pc.Begun? && (s.pc.AtSymbol? ==> s.pc.i >= |p.symbols|)
  }

  lemma PausedStep(p: Plan, r: Run, s: Run, n: nat, e: Event)
    requires p.Valid() && !r.pc.Gone? && e.Loop? && PausedAfter(p, r, s, n)
    ensures PausedAfter(p, r, Next(p, s, e), n + 1)
  {
  }

  lemma {:induction false} PausedRun(p: Plan, r: Run, loops: seq<Event>)
    requires p.Valid() && !r.pc.Gone? && OnlyLoop(loops)
    ensures PausedAfter(p, r, After(p, r.(status := Paused), loops), |loops|)
  {
    if loops != [] {
      PausedRun(p, r, loops[..|loops| - 1]);
      PausedStep(p, r, After(p, r.(status := Paused), loops[..|loops| - 1]), |loops| - 1, loops[|loops| - 1]);
    }
  }

  // The run says running, but its loop is gone.
  ghost predicate Dead(s: Run) { s.status.Running? && s.pc.Gone? }

  // The run after a pause, some steps of the loop and a resume.
  ghost function Resumed(p: Plan, r: Run, loops: seq<Event>): Run
    requires p.Valid()
  {
    After(p, r, [Pause] + loops + [Resume])
  }

  /** Pausing and resuming leaves a run without its loop exactly when the loop came, while paused,
      to the status check before a symbol: one step if it stood there, two if it had just begun
      a window. */
  lemma PauseKillsTheLoopIff(p: Plan, r: Run, loops: seq<Event>)
    requires p.Valid() && r.status.Running? && !r.pc.Gone? && OnlyLoop(loops)
    ensures Dead(Resumed(p, r, loops)) <==>
      || (r.pc.AtSymbol? && r.pc.i < |p.symbols| && |loops| >= 1)
      || (r.pc.Begun? && r.windowStart < p.end && |loops| >= 2)
  {
    AfterAppend(p, r, [Pause] + loops, Resume);
    AfterConcat(p, r, [Pause], loops);
    assert [Pause] == [] + [Pause] && After(p, r, []) == r;
    AfterAppend(p, r, [], Pause);
    PausedRun(p, r, loops);
  }

  /** A pause can be undone by a resume, however long the loop runs in between, if and only if it
      does not fall between the beginning of a window and its last symbol. */
  lemma PauseIsSafeIff(p: Plan, r: Run)
    requires p.Valid() && r.status.Running? && !r.pc.Gone?
    ensures (forall loops :: OnlyLoop(loops) ==> !Dead(Resumed(p, r, loops)))
      <==> !(r.pc.AtSymbol? && r.pc.i < |p.symbols|) && !(r.pc.Begun? && r.windowStart < p.end)
  {
    var two := [Loop(None, []), Loop(None, [])];
    assert OnlyLoop(two);
    PauseKillsTheLoopIff(p, r, two);
    forall loops | OnlyLoop(loops)
      ensures Dead(Resumed(p, r, loops)) ==>
        (r.pc.AtSymbol? && r.pc.i < |p.symbols|) || (r.pc.Begun? && r.windowStart < p.end)
    {
      PauseKillsTheLoopIff(p, r, loops);
    }
  }

  // ---------- dead runs, over whole histories ----------

  // A loop step at the status check before a symbol, taken while the run is paused.
  ghost predicate Kills(p: Plan, r: Run, e: Event)
    requires p.Valid()
  {
    e.Loop? && r.status.Paused? && r.pc.AtSymbol? && r.pc.i < |p.symbols|
  }

  // Such a step was taken, and the run has not been stopped since.
  ghost predicate Killed(p: Plan, events: seq<Event>)
    requires p.Valid()
    decreases events
  {
    events != [] &&
    var front, e := events[..|events| - 1], events[|events| - 1];
    (Killed(p, front) || Kills(p, After(p, Initial(p), front), e)) && !e.Stop?
  }

  // And then it was resumed.
  ghost predicate Revived(p: Plan, events: seq<Event>)
    requires p.Valid()
    decreases events
  {
    events != [] &&
    var front := events[..|events| - 1];
    Revived(p, front) || (Killed(p, front) && events[|events| - 1].Resume?)
  }

  ghost predicate EverDead(p: Plan, events: seq<Event>)
    requires p.Valid()
    decreases events
  {
    Dead(After(p, Initial(p), events)) || (events != [] && EverDead(p, events[..|events| - 1]))
  }

  lemma {:induction false} KilledIsGone(p: Plan, events: seq<Event>)
    requires p.Valid()
    ensures var r := After(p, Initial(p), events);
      Killed(p, events) <==> r.pc.Gone? && (r.status.Running? || r.status.Paused?)
  {
    if events != [] {
      KilledIsGone(p, events[..|events| - 1]);
    }
  }

  /** Over any history of steps, pauses, resumes and stops: the run is ever shown as running without
      a loop if and only if the loop once took its check before a symbol while the run was paused,
      and a resume followed before any stop. */
  lemma {:induction false} EverDeadIff(p: Plan, events: seq<Event>)
    requires p.Valid()
    ensures EverDead(p, events) <==> Revived(p, events)
    ensures Dead(After(p, Initial(p), events)) ==> Revived(p, events)
  {
    if events != [] {
      var front := events[..|events| - 1];
      EverDeadIff(p, front);
      KilledIsGone(p, front);
      KilledIsGone(p, events);
      LastDead(p, front, events[|events| - 1]);
    }
  }

  lemma LastDead(p: Plan, front: seq<Event>, e: Event)
    requires p.Valid()
    requires Dead(After(p, Initial(p), front)) ==> Revived(p, front)
    requires var r := After(p, Initial(p), front);
      Killed(p, front) <==> r.pc.Gone? && (r.status.Running? || r.status.Paused?)
    ensures var s := Next(p, After(p, Initial(p), front), e);
      && (Dead(s) ==> Revived(p, front) || (Killed(p, front) && e.Resume?))
      && (Killed(p, front) && e.Resume? ==> Dead(s))
  {
  }

  // The loop is past its last status check and will finish the run whatever the status is.
  ghost predicate FinishPending(p: Plan, r: Run)
    requires p.Valid()
  {
    match r.pc
    case Begun => r.windowStart >= p.end
    case AtSymbol(i) =>
      var b := Snapshot(r.book, 0);
      i >= |p.symbols| && (GuardTrips(p.cfg, b) || b.equity <= 0.0)
    case AtGuards => GuardTrips(p.cfg, r.book) || r.book.equity <= 0.0
    case _ => false
  }

  lemma StoppedStep(p: Plan, r: Run, e: Event)
    requires p.Valid() && r.status.Stopped? && !FinishPending(p, r)
    ensures Next(p, r, e).status.Stopped? && !FinishPending(p, Next(p, r, e))
  {
  }

  lemma {:induction false} StoppedRun(p: Plan, r: Run, events: seq<Event>)
    requires p.Valid() && r.status.Stopped? && !FinishPending(p, r)
    ensures var s := After(p, r, events); s.status.Stopped? && !FinishPending(p, s)
  {
    if events != [] {
      StoppedRun(p, r, events[..|events| - 1]);
      StoppedStep(p, After(p, r, events[..|events| - 1]), events[|events| - 1]);
    }
  }

  ghost predicate StoppedForGood(p: Plan, s: Run)
    requires p.Valid()
  {
    forall events :: After(p, s, events).status.Stopped?
  }

  lemma PendingFinish(p: Plan, s: Run)
    requires p.Valid() && FinishPending(p, s)
    ensures !StoppedForGood(p, s)
  {
    var step := Loop(None, []);
    var one, two := [step], [step, step];
    assert two[..1] == one && one[..0] == [];
    assert After(p, s, one) == LoopStep(p, s, None, []);
    assert After(p, s, two) == LoopStep(p, After(p, s, one), None, []);
    assert !After(p, s, one).status.Stopped? || !After(p, s, two).status.Stopped?;
  }

  /** A stop is final exactly when the loop is not already past its last status check and about
      to finish the run: otherwise the finish overwrites it. */
  lemma StopIsFinalIff(p: Plan, r: Run)
    requires p.Valid() && (r.status.Running? || r.status.Paused?)
    ensures StoppedForGood(p, Next(p, r, Stop)) <==> !FinishPending(p, r)
  {
    var s := Next(p, r, Stop);
    assert FinishPending(p, s) <==> FinishPending(p, r);
    if FinishPending(p, s) {
      PendingFinish(p, s);
    } else {
      forall events
        ensures After(p, s, events).status.Stopped?
      {
        StoppedRun(p, s, events);
      }
    }
  }

  // ---------- drawdown ----------

  // Recorded drawdowns dominate every fall from an earlier point to this one.
  ghost predicate Recorded(ps: seq<Point>, peak: real) {
    && peak > 0.0
    && (forall k :: 0 <= k < |ps| ==> ps[k].equity <= peak)
    && (forall i, j :: 0 <= i <= j < |ps| && ps[i].equity > 0.0 && ps[j].equity >= 0.0 ==>
          Drop(ps[i].equity, ps[j].equity) <= ps[j].drawdown)
  }

  predicate AllPositive(ps: seq<Point>) {
    forall k :: 0 <= k < |ps| ==> ps[k].equity > 0.0
  }

  ghost predicate Watched(r: Run) {
    var ps := r.book.points;
    && Recorded(ps, r.book.peak)
    && (r.pc.Waiting? || r.pc.Begun? || r.pc.AtSymbol? || r.status.Completed? ==> AllPositive(ps))
    && (r.pc.AtGuards? ==> ps != [] && AllPositive(ps[..|ps| - 1]) && ps[|ps| - 1].equity >= r.book.equity)
  }

  lemma SnapshotRecorded(b: Book, timestamp: int)
    requires Recorded(b.points, b.peak)
    ensures var c := Snapshot(b, timestamp); Recorded(c.points, c.peak)
  {
    var c, total := Snapshot(b, timestamp), Marked(b);
    var ps, n := c.points, |b.points|;
    forall i, j | 0 <= i <= j < |ps| && ps[i].equity > 0.0 && ps[j].equity >= 0.0
      ensures Drop(ps[i].equity, ps[j].equity) <= ps[j].drawdown
    {
      if j < n {
        assert ps[i] == b.points[i] && ps[j] == b.points[j];
      } else if i == n {
        DropSign(total, total);
        DropSign(b.peak, total);
      } else {
        assert ps[i] == b.points[i];
        DropMonotone(ps[i].equity, b.peak, total);
        DropSign(b.peak, total);
      }
    }
  }

  lemma RecordedUpTo(ps: seq<Point>, peak: real, higher: real)
    requires Recorded(ps, peak) && peak <= higher
    ensures Recorded(ps, higher)
  {
  }

  // Every position is marked above its entry, so the marked equity is never below the equity.
  lemma MarkedAtLeastEquity(cfg: Config, b: Book)
    requires cfg.Valid() && Consistent(cfg, b)
    ensures Marked(b) >= b.equity
  {
    forall k | k in b.positions
      ensures FloatingGain(b.positions[k]) >= 0.0
    {
      HoldingsPositive(cfg, b.trades, k);
      var pos := b.positions[k];
      assert pos.entry * 1.01 - pos.entry >= 0.0;
    }
    TotalNonNegative(b.positions, FloatingGain);
  }

  lemma SnapshotWatched(p: Plan, r: Run, feed: Feed, order: seq<string>)
    requires p.Valid() && Watched(r) && Consistent(p.cfg, r.book) && Scheduled(p, r)
    requires r.pc.AtSymbol? && r.pc.i >= |p.symbols|
    ensures Watched(LoopStep(p, r, feed, order))
  {
    SnapshotRecorded(r.book, r.windowStart + p.step);
    MarkedAtLeastEquity(p.cfg, r.book);
    assert Snapshot(r.book, r.windowStart + p.step).points[..|r.book.points|] == r.book.points;
  }

  lemma ExecuteWatched(p: Plan, r: Run, feed: Feed, order: seq<string>)
    requires p.Valid() && Watched(r) && Scheduled(p, r)
    requires r.pc.AtSymbol? && r.pc.i < |p.symbols|
    ensures Watched(LoopStep(p, r, feed, order))
  {
    if feed.Some? {
      var b := Execute(p.cfg, r.book, p.symbols[r.pc.i], feed.value.1, feed.value.0);
      assert b.points == r.book.points && b.peak >= r.book.peak by {
        ExecuteFrame(p.cfg, r.book, p.symbols[r.pc.i], feed.value.1, feed.value.0);
      }
      RecordedUpTo(r.book.points, r.book.peak, b.peak);
    }
  }

  lemma GuardsWatched(p: Plan, r: Run, feed: Feed, order: seq<string>)
    requires p.Valid() && Watched(r) && Scheduled(p, r) && r.pc.AtGuards?
    ensures Watched(LoopStep(p, r, feed, order))
  {
    LiquidateFrame(r.book, order);
    var s, ps := LoopStep(p, r, feed, order), r.book.points;
    assert s.book.points == ps && s.book.peak == r.book.peak;
    assert forall k :: 0 <= k < |ps| - 1 ==> ps[k] == ps[..|ps| - 1][k];
  }

  lemma NextWatched(p: Plan, r: Run, e: Event)
    requires p.Valid() && Watched(r) && Consistent(p.cfg, r.book) && Scheduled(p, r)
    ensures Watched(Next(p, r, e))
  {
    var s := Next(p, r, e);
    if !e.Loop? || !(r.pc.AtSymbol? || r.pc.AtGuards?) {
      assert s.book == r.book && (s.status.Completed? ==> r.status.Completed? || r.pc.Begun?);
      assert s.pc == r.pc || s.pc.Gone? || r.pc.Waiting? || r.pc.Begun?;
    } else if r.pc.AtGuards? {
      GuardsWatched(p, r, e.feed, e.order);
    } else if r.pc.i < |p.symbols| {
      ExecuteWatched(p, r, e.feed, e.order);
    } else {
      SnapshotWatched(p, r, e.feed, e.order);
    }
  }

  lemma {:induction false} AlwaysWatched(p: Plan, events: seq<Event>)
    requires p.Valid()
    ensures Watched(After(p, Initial(p), events))
  {
    if events != [] {
      var front := events[..|events| - 1];
      AlwaysWatched(p, front);
      BooksBalance(p, front);
      AlwaysScheduled(p, front);
      NextWatched(p, After(p, Initial(p), front), events[|events| - 1]);
    }
  }

  // ---------- runs without trades ----------

  lemma {:induction false} ExecuteLogs(cfg: Config, b: Book, symbol: string, ds: seq<Decision>, klines: seq<Kline>)
    requires cfg.leverage != 0
    ensures b.trades <= Execute(cfg, b, symbol, ds, klines).trades
  {
    if ds != [] {
      ExecuteLogs(cfg, b, symbol, ds[..|ds| - 1], klines);
    }
  }

  lemma {:induction false} LiquidateLogs(b: Book, order: seq<string>)
    ensures b.trades <= LiquidateAll(b, order).trades
  {
    if order != [] {
      LiquidateLogs(b, order[..|order| - 1]);
    }
  }

  // Without a trade, every recorded equity is the initial balance.
  ghost predicate FlatUntilTraded(p: Plan, b: Book) {
    b.trades == [] ==> forall k :: 0 <= k < |b.points| ==> b.points[k].equity == p.cfg.initial
  }

  lemma UntradedSnapshot(p: Plan, b: Book, timestamp: int)
    requires p.Valid() && Consistent(p.cfg, b) && FlatUntilTraded(p, b)
    ensures FlatUntilTraded(p, Snapshot(b, timestamp))
  {
  }

  lemma NextFlat(p: Plan, r: Run, e: Event)
    requires p.Valid() && Consistent(p.cfg, r.book) && FlatUntilTraded(p, r.book)
    ensures FlatUntilTraded(p, Next(p, r, e).book)
  {
    if e.Loop? && r.pc.AtSymbol? {
      if r.pc.i >= |p.symbols| {
        UntradedSnapshot(p, r.book, r.windowStart + p.step);
      } else if e.feed.Some? {
        ExecuteLogs(p.cfg, r.book, p.symbols[r.pc.i], e.feed.value.1, e.feed.value.0);
        ExecuteFrame(p.cfg, r.book, p.symbols[r.pc.i], e.feed.value.1, e.feed.value.0);
      }
    }
    if e.Loop? && r.pc.AtGuards? {
      LiquidateLogs(r.book, e.order);
      LiquidateFrame(r.book, e.order);
    }
  }

  lemma {:induction false} AlwaysFlat(p: Plan, events: seq<Event>)
    requires p.Valid()
    ensures FlatUntilTraded(p, After(p, Initial(p), events).book)
  {
    if events != [] {
      var front := events[..|events| - 1];
      AlwaysFlat(p, front);
      BooksBalance(p, front);
      NextFlat(p, After(p, Initial(p), front), events[|events| - 1]);
    }
  }

  lemma ConstantSeries(es: seq<real>, c: real)
    requires c > 0.0 && forall k :: 0 <= k < |es| ==> es[k] == c
    ensures OnePass(es) == 0.0
  {
    DropSign(c, c);
    assert PairsWithin(es, 0.0);
    OnePassIsAllPairs(es, 0.0);
    OnePassNonNegative(es);
  }

  /** Metrics are only shown for completed runs, and those were never liquidated and end above
      zero: the liquidated flag among the metrics is never set. */
  lemma {:induction false} CompletedIsSolvent(p: Plan, events: seq<Event>)
    requires p.Valid()
    ensures var r := After(p, Initial(p), events);
      && (r.status.Completed? ==> !r.liquidated && r.book.equity > 0.0)
      && (r.liquidated ==> r.pc.Gone?) && (r.pc.Waiting? || r.pc.Begun? ==> r.book.equity > 0.0)
  {
    if events != [] {
      CompletedIsSolvent(p, events[..|events| - 1]);
    }
  }

  function Reported(p: Plan, b: Book): real {
    ReportOf(p.cfg.initial, b.equity, b.trades, b.points).maxDrawdownPct
  }

  /** For every completed run the reported maximal drawdown is the largest drop over all ordered
      pairs of its equity points, also where the report stops early for want of trades, and no
      larger than the largest drawdown recorded on the way. */
  lemma CompletedRunDrawdown(p: Plan, events: seq<Event>, bound: real)
    requires p.Valid() && bound >= 0.0
    ensures var r := After(p, Initial(p), events); var es := Equities(r.book.points);
      r.status.Completed? ==>
        && NonNegative(es)
        && (Reported(p, r.book) <= bound <==> PairsWithin(es, bound))
        && ((forall k :: 0 <= k < |es| ==> r.book.points[k].drawdown <= bound) ==> Reported(p, r.book) <= bound)
  {
    var r := After(p, Initial(p), events);
    var es := Equities(r.book.points);
    AlwaysWatched(p, events);
    AlwaysFlat(p, events);
    if r.status.Completed? {
      assert forall k :: 0 <= k < |es| ==> es[k] == r.book.points[k].equity;
      OnePassIsAllPairs(es, bound);
      if r.book.trades == [] {
        ConstantSeries(es, p.cfg.initial);
      }
    }
  }
}
