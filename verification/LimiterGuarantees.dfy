// What the limiter's answers guarantee a caller: the sliding window is never overfull, and
// Retry-After is exact, each with the exact condition on the windows.
module LimiterGuarantees {
  import opened Limiter
  import opened LimiterTheorems

  // ---------- what the answers guarantee ----------

  function InInterval(ts: seq<int>, lo: int, hi: int): nat {
    if ts == [] then 0
    else InInterval(ts[..|ts| - 1], lo, hi) + if lo <= ts[|ts| - 1] <= hi then 1 else 0
  }

  // Any limit + 1 consecutive admissions span more than the window.
  ghost predicate Spaced(ts: seq<int>, limit: int, window: nat) {
    forall i, j :: 0 <= i < |ts| && j == i + limit && 0 <= j < |ts| ==> ts[i] + window < ts[j]
  }

  lemma {:induction false} CountFrom(ts: seq<int>, n: nat, lo: int, hi: int)
    requires n <= |ts| && forall i :: 0 <= i < n ==> ts[i] < lo
    ensures InInterval(ts, lo, hi) <= |ts| - n
  {
    if ts != [] {
      CountFrom(ts[..|ts| - 1], if n == |ts| then n - 1 else n, lo, hi);
    }
  }

  lemma {:induction false} SpacedCount(ts: seq<int>, limit: int, window: nat, lo: int)
    requires Ascending(ts) && Spaced(ts, limit, window) && limit >= 1
    ensures InInterval(ts, lo, lo + window) <= limit
  {
    if ts != [] {
      var n := |ts| - 1;
      SpacedCount(ts[..n], limit, window, lo);
      if n >= limit && ts[n] <= lo + window {
        assert ts[n - limit] + window < ts[n];
        assert forall i :: 0 <= i <= n - limit ==> ts[i] <= ts[n - limit];
        CountFrom(ts, n - limit + 1, lo, lo + window);
      } else if n < limit {
        CountFrom(ts, 0, lo, lo + window);
      }
    }
  }

  lemma {:induction false} KeptCount(ts: seq<int>, now: int, start: int)
    requires Past(ts, now)
    ensures |Kept(ts, start)| == InInterval(ts, start, now)
  {
    if ts != [] {
      var front := ts[..|ts| - 1];
      assert Past(front, now) by { assert front != [] ==> front[|front| - 1] <= ts[|ts| - 1]; }
      KeptCount(front, now, start);
    }
  }

  // An admission keeps the log spaced.
  lemma SpacedAppend(ts: seq<int>, limit: int, window: nat, now: int)
    requires Past(ts, now) && Spaced(ts, limit, window) && limit >= 1
    requires |Kept(ts, now - window)| < limit
    ensures Spaced(ts + [now], limit, window)
  {
    var n := KeptSuffix(ts, now - window);
    var us := ts + [now];
    forall i, j | 0 <= i < |us| && j == i + limit && 0 <= j < |us|
      ensures us[i] + window < us[j]
    {
      if j == |ts| {
        assert i < n && us[i] == ts[i];
      } else {
        assert us[i] == ts[i] && us[j] == ts[j];
      }
    }
  }

  ghost predicate Orderly(p: Policy, h: Log, now: int) {
    forall k :: Past(Get(h, k), now) && Spaced(Get(h, k), p.limit(k), p.window(k))
  }

  lemma OrderlyStep(p: Policy, h: Log, c: Call, before: int)
    requires Orderly(p, h, before) && before <= c.now
    ensures Orderly(p, RefStep(p, h, c), c.now)
  {
    forall k
      ensures Past(Get(RefStep(p, h, c), k), c.now) && Spaced(Get(RefStep(p, h, c), k), p.limit(k), p.window(k))
    {
      var ts := Get(h, k);
      assert Past(ts, before) && Spaced(ts, p.limit(k), p.window(k));
      RefStepAt(p, h, c, k);
      PastAppend(ts, before, c.now);
      if k == c.key && RefAnswer(p, h, c).allowed {
        SpacedAppend(ts, p.limit(k), p.window(k), c.now);
      }
    }
  }

  lemma {:induction false} OrderlyRun(p: Policy, h: Log, calls: seq<Call>, before: int, now: int)
    requires Orderly(p, h, before) && Chronological(calls, before)
    requires before <= now && forall i :: 0 <= i < |calls| ==> calls[i].now <= now
    ensures Orderly(p, Admissions(p, h, calls), now)
    decreases calls
  {
    if calls == [] {
      forall k
        ensures Past(Get(h, k), now) && Spaced(Get(h, k), p.limit(k), p.window(k))
      {
        assert Past(Get(h, k), before);
        PastAppend(Get(h, k), before, now);
      }
    } else {
      OrderlyStep(p, h, calls[0], before);
      OrderlyRun(p, RefStep(p, h, calls[0]), calls[1..], calls[0].now, now);
    }
  }

  // The times at which the answers let `key` through.
  function Admitted(calls: seq<Call>, answers: seq<Answer>, key: string): seq<int>
    requires |calls| == |answers|
  {
    if calls == [] then []
    else
      var rest := Admitted(calls[1..], answers[1..], key);
      if calls[0].key == key && answers[0].allowed then [calls[0].now] + rest else rest
  }

  lemma {:induction false} AdmittedIsLog(p: Policy, h: Log, calls: seq<Call>, key: string)
    ensures |RefRun(p, h, calls)| == |calls|
    ensures Get(Admissions(p, h, calls), key) == Get(h, key) + Admitted(calls, RefRun(p, h, calls), key)
    decreases calls
  {
    if calls != [] {
      var h', answers := RefStep(p, h, calls[0]), RefRun(p, h, calls);
      AdmittedIsLog(p, h', calls[1..], key);
      assert answers[0] == RefAnswer(p, h, calls[0]) && answers[1..] == RefRun(p, h', calls[1..]);
      var rest := Admitted(calls[1..], answers[1..], key);
      assert Get(Admissions(p, h, calls), key) == Get(h', key) + rest;
      RefStepAt(p, h, calls[0], key);
      assert (Get(h, key) + [calls[0].now]) + rest == Get(h, key) + ([calls[0].now] + rest);
    }
  }

  // Both guarantees for one key's complete log.
  lemma LogGuarantee(ts: seq<int>, limit: int, window: nat, lo: int, now: int)
    requires Past(ts, now) && Spaced(ts, limit, window) && limit >= 1
    ensures InInterval(ts, lo, lo + window) <= limit
    ensures !Decide(ts, limit, window, now).allowed <==> InInterval(ts, now - window, now) == limit
    ensures !Decide(ts, limit, window, now).allowed ==> |Kept(ts, now - window)| == limit
  {
    SpacedCount(ts, limit, window, lo);
    SpacedCount(ts, limit, window, now - window);
    KeptCount(ts, now, now - window);
  }

  lemma RefLog(p: Policy, calls: seq<Call>, from: int, key: string, now: int)
    requires Chronological(calls + [Call(key, now)], from)
    ensures |RefRun(p, map[], calls)| == |calls|
    ensures RefRun(p, map[], calls + [Call(key, now)])
      == RefRun(p, map[], calls) + [RefAnswer(p, Admissions(p, map[], calls), Call(key, now))]
    ensures var ts := Get(Admissions(p, map[], calls), key);
      && ts == Admitted(calls, RefRun(p, map[], calls), key)
      && Past(ts, now) && Spaced(ts, p.limit(key), p.window(key))
  {
    var h, last := Admissions(p, map[], calls), Call(key, now);
    assert RefRun(p, h, [last]) == [RefAnswer(p, h, last)];
    RefRunAppend(p, map[], calls, [last]);
    AdmittedIsLog(p, map[], calls, key);
    Prefix(calls, last, from);
    OrderlyRun(p, map[], calls, from, now);
    assert Past(Get(h, key), now);
  }

  lemma {:induction false} AdmittedSame(calls: seq<Call>, c: seq<Answer>, r: seq<Answer>, key: string)
    requires |calls| == |c| == |r| && forall i :: 0 <= i < |calls| && calls[i].key == key ==> c[i] == r[i]
    ensures Admitted(calls, c, key) == Admitted(calls, r, key)
    decreases calls
  {
    if calls != [] {
      assert forall i :: 0 <= i < |calls| - 1 && calls[1..][i].key == key ==> c[1..][i] == r[1..][i] by {
        assert forall i :: 0 <= i < |calls| - 1 ==> calls[1..][i] == calls[i + 1];
      }
      AdmittedSame(calls[1..], c[1..], r[1..], key);
    }
  }

  // The answers of the code, seen from the key's complete log.
  lemma KeyLog(p: Policy, calls: seq<Call>, from: int, key: string, last: Call)
    requires Shortest(p, key) && Chronological(calls + [last], from) && last.key == key
    ensures |CodeRun(p, map[], calls)| == |calls| && |CodeRun(p, map[], calls + [last])| == |calls| + 1
    ensures Admitted(calls, CodeRun(p, map[], calls), key) == Get(Admissions(p, map[], calls), key)
    ensures CodeRun(p, map[], calls + [last])[|calls|] == RefAnswer(p, Admissions(p, map[], calls), last)
  {
    var all, start := calls + [last], from - p.window(key);
    RefLog(p, calls, from, key, last.now);
    Prefix(calls, last, from);
    assert SameFor(p, map[], map[], calls, key) by {
      RunsAgree(p, map[], map[], calls, key, start, from);
    }
    assert SameFor(p, map[], map[], all, key) by {
      RunsAgree(p, map[], map[], all, key, start, from);
    }
    assert all[|calls|] == last;
    AdmittedSame(calls, CodeRun(p, map[], calls), RefRun(p, map[], calls), key);
  }

  // The times at which the code lets `key` through.
  ghost function CodeAdmits(p: Policy, calls: seq<Call>, key: string): seq<int> {
    CodeRunLength(p, map[], calls);
    Admitted(calls, CodeRun(p, map[], calls), key)
  }

  ghost predicate Then(calls: seq<Call>, c: Call, from: int) { Chronological(calls + [c], from) }

  ghost function LastAnswer(p: Policy, calls: seq<Call>, c: Call): Answer {
    CodeRunLength(p, map[], calls + [c]);
    CodeRun(p, map[], calls + [c])[|calls|]
  }

  // The interval from `lo` as long as the window holds at most `limit` admissions, and the call at
  // `now` is refused exactly when the window that ends with it holds that many already.
  ghost predicate WindowHolds(p: Policy, calls: seq<Call>, key: string, lo: int, now: int) {
    var times := CodeAdmits(p, calls, key);
    && InInterval(times, lo, lo + p.window(key)) <= p.limit(key)
    && (!LastAnswer(p, calls, Call(key, now)).allowed <==> InInterval(times, now - p.window(key), now) == p.limit(key))
  }

  lemma ShortestHolds(p: Policy, calls: seq<Call>, from: int, key: string, lo: int, now: int)
    requires Shortest(p, key) && Then(calls, Call(key, now), from)
    ensures WindowHolds(p, calls, key, lo, now)
  {
    var ts := Get(Admissions(p, map[], calls), key);
    assert Past(ts, now) && Spaced(ts, p.limit(key), p.window(key)) by {
      RefLog(p, calls, from, key, now);
    }
    KeyLog(p, calls, from, key, Call(key, now));
    LogGuarantee(ts, p.limit(key), p.window(key), lo, now);
  }

  lemma {:induction false} AdmittedAppend(a: seq<Call>, b: seq<Call>, c: seq<Answer>, d: seq<Answer>, key: string)
    requires |a| == |c| && |b| == |d|
    ensures Admitted(a + b, c + d, key) == Admitted(a, c, key) + Admitted(b, d, key)
    decreases a
  {
    if a == [] {
      assert a + b == b && c + d == d;
    } else {
      assert (a + b)[1..] == a[1..] + b && (c + d)[1..] == c[1..] + d;
      AdmittedAppend(a[1..], b, c[1..], d, key);
    }
  }

  lemma {:induction false} ZerosCount(n: nat, t: int, hi: int)
    requires 0 <= t <= hi
    ensures InInterval(Zeros(n), 0, hi) == n && InInterval(Zeros(n) + [t], 0, hi) == n + 1
  {
    if n > 0 {
      ZerosCount(n - 1, 0, hi);
    }
    assert (Zeros(n) + [t])[..n] == Zeros(n);
  }

  // The burst, then a sweep for `b`, then one admission too many of `a`.
  lemma OverfullRun(p: Policy, a: string, b: string, calls: seq<Call>)
    requires p.window(a) > p.window(b)
    requires calls == Burst(a, p.limit(a), MAX_MEM_KEYS) + [Call(b, p.window(b) + 1), Call(a, p.window(b) + 1)]
    ensures InInterval(CodeAdmits(p, calls, a), 0, 0 + p.window(a)) == p.limit(a) + 1
  {
    var n, t := p.limit(a), p.window(b) + 1;
    var burst, rest, full := Burst(a, n, MAX_MEM_KEYS), [Call(b, t), Call(a, t)], Filled(a, n, MAX_MEM_KEYS);
    BurstFills(p, a, n, MAX_MEM_KEYS);
    assert Admitted(burst, CodeRun(p, map[], burst), a) == Zeros(n) by {
      AdmittedIsLog(p, map[], burst, a);
      FullTableSwept(a, n, MAX_MEM_KEYS);
    }
    TailAdmitted(p, full, a, b, t, rest);
    AdmitsAppend(p, burst, rest, full, a);
    ZerosCount(n, t, p.window(a));
  }

  lemma TailAdmitted(p: Policy, full: Log, a: string, b: string, t: int, rest: seq<Call>)
    requires t == p.window(b) + 1 <= p.window(a) && full == Filled(a, p.limit(a), MAX_MEM_KEYS)
    requires rest == [Call(b, t), Call(a, t)]
    ensures |CodeRun(p, full, rest)| == 2 && Admitted(rest, CodeRun(p, full, rest), a) == [t]
  {
    FullTableSwept(a, p.limit(a), MAX_MEM_KEYS);
    SweptAway(p, a, b, t, full);
    TwoCalls(p, full, Call(b, t), Call(a, t));
    TwoAdmitted(rest, CodeRun(p, full, rest), a, t);
  }

  lemma AdmitsAppend(p: Policy, a: seq<Call>, b: seq<Call>, m: Log, key: string)
    requires CodeAfter(p, map[], a) == m
    ensures |CodeRun(p, map[], a)| == |a| && |CodeRun(p, m, b)| == |b|
    ensures CodeAdmits(p, a + b, key) == Admitted(a, CodeRun(p, map[], a), key) + Admitted(b, CodeRun(p, m, b), key)
  {
    CodeRunLength(p, map[], a);
    CodeRunLength(p, m, b);
    CodeRunAppend(p, map[], a, b);
    AdmittedAppend(a, b, CodeRun(p, map[], a), CodeRun(p, m, b), key);
  }

  lemma {:induction false} TwoAdmitted(rest: seq<Call>, answers: seq<Answer>, key: string, t: int)
    requires |rest| == |answers| == 2 && rest[0].key != key && rest[1] == Call(key, t) && answers[1].allowed
    ensures Admitted(rest, answers, key) == [t]
  {
    assert rest[1..] == [rest[1]] && answers[1..] == [answers[1]];
    assert Admitted([rest[1]], [answers[1]], key) == [t] + Admitted([], [], key) by {
      assert [rest[1]][1..] == [] && [answers[1]][1..] == [];
    }
  }

  lemma BurstThen(a: string, n: nat, t: int, rest: seq<Call>)
    requires t >= 0 && forall i :: 0 <= i < |rest| ==> rest[i].now == t
    ensures Chronological(Burst(a, n, MAX_MEM_KEYS) + rest, 0)
  {
    AtOnceIsChronological(rest, t);
    AtOnceIsChronological(Burst(a, n, MAX_MEM_KEYS), 0);
    ChronologicalAppend(Burst(a, n, MAX_MEM_KEYS), rest, 0, t);
  }

  lemma OverfullIsChronological(p: Policy, a: string, b: string, calls: seq<Call>)
    requires calls == Burst(a, p.limit(a), MAX_MEM_KEYS) + [Call(b, p.window(b) + 1), Call(a, p.window(b) + 1)]
    ensures Then(calls, Call(a, p.window(b) + 1), 0)
  {
    var t := p.window(b) + 1;
    var rest := [Call(b, t), Call(a, t), Call(a, t)];
    BurstThen(a, p.limit(a), t, rest);
    assert calls + [Call(a, t)] == Burst(a, p.limit(a), MAX_MEM_KEYS) + rest;
  }

  /** In every run no closed interval as long as the window holds more than `limit` admitted calls
      of a key, and a call is refused exactly when the window that ends with it holds that many
      already, if and only if no other key has a shorter window. */
  lemma WindowIsNeverOverfull(p: Policy, key: string)
    ensures Shortest(p, key) <==>
      forall calls, from, lo, now :: Then(calls, Call(key, now), from) ==> WindowHolds(p, calls, key, lo, now)
  {
    if Shortest(p, key) {
      forall calls, from, lo, now | Then(calls, Call(key, now), from)
        ensures WindowHolds(p, calls, key, lo, now)
      {
        ShortestHolds(p, calls, from, key, lo, now);
      }
    } else {
      var b :| p.window(key) > p.window(b);
      var t := p.window(b) + 1;
      var calls := Burst(key, p.limit(key), MAX_MEM_KEYS) + [Call(b, t), Call(key, t)];
      OverfullRun(p, key, b, calls);
      OverfullIsChronological(p, key, b, calls);
      assert Then(calls, Call(key, t), 0) && !WindowHolds(p, calls, key, 0, t);
    }
  }

  lemma {:induction false} Prefix(calls: seq<Call>, last: Call, from: int)
    requires Chronological(calls + [last], from)
    ensures Chronological(calls, from) && from <= last.now
    ensures forall i :: 0 <= i < |calls| ==> calls[i].now <= last.now
    decreases calls
  {
    if calls == [] {
      assert (calls + [last])[0] == last;
    } else {
      assert (calls + [last])[1..] == calls[1..] + [last];
      Prefix(calls[1..], last, calls[0].now);
    }
  }

  // ---------- Retry-After ----------

  // With exactly `limit` admissions in the window, waiting s whole seconds succeeds exactly
  // when s reaches the announced number, which the clamp to 1 never changes.
  lemma RetryIsExact(ts: seq<int>, limit: int, window: nat, now: int, s: nat)
    requires Ascending(ts) && limit >= 1 && |Kept(ts, now - window)| == limit
    ensures var retry := Decide(ts, limit, window, now).retry;
      && retry == GoDiv(Kept(ts, now - window)[0] + window - now, 1000) + 1 >= 1
      && (Decide(ts, limit, window, now + 1000 * s).allowed <==> s >= retry)
  {
    var n := KeptSuffix(ts, now - window);
    var later := now + 1000 * s - window;
    var m := KeptSuffix(ts, later);
    var d := ts[n] + window - now;
    assert d >= 0 && Decide(ts, limit, window, now).retry == d / 1000 + 1;
    assert s >= d / 1000 + 1 <==> ts[n] < later;
    assert m <= n ==> ts[m] <= ts[n];
    assert |Kept(ts, later)| < limit <==> ts[n] < later;
  }

  // The same for a run of the reference.
  lemma RefRetry(p: Policy, calls: seq<Call>, from: int, first: Call, others: seq<Call>, again: Call, s: nat)
    requires Chronological(calls + [first], from) && again == Call(first.key, first.now + 1000 * s)
    requires forall i :: 0 <= i < |others| ==> others[i].key != first.key
    ensures var h := Admissions(p, map[], calls);
      !RefAnswer(p, h, first).allowed ==>
        (RefAnswer(p, Admissions(p, RefStep(p, h, first), others), again).allowed <==> s >= RefAnswer(p, h, first).retry)
  {
    var h, limit, window := Admissions(p, map[], calls), p.limit(first.key), p.window(first.key);
    if !RefAnswer(p, h, first).allowed {
      assert RefStep(p, h, first) == h;
      OthersLeaveAlone(p, h, others, first.key);
      RefLog(p, calls, from, first.key, first.now);
      LogGuarantee(Get(h, first.key), limit, window, first.now, first.now);
      RetryIsExact(Get(h, first.key), limit, window, first.now, s);
    }
  }

  // After `calls`, `key` calls at `now` and again s seconds later, with the others in between.
  function Waiting(calls: seq<Call>, key: string, now: int, others: seq<Call>, s: nat): seq<Call> {
    calls + [Call(key, now)] + others + [Call(key, now + 1000 * s)]
  }

  ghost predicate CanWait(calls: seq<Call>, key: string, now: int, others: seq<Call>, s: nat, from: int) {
    && (forall i :: 0 <= i < |others| ==> others[i].key != key)
    && Chronological(Waiting(calls, key, now, others, s), from)
  }

  // If the first call is refused, the second gets in exactly when s reaches the announced number.
  ghost predicate RetryHolds(p: Policy, calls: seq<Call>, key: string, now: int, others: seq<Call>, s: nat) {
    var run := Waiting(calls, key, now, others, s);
    var answers := CodeRun(p, map[], run);
    CodeRunLength(p, map[], run);
    !answers[|calls|].allowed ==> (answers[|run| - 1].allowed <==> s >= answers[|calls|].retry)
  }

  lemma ShortestRetries(p: Policy, calls: seq<Call>, from: int, key: string, now: int, others: seq<Call>, s: nat)
    requires Shortest(p, key) && CanWait(calls, key, now, others, s, from)
    ensures RetryHolds(p, calls, key, now, others, s)
  {
    var first, again := Call(key, now), Call(key, now + 1000 * s);
    CodeRunOfFour(p, calls, first, others, again, from);
    assert Chronological(calls + [first], from) by {
      PrefixOf(calls + [first] + others, [again], from);
      PrefixOf(calls + [first], others, from);
    }
    RefRetry(p, calls, from, first, others, again, s);
  }

  lemma FullUnswept(a: string, n: nat, start: int)
    requires n >= 1 && start <= 0
    ensures Swept(Filled(a, n, MAX_MEM_KEYS), start) == Filled(a, n, MAX_MEM_KEYS)
    ensures a in Filled(a, n, MAX_MEM_KEYS) && Filled(a, n, MAX_MEM_KEYS)[a] == Zeros(n)
  {
    FilledShape(a, n, MAX_MEM_KEYS);
    assert Zeros(n)[n - 1] == 0;
    assert forall k :: k in Filled(a, n, MAX_MEM_KEYS) ==> !Stale(Filled(a, n, MAX_MEM_KEYS)[k], start);
  }

  // A full table refuses `a` and stays as it is: nothing in it is stale for the longer window.
  lemma FullTableRefuses(p: Policy, a: string, t: int, start: int, full: Log)
    requires start == t - p.window(a) <= 0
    requires Swept(full, start) == full && a in full && full[a] == Zeros(p.limit(a))
    ensures CodeStep(p, full, Call(a, t)) == full
    ensures !CodeAnswer(p, full, Call(a, t)).allowed && CodeAnswer(p, full, Call(a, t)).retry >= 1
  {
    KeptAll(Zeros(p.limit(a)), start);
    assert full[a := Zeros(p.limit(a))] == full;
  }

  lemma EarlyRun(p: Policy, a: string, b: string)
    requires p.window(a) > p.window(b)
    ensures var burst, t := Burst(a, p.limit(a), MAX_MEM_KEYS), p.window(b) + 1;
      CanWait(burst, a, t, [Call(b, t)], 0, 0) && !RetryHolds(p, burst, a, t, [Call(b, t)], 0)
  {
    var n, t := p.limit(a), p.window(b) + 1;
    var burst, rest, full := Burst(a, n, MAX_MEM_KEYS), [Call(a, t), Call(b, t), Call(a, t)], Filled(a, n, MAX_MEM_KEYS);
    assert Waiting(burst, a, t, [Call(b, t)], 0) == burst + rest;
    assert CanWait(burst, a, t, [Call(b, t)], 0, 0) by {
      BurstThen(a, n, t, rest);
    }
    assert CodeAfter(p, map[], burst) == full by {
      BurstFills(p, a, n, MAX_MEM_KEYS);
    }
    EarlyAnswers(p, a, b, t, full, rest);
    RetryFails(p, burst, a, t, [Call(b, t)], rest, full);
  }

  lemma RetryFails(p: Policy, calls: seq<Call>, a: string, t: int, others: seq<Call>, rest: seq<Call>, full: Log)
    requires Waiting(calls, a, t, others, 0) == calls + rest && |rest| == 3 && CodeAfter(p, map[], calls) == full
    requires |CodeRun(p, full, rest)| == 3 && CodeRun(p, full, rest)[2].allowed
    requires !CodeRun(p, full, rest)[0].allowed && CodeRun(p, full, rest)[0].retry >= 1
    ensures !RetryHolds(p, calls, a, t, others, 0)
  {
    RunTail(p, calls, rest, full);
    assert CodeRun(p, map[], calls + rest)[|calls| + 0] == CodeRun(p, full, rest)[0];
    assert CodeRun(p, map[], calls + rest)[|calls| + 2] == CodeRun(p, full, rest)[2];
  }

  lemma RunTail(p: Policy, a: seq<Call>, b: seq<Call>, m: Log)
    requires CodeAfter(p, map[], a) == m
    ensures |CodeRun(p, map[], a + b)| == |a| + |b| && |CodeRun(p, m, b)| == |b|
    ensures forall i {:trigger CodeRun(p, m, b)[i]} :: 0 <= i < |b| ==>
      CodeRun(p, map[], a + b)[|a| + i] == CodeRun(p, m, b)[i]
  {
    CodeRunLength(p, map[], a);
    CodeRunLength(p, m, b);
    CodeRunAppend(p, map[], a, b);
  }

  lemma EarlyAnswers(p: Policy, a: string, b: string, t: int, full: Log, rest: seq<Call>)
    requires t == p.window(b) + 1 <= p.window(a) && full == Filled(a, p.limit(a), MAX_MEM_KEYS)
    requires rest == [Call(a, t), Call(b, t), Call(a, t)]
    ensures var answers := CodeRun(p, full, rest);
      |answers| == 3 && !answers[0].allowed && answers[0].retry >= 1 && answers[2].allowed
  {
    FullUnswept(a, p.limit(a), t - p.window(a));
    FullTableRefuses(p, a, t, t - p.window(a), full);
    FullTableSwept(a, p.limit(a), MAX_MEM_KEYS);
    SweptAway(p, a, b, t, full);
    TwoCalls(p, full, Call(b, t), Call(a, t));
    assert rest[1..] == [Call(b, t), Call(a, t)];
  }

  /** In every run a refused key that waits gets in at exactly the announced second, not before,
      whatever other keys do meanwhile, if and only if no other key has a shorter window. */
  lemma RetryAfterIsExact(p: Policy, key: string)
    ensures Shortest(p, key) <==>
      forall calls, from, now, others, s ::
        CanWait(calls, key, now, others, s, from) ==> RetryHolds(p, calls, key, now, others, s)
  {
    if Shortest(p, key) {
      forall calls, from, now, others, s: nat | CanWait(calls, key, now, others, s, from)
        ensures RetryHolds(p, calls, key, now, others, s)
      {
        ShortestRetries(p, calls, from, key, now, others, s);
      }
    } else {
      var b :| p.window(key) > p.window(b);
      EarlyRun(p, key, b);
    }
  }

  // The answers to the two calls of interest, seen from the complete log.
  ghost predicate AnswersOfFour(p: Policy, calls: seq<Call>, first: Call, others: seq<Call>, again: Call,
                                answers: seq<Answer>)
  {
    var h := Admissions(p, map[], calls);
    && |answers| == |calls| + 1 + |others| + 1
    && answers[|calls|] == RefAnswer(p, h, first)
    && answers[|answers| - 1] == RefAnswer(p, Admissions(p, RefStep(p, h, first), others), again)
  }

  lemma CodeRunOfFour(p: Policy, calls: seq<Call>, first: Call, others: seq<Call>, again: Call, from: int)
    requires Shortest(p, first.key) && again.key == first.key
    requires Chronological(calls + [first] + others + [again], from)
    ensures AnswersOfFour(p, calls, first, others, again, CodeRun(p, map[], calls + [first] + others + [again]))
  {
    var run, start := calls + [first] + others + [again], from - p.window(first.key);
    RefRunSplit(p, calls, first, others, again);
    RunsAgree(p, map[], map[], run, first.key, start, from);
    assert run[|calls|] == first && run[|run| - 1] == again;
  }

  lemma RefRunSplit(p: Policy, calls: seq<Call>, first: Call, others: seq<Call>, again: Call)
    ensures AnswersOfFour(p, calls, first, others, again, RefRun(p, map[], calls + [first] + others + [again]))
  {
    var head, h := calls + [first], Admissions(p, map[], calls);
    RefRunAppend(p, map[], calls, [first]);
    RefRunAppend(p, map[], head, others);
    RefRunAppend(p, map[], head + others, [again]);
    assert RefRun(p, h, [first]) == [RefAnswer(p, h, first)];
    assert Admissions(p, h, [first]) == RefStep(p, h, first);
  }

  lemma {:induction false} PrefixOf(a: seq<Call>, b: seq<Call>, from: int)
    requires Chronological(a + b, from)
    ensures Chronological(a, from)
    decreases a
  {
    if a != [] {
      assert (a + b)[1..] == a[1..] + b;
      PrefixOf(a[1..], b, a[0].now);
    }
  }

  lemma {:induction false} OthersLeaveAlone(p: Policy, h: Log, others: seq<Call>, key: string)
    requires forall i :: 0 <= i < |others| ==> others[i].key != key
    ensures Get(Admissions(p, h, others), key) == Get(h, key)
    decreases others
  {
    if others != [] {
      RefStepAt(p, h, others[0], key);
      OthersLeaveAlone(p, RefStep(p, h, others[0]), others[1..], key);
    }
  }
}
