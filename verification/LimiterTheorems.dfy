// The limiter against one that never forgets: where the two agree, key by key, and where not.
module LimiterTheorems {
  import opened Limiter

  datatype Call = Call(key: string, now: int)

  // The window and the limit (at least 1) that each key is always called with.
  datatype Policy = Policy(window: string -> nat, spare: string -> nat) {
    function limit(key: string): int { 1 + spare(key) }
  }

  ghost predicate OneWindow(p: Policy) {
    forall a, b :: p.window(a) == p.window(b)
  }

  // No call of another key sweeps with a shorter window than the key's own.
  ghost predicate Shortest(p: Policy, key: string) {
    forall b :: p.window(key) <= p.window(b)
  }

  predicate Chronological(calls: seq<Call>, from: int) {
    calls == [] || (from <= calls[0].now && Chronological(calls[1..], calls[0].now))
  }

  // ---------- the code and the reference, run on a sequence of calls ----------

  ghost function CodeStep(p: Policy, m: Log, c: Call): Log
  {
    AllowLog(m, c.key, p.limit(c.key), p.window(c.key), c.now)
  }

  ghost function CodeAnswer(p: Policy, m: Log, c: Call): Answer
  {
    AllowAnswer(m, c.key, p.limit(c.key), p.window(c.key), c.now)
  }

  // The reference remembers every admission and never drops anything.
  ghost function RefAnswer(p: Policy, h: Log, c: Call): Answer
  {
    Decide(Get(h, c.key), p.limit(c.key), p.window(c.key), c.now)
  }

  ghost function RefStep(p: Policy, h: Log, c: Call): Log
  {
    if RefAnswer(p, h, c).allowed then h[c.key := Get(h, c.key) + [c.now]] else h
  }

  ghost function CodeRun(p: Policy, m: Log, calls: seq<Call>): seq<Answer>
    decreases calls
  {
    if calls == [] then [] else [CodeAnswer(p, m, calls[0])] + CodeRun(p, CodeStep(p, m, calls[0]), calls[1..])
  }

  ghost function RefRun(p: Policy, h: Log, calls: seq<Call>): seq<Answer>
    decreases calls
  {
    if calls == [] then [] else [RefAnswer(p, h, calls[0])] + RefRun(p, RefStep(p, h, calls[0]), calls[1..])
  }

  // All admissions after a run, by key.
  ghost function Admissions(p: Policy, h: Log, calls: seq<Call>): Log
    decreases calls
  {
    if calls == [] then h else Admissions(p, RefStep(p, h, calls[0]), calls[1..])
  }

  // ---------- facts about Kept ----------

  predicate Ascending(ts: seq<int>) {
    forall i, j :: 0 <= i <= j < |ts| ==> ts[i] <= ts[j]
  }

  predicate Past(ts: seq<int>, now: int) {
    Ascending(ts) && (ts == [] || ts[|ts| - 1] <= now)
  }

  lemma PastAppend(ts: seq<int>, before: int, now: int)
    requires Past(ts, before) && before <= now
    ensures Past(ts, now) && Past(ts + [now], now)
  {
  }

  lemma PastSuffix(ts: seq<int>, n: nat, now: int)
    requires Past(ts, now) && n <= |ts|
    ensures Past(ts[n..], now)
  {
  }

  lemma {:induction false} KeptSplit(a: seq<int>, b: seq<int>, start: int)
    ensures Kept(a + b, start) == Kept(a, start) + Kept(b, start)
  {
    if b == [] {
      assert a + b == a;
    } else {
      var front := b[..|b| - 1];
      assert (a + b)[..|a + b| - 1] == a + front;
      KeptSplit(a, front, start);
    }
  }

  // Pruning at an earlier start loses nothing that a later start would keep.
  lemma {:induction false} KeptKept(ts: seq<int>, s: int, t: int)
    requires s <= t
    ensures Kept(Kept(ts, s), t) == Kept(ts, t)
  {
    if ts != [] {
      var front, last := ts[..|ts| - 1], ts[|ts| - 1];
      KeptKept(front, s, t);
      KeptSplit(Kept(front, s), [last], t);
      assert Kept([last], t) == if last >= t then [last] else [];
    }
  }

  lemma {:induction false} KeptNone(ts: seq<int>, start: int)
    requires forall i :: 0 <= i < |ts| ==> ts[i] < start
    ensures Kept(ts, start) == []
  {
    if ts != [] {
      KeptNone(ts[..|ts| - 1], start);
    }
  }

  // On an ascending log the kept part is a suffix.
  lemma {:induction false} KeptSuffix(ts: seq<int>, start: int) returns (n: nat)
    requires Ascending(ts)
    ensures n <= |ts| && Kept(ts, start) == ts[n..]
    ensures forall i :: 0 <= i < n ==> ts[i] < start
    ensures n < |ts| ==> ts[n] >= start
  {
    n := 0;
    if ts != [] {
      var front, last := ts[..|ts| - 1], ts[|ts| - 1];
      n := KeptSuffix(front, start);
      if last >= start {
        assert front[n..] + [last] == ts[n..];
      } else {
        n := |ts|;
        assert forall i :: 0 <= i < |ts| ==> ts[i] <= last;
        KeptNone(front, start);
      }
    }
  }

  // ---------- refinement ----------

  // The table may have forgotten admissions, but none that a start from `start` on would see.
  ghost predicate Same(ts: seq<int>, us: seq<int>, start: int) {
    forall t {:trigger Kept(ts, t)} :: t >= start ==> Kept(ts, t) == Kept(us, t)
  }

  ghost predicate Agree(ts: seq<int>, us: seq<int>, start: int, now: int) {
    Same(ts, us, start) && Past(ts, now) && Past(us, now)
  }

  // A sweep for an equal or longer window drops nothing that the key still needs.
  lemma PurgeLosesNothing(m: Log, h: Log, k: string, early: int, swept: int, start: int, now: int)
    requires Agree(Get(m, k), Get(h, k), early, now) && early <= start && swept <= start
    ensures Agree(Get(Swept(m, swept), k), Get(h, k), start, now)
  {
    var ts := Get(m, k);
    if Get(Swept(m, swept), k) != ts {
      assert Stale(ts, swept);
      forall t | t >= start
        ensures Kept([], t) == Kept(Get(h, k), t)
      {
        KeptNone(ts, t);
        assert Kept(ts, t) == Kept(Get(h, k), t);
      }
    }
  }

  // What one call leaves of one key's log, in the code and in the reference.
  function CodeColumn(ts: seq<int>, start: int, now: int, mine: bool, allowed: bool): seq<int> {
    if !mine then ts else if allowed then Kept(ts, start) + [now] else Kept(ts, start)
  }

  function RefColumn(us: seq<int>, now: int, mine: bool, allowed: bool): seq<int> {
    if mine && allowed then us + [now] else us
  }

  lemma ColumnAgrees(ts: seq<int>, us: seq<int>, start: int, before: int, now: int, mine: bool, allowed: bool)
    requires Agree(ts, us, start, before) && before <= now
    ensures Agree(CodeColumn(ts, start, now, mine, allowed), RefColumn(us, now, mine, allowed), start, now)
  {
    var kept := Kept(ts, start);
    var n := KeptSuffix(ts, start);
    PastSuffix(ts, n, before);
    PastAppend(ts, before, now);
    PastAppend(kept, before, now);
    PastAppend(us, before, now);
    forall t | t >= start
      ensures Kept(kept, t) == Kept(us, t) && Kept(kept + [now], t) == Kept(us + [now], t)
    {
      KeptKept(ts, start, t);
      assert Kept(ts, t) == Kept(us, t);
      KeptSplit(kept, [now], t);
      KeptSplit(us, [now], t);
    }
  }

  // One call, seen from one key.
  lemma CodeStepAt(p: Policy, m: Log, c: Call, k: string, start: int)
    requires start == c.now - p.window(c.key)
    ensures Get(CodeStep(p, m, c), k)
      == CodeColumn(Get(Swept(m, start), k), start, c.now, k == c.key, CodeAnswer(p, m, c).allowed)
  {
  }

  lemma RefStepAt(p: Policy, h: Log, c: Call, k: string)
    ensures Get(RefStep(p, h, c), k) == RefColumn(Get(h, k), c.now, k == c.key, RefAnswer(p, h, c).allowed)
  {
  }

  lemma OwnAnswerAgrees(p: Policy, m: Log, h: Log, c: Call, early: int, start: int, before: int)
    requires start == c.now - p.window(c.key) && early <= start
    requires Agree(Get(m, c.key), Get(h, c.key), early, before)
    ensures CodeAnswer(p, m, c) == RefAnswer(p, h, c)
  {
    PurgeLosesNothing(m, h, c.key, early, start, start, before);
    assert Kept(Get(Swept(m, start), c.key), start) == Kept(Get(h, c.key), start);
  }

  lemma OwnCallAgrees(p: Policy, m: Log, h: Log, c: Call, early: int, start: int, before: int)
    requires start == c.now - p.window(c.key) && early <= start && before <= c.now
    requires Agree(Get(m, c.key), Get(h, c.key), early, before)
    requires CodeAnswer(p, m, c) == RefAnswer(p, h, c)
    ensures Agree(Get(CodeStep(p, m, c), c.key), Get(RefStep(p, h, c), c.key), start, c.now)
  {
    CodeStepAt(p, m, c, c.key, start);
    RefStepAt(p, h, c, c.key);
    PurgeLosesNothing(m, h, c.key, early, start, start, before);
    ColumnAgrees(Get(Swept(m, start), c.key), Get(h, c.key), start, before, c.now, true, RefAnswer(p, h, c).allowed);
  }

  lemma OtherCallAgrees(p: Policy, m: Log, h: Log, c: Call, k: string, early: int, start: int, before: int)
    requires k != c.key && c.now - p.window(c.key) <= start && early <= start && before <= c.now
    requires Agree(Get(m, k), Get(h, k), early, before)
    ensures Agree(Get(CodeStep(p, m, c), k), Get(RefStep(p, h, c), k), start, c.now)
  {
    var swept := c.now - p.window(c.key);
    CodeStepAt(p, m, c, k, swept);
    RefStepAt(p, h, c, k);
    PurgeLosesNothing(m, h, k, early, swept, start, before);
    ColumnAgrees(Get(Swept(m, swept), k), Get(h, k), start, before, c.now, false, false);
  }

  // Both answer the calls of this key alike.
  ghost predicate SameFor(p: Policy, m: Log, h: Log, calls: seq<Call>, key: string) {
    && |CodeRun(p, m, calls)| == |calls| == |RefRun(p, h, calls)|
    && forall i :: 0 <= i < |calls| && calls[i].key == key ==> CodeRun(p, m, calls)[i] == RefRun(p, h, calls)[i]
  }

  lemma {:induction false} RunsAgree(p: Policy, m: Log, h: Log, calls: seq<Call>, key: string, early: int, before: int)
    requires Shortest(p, key) && early == before - p.window(key)
    requires Agree(Get(m, key), Get(h, key), early, before) && Chronological(calls, before)
    ensures SameFor(p, m, h, calls, key)
    decreases calls
  {
    if calls != [] {
      var c := calls[0];
      var start := c.now - p.window(key);
      if c.key == key {
        OwnAnswerAgrees(p, m, h, c, early, start, before);
        OwnCallAgrees(p, m, h, c, early, start, before);
      } else {
        OtherCallAgrees(p, m, h, c, key, early, start, before);
      }
      RunsAgree(p, CodeStep(p, m, c), RefStep(p, h, c), calls[1..], key, start, c.now);
      SameForMore(p, m, h, calls, key);
    }
  }

  lemma SameForMore(p: Policy, m: Log, h: Log, calls: seq<Call>, key: string)
    requires calls != [] && SameFor(p, CodeStep(p, m, calls[0]), RefStep(p, h, calls[0]), calls[1..], key)
    requires calls[0].key == key ==> CodeAnswer(p, m, calls[0]) == RefAnswer(p, h, calls[0])
    ensures SameFor(p, m, h, calls, key)
  {
    var c, r := CodeRun(p, CodeStep(p, m, calls[0]), calls[1..]), RefRun(p, RefStep(p, h, calls[0]), calls[1..]);
    assert CodeRun(p, m, calls) == [CodeAnswer(p, m, calls[0])] + c;
    assert RefRun(p, h, calls) == [RefAnswer(p, h, calls[0])] + r;
    forall i | 0 < i < |calls| && calls[i].key == key
      ensures CodeRun(p, m, calls)[i] == RefRun(p, h, calls)[i]
    {
      assert calls[1..][i - 1] == calls[i] && c[i - 1] == r[i - 1];
    }
  }

  lemma {:induction false} ChronologicalAppend(a: seq<Call>, b: seq<Call>, from: int, mid: int)
    requires Chronological(a, from) && from <= mid && (forall i :: 0 <= i < |a| ==> a[i].now <= mid) && Chronological(b, mid)
    ensures Chronological(a + b, from)
    decreases a
  {
    if a == [] {
      assert a + b == b;
    } else {
      assert (a + b)[1..] == a[1..] + b;
      ChronologicalAppend(a[1..], b, a[0].now, mid);
    }
  }

  ghost function CodeAfter(p: Policy, m: Log, calls: seq<Call>): Log
    decreases calls
  {
    if calls == [] then m else CodeAfter(p, CodeStep(p, m, calls[0]), calls[1..])
  }

  lemma {:induction false} CodeRunLength(p: Policy, m: Log, calls: seq<Call>)
    ensures |CodeRun(p, m, calls)| == |calls|
    decreases calls
  {
    if calls != [] {
      CodeRunLength(p, CodeStep(p, m, calls[0]), calls[1..]);
    }
  }

  lemma {:induction false} CodeAfterAppend(p: Policy, m: Log, a: seq<Call>, b: seq<Call>)
    ensures CodeAfter(p, m, a + b) == CodeAfter(p, CodeAfter(p, m, a), b)
    decreases a
  {
    if a == [] {
      assert a + b == b;
    } else {
      assert (a + b)[1..] == a[1..] + b;
      CodeAfterAppend(p, CodeStep(p, m, a[0]), a[1..], b);
    }
  }

  lemma {:induction false} CodeRunAppend(p: Policy, m: Log, a: seq<Call>, b: seq<Call>)
    ensures CodeRun(p, m, a + b) == CodeRun(p, m, a) + CodeRun(p, CodeAfter(p, m, a), b)
    decreases a
  {
    if a == [] {
      assert a + b == b;
    } else {
      assert (a + b)[1..] == a[1..] + b;
      CodeRunAppend(p, CodeStep(p, m, a[0]), a[1..], b);
    }
  }

  lemma {:induction false} RefRunAppend(p: Policy, h: Log, a: seq<Call>, b: seq<Call>)
    ensures RefRun(p, h, a + b) == RefRun(p, h, a) + RefRun(p, Admissions(p, h, a), b)
    ensures Admissions(p, h, a + b) == Admissions(p, Admissions(p, h, a), b)
    ensures |RefRun(p, h, a)| == |a|
    decreases a
  {
    if a == [] {
      assert a + b == b;
    } else {
      assert (a + b)[1..] == a[1..] + b;
      RefRunAppend(p, RefStep(p, h, a[0]), a[1..], b);
    }
  }

  // ---------- the exact condition: one window for all keys ----------

  // The sweep uses the caller's window on every key, so it can drop admissions that a key
  // with a longer window still needs.  The run below fills the table, lets it be swept by a
  // call with the shorter window, and calls the key with the longer one.

  function Zeros(n: nat): (zeros: seq<int>)
    ensures |zeros| == n && forall i :: 0 <= i < n ==> zeros[i] == 0
  {
    if n == 0 then [] else Zeros(n - 1) + [0]
  }

  // A key longer than `a` by i + 1.
  function Filler(a: string, i: nat): (key: string)
    ensures |key| == |a| + 1 + i
  {
    if i == 0 then a + "k" else Filler(a, i - 1) + "k"
  }

  function Filled(a: string, n: nat, i: nat): Log {
    if i == 0 then map[a := Zeros(n)] else Filled(a, n, i - 1)[Filler(a, i - 1) := [0]]
  }

  lemma {:induction false} FilledShape(a: string, n: nat, i: nat)
    ensures |Filled(a, n, i)| == i + 1 && a in Filled(a, n, i) && Filled(a, n, i)[a] == Zeros(n)
    ensures forall k :: k in Filled(a, n, i) ==> k == a || (|a| < |k| <= |a| + i && Filled(a, n, i)[k] == [0])
  {
    if i > 0 {
      FilledShape(a, n, i - 1);
      assert Filler(a, i - 1) !in Filled(a, n, i - 1);
    }
  }

  function Burst(a: string, n: nat, i: nat): (calls: seq<Call>)
    ensures forall j :: 0 <= j < |calls| ==> calls[j].now == 0
    decreases i, n
  {
    if i > 0 then Burst(a, n, i - 1) + [Call(Filler(a, i - 1), 0)]
    else if n > 0 then Burst(a, n - 1, 0) + [Call(a, 0)]
    else []
  }

  // As long as nothing is swept and all calls come at time 0, the two logs stay equal.
  lemma QuietStep(p: Policy, m: Log, k: string)
    requires |m| <= MAX_MEM_KEYS
    requires |Get(m, k)| < p.limit(k) && Get(m, k) == Zeros(|Get(m, k)|)
    ensures CodeStep(p, m, Call(k, 0)) == RefStep(p, m, Call(k, 0)) == m[k := Get(m, k) + [0]]
    ensures CodeAnswer(p, m, Call(k, 0)) == RefAnswer(p, m, Call(k, 0))
  {
    KeptAll(Get(m, k), 0 - p.window(k));
  }

  lemma {:induction false} KeptAll(ts: seq<int>, start: int)
    requires forall i :: 0 <= i < |ts| ==> ts[i] >= start
    ensures Kept(ts, start) == ts
  {
    if ts != [] {
      KeptAll(ts[..|ts| - 1], start);
      assert ts == ts[..|ts| - 1] + [ts[|ts| - 1]];
    }
  }

  // Code and reference answer the run alike and end with the same log.
  ghost predicate Quiet(p: Policy, calls: seq<Call>, m: Log) {
    && CodeRun(p, map[], calls) == RefRun(p, map[], calls)
    && CodeAfter(p, map[], calls) == m && Admissions(p, map[], calls) == m
  }

  lemma QuietCall(p: Policy, calls: seq<Call>, m: Log, k: string)
    requires |m| <= MAX_MEM_KEYS && Quiet(p, calls, m)
    requires |Get(m, k)| < p.limit(k) && Get(m, k) == Zeros(|Get(m, k)|)
    ensures Quiet(p, calls + [Call(k, 0)], m[k := Get(m, k) + [0]])
  {
    var c := Call(k, 0);
    QuietStep(p, m, k);
    CodeAfterAppend(p, map[], calls, [c]);
    CodeRunAppend(p, map[], calls, [c]);
    RefRunAppend(p, map[], calls, [c]);
    assert CodeRun(p, m, [c]) == [CodeAnswer(p, m, c)] && RefRun(p, m, [c]) == [RefAnswer(p, m, c)];
  }

  lemma {:induction false} RepeatFills(p: Policy, a: string, n: nat)
    requires 1 <= n <= p.limit(a)
    ensures Quiet(p, Burst(a, n, 0), Filled(a, n, 0))
  {
    var calls := Burst(a, n - 1, 0);
    var m := if n == 1 then map[] else map[a := Zeros(n - 1)];
    if n > 1 {
      RepeatFills(p, a, n - 1);
    }
    assert Get(m, a) == Zeros(n - 1) && m[a := Zeros(n)] == Filled(a, n, 0);
    QuietCall(p, calls, m, a);
  }

  lemma OneMoreFiller(p: Policy, a: string, n: nat, i: nat)
    requires i < MAX_MEM_KEYS && Quiet(p, Burst(a, n, i), Filled(a, n, i))
    ensures Quiet(p, Burst(a, n, i + 1), Filled(a, n, i + 1))
  {
    var m, k := Filled(a, n, i), Filler(a, i);
    assert |m| == i + 1 && k !in m by { FilledShape(a, n, i); }
    assert Get(m, k) == Zeros(0) && Get(m, k) + [0] == [0];
    QuietCall(p, Burst(a, n, i), m, k);
  }

  lemma {:induction false} BurstFills(p: Policy, a: string, n: nat, i: nat)
    requires 1 <= n <= p.limit(a) && i <= MAX_MEM_KEYS
    ensures Quiet(p, Burst(a, n, i), Filled(a, n, i))
  {
    if i == 0 {
      RepeatFills(p, a, n);
    } else {
      BurstFills(p, a, n, i - 1);
      OneMoreFiller(p, a, n, i - 1);
    }
  }

  lemma FullTableSwept(a: string, n: nat, size: nat)
    requires size == MAX_MEM_KEYS && n >= 1
    ensures a !in Swept(Filled(a, n, size), 1) && Get(Filled(a, n, size), a) == Zeros(n)
  {
    FilledShape(a, n, size);
    assert Zeros(n)[n - 1] == 0;
  }

  lemma PurgeLeaves(m: Log, start: int, k: string)
    requires k !in m
    ensures Get(Swept(m, start), k) == []
  {
  }

  // The sweep made on behalf of `b` throws `a` away, so `a` is admitted once too often.
  lemma SweptAway(p: Policy, a: string, b: string, t: int, full: Log)
    requires a != b && t == p.window(b) + 1 <= p.window(a)
    requires a !in Swept(full, 1) && Get(full, a) == Zeros(p.limit(a))
    ensures CodeAnswer(p, CodeStep(p, full, Call(b, t)), Call(a, t)).allowed
    ensures !RefAnswer(p, RefStep(p, full, Call(b, t)), Call(a, t)).allowed
  {
    var m, h := CodeStep(p, full, Call(b, t)), RefStep(p, full, Call(b, t));
    assert a !in m;
    PurgeLeaves(m, t - p.window(a), a);
    assert Get(h, a) == Zeros(p.limit(a)) by { RefStepAt(p, full, Call(b, t), a); }
    KeptAll(Zeros(p.limit(a)), t - p.window(a));
  }

  lemma TwoCalls(p: Policy, m: Log, c: Call, d: Call)
    ensures CodeRun(p, m, [c, d]) == [CodeAnswer(p, m, c), CodeAnswer(p, CodeStep(p, m, c), d)]
    ensures RefRun(p, m, [c, d]) == [RefAnswer(p, m, c), RefAnswer(p, RefStep(p, m, c), d)]
  {
    assert [c, d][1..] == [d];
    assert CodeRun(p, CodeStep(p, m, c), [d]) == [CodeAnswer(p, CodeStep(p, m, c), d)];
    assert RefRun(p, RefStep(p, m, c), [d]) == [RefAnswer(p, RefStep(p, m, c), d)];
  }

  lemma SecondDiffers(p: Policy, full: Log, a: string, b: string, t: int, rest: seq<Call>)
    requires a != b && t == p.window(b) + 1 <= p.window(a)
    requires a !in Swept(full, 1) && Get(full, a) == Zeros(p.limit(a))
    requires rest == [Call(b, t), Call(a, t)]
    ensures |CodeRun(p, full, rest)| == |RefRun(p, full, rest)| == 2
    ensures CodeRun(p, full, rest)[1] != RefRun(p, full, rest)[1]
  {
    SweptAway(p, a, b, t, full);
    TwoCalls(p, full, Call(b, t), Call(a, t));
  }

  lemma RunsDiffer(p: Policy, a: string, b: string, size: nat, calls: seq<Call>)
    requires p.window(a) > p.window(b) && size == MAX_MEM_KEYS
    requires var t := p.window(b) + 1; calls == Burst(a, p.limit(a), size) + [Call(b, t), Call(a, t)]
    ensures !SameFor(p, map[], map[], calls, a)
  {
    var n, t := p.limit(a), p.window(b) + 1;
    var burst, rest := Burst(a, n, size), [Call(b, t), Call(a, t)];
    BurstFills(p, a, n, size);
    FullTableSwept(a, n, size);
    SecondDiffers(p, Filled(a, n, size), a, b, t, rest);
    TailsAgree(p, burst, rest, a);
    assert rest[1].key == a;
  }

  // Runs that agree on a key agree on it in their tails.
  lemma TailsAgree(p: Policy, a: seq<Call>, b: seq<Call>, key: string)
    ensures SameFor(p, map[], map[], a + b, key) ==>
      SameFor(p, CodeAfter(p, map[], a), Admissions(p, map[], a), b, key)
  {
    var c, r := CodeRun(p, map[], a), RefRun(p, map[], a);
    CodeRunLength(p, map[], a);
    CodeRunLength(p, CodeAfter(p, map[], a), b);
    CodeRunAppend(p, map[], a, b);
    RefRunAppend(p, map[], a, b);
    RefRunAppend(p, Admissions(p, map[], a), b, []);
    SameTails(a, b, c, CodeRun(p, CodeAfter(p, map[], a), b), r, RefRun(p, Admissions(p, map[], a), b), key);
  }

  lemma SameTails(a: seq<Call>, b: seq<Call>, c: seq<Answer>, d: seq<Answer>, r: seq<Answer>, s: seq<Answer>, key: string)
    requires |a| == |c| == |r| && |b| == |d| == |s|
    ensures (forall i :: 0 <= i < |a + b| && (a + b)[i].key == key ==> (c + d)[i] == (r + s)[i]) ==>
      forall i :: 0 <= i < |b| && b[i].key == key ==> d[i] == s[i]
  {
    forall i | 0 <= i < |b| && b[i].key == key && (c + d)[|a| + i] == (r + s)[|a| + i]
      ensures d[i] == s[i]
    {
      assert (c + d)[|a| + i] == d[i] && (r + s)[|a| + i] == s[i];
    }
    assert forall i :: 0 <= i < |b| ==> (a + b)[|a| + i] == b[i];
  }

  lemma SweptByShorterWindow(p: Policy, a: string, b: string)
    requires p.window(a) > p.window(b)
    ensures exists calls :: Chronological(calls, 0) && !SameFor(p, map[], map[], calls, a)
  {
    var n, t := p.limit(a), p.window(b) + 1;
    var size := MAX_MEM_KEYS;
    var burst, rest := Burst(a, n, size), [Call(b, t), Call(a, t)];
    RunsDiffer(p, a, b, size, burst + rest);
    AtOnceIsChronological(burst, 0);
    ChronologicalAppend(burst, rest, 0, t);
    assert Chronological(burst + rest, 0) && !SameFor(p, map[], map[], burst + rest, a);
  }

  lemma {:induction false} AtOnceIsChronological(calls: seq<Call>, t: int)
    requires forall i :: 0 <= i < |calls| ==> calls[i].now == t
    ensures Chronological(calls, t)
    decreases calls
  {
    if calls != [] {
      AtOnceIsChronological(calls[1..], t);
    }
  }

  /** In every run the pruning limiter answers the calls of one key like the limiter that
      remembers every admission if and only if no other key has a shorter window. */
  lemma KeyRefinesIffShortest(p: Policy, key: string)
    ensures Shortest(p, key) <==>
      forall calls, from :: Chronological(calls, from) ==> SameFor(p, map[], map[], calls, key)
  {
    if Shortest(p, key) {
      forall calls: seq<Call>, from: int | Chronological(calls, from)
        ensures SameFor(p, map[], map[], calls, key)
      {
        RunsAgree(p, map[], map[], calls, key, from - p.window(key), from);
      }
    } else {
      var b :| p.window(key) > p.window(b);
      SweptByShorterWindow(p, key, b);
    }
  }

  lemma RunsEqual(p: Policy, calls: seq<Call>, from: int)
    requires OneWindow(p) && Chronological(calls, from)
    ensures CodeRun(p, map[], calls) == RefRun(p, map[], calls)
  {
    forall key: string
      ensures SameFor(p, map[], map[], calls, key)
    {
      RunsAgree(p, map[], map[], calls, key, from - p.window(key), from);
    }
    assert SameFor(p, map[], map[], calls, "");
    forall i | 0 <= i < |calls|
      ensures CodeRun(p, map[], calls)[i] == RefRun(p, map[], calls)[i]
    {
      assert SameFor(p, map[], map[], calls, calls[i].key);
    }
  }

  lemma EqualRunsAgree(p: Policy, calls: seq<Call>, key: string)
    ensures CodeRun(p, map[], calls) == RefRun(p, map[], calls) ==> SameFor(p, map[], map[], calls, key)
  {
    CodeRunLength(p, map[], calls);
  }

  /** The pruning limiter answers every run of calls like the limiter that remembers every
      admission if and only if all keys share one window. */
  lemma RefinesIffOneWindow(p: Policy)
    ensures OneWindow(p) <==>
      forall calls, from :: Chronological(calls, from) ==> CodeRun(p, map[], calls) == RefRun(p, map[], calls)
  {
    if OneWindow(p) {
      forall calls, from | Chronological(calls, from)
        ensures CodeRun(p, map[], calls) == RefRun(p, map[], calls)
      {
        RunsEqual(p, calls, from);
      }
    } else {
      var a, b :| p.window(a) > p.window(b);
      SweptByShorterWindow(p, a, b);
      var calls :| Chronological(calls, 0) && !SameFor(p, map[], map[], calls, a);
      EqualRunsAgree(p, calls, a);
      assert exists calls, from :: Chronological(calls, from) && CodeRun(p, map[], calls) != RefRun(p, map[], calls);
    }
  }
}
