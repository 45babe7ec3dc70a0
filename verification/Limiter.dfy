// The in-memory sliding-window rate limiter (internal/pkg/cache/cache.go).
//
// A call prunes the timestamps of its own key in place and, when the table has grown past
// MAX_MEM_KEYS, throws whole keys away.  The reference below keeps every admission for ever;
// the theorems say when the two give the same answers, what the answers guarantee, and what
// the returned waiting time means.
module Limiter {

  const MAX_MEM_KEYS: nat := 10000

  type Log = map<string, seq<int>>

  datatype Answer = Answer(allowed: bool, retry: int)

  // Go's integer division truncates toward zero.
  function GoDiv(a: int, b: nat): int
    requires b > 0
  {
    if a >= 0 then a / b else -((-a) / b)
  }

  function Get(m: Log, key: string): seq<int> {
    if key in m then m[key] else []
  }

  /** The timestamps not older than `start`, in order. */
  function Kept(ts: seq<int>, start: int): seq<int> {
    if ts == [] then []
    else
      var front := Kept(ts[..|ts| - 1], start);
      if ts[|ts| - 1] >= start then front + [ts[|ts| - 1]] else front
  }

  function RetryAfter(oldest: int, windowMs: int, now: int): int {
    var retry := GoDiv(oldest + windowMs - now, 1000) + 1;
    if retry < 1 then 1 else retry
  }

  function Decide(ts: seq<int>, limit: int, windowMs: int, now: int): Answer
    requires limit >= 1
  {
    var kept := Kept(ts, now - windowMs);
    if |kept| >= limit then Answer(false, RetryAfter(kept[0], windowMs, now)) else Answer(true, 0)
  }

  predicate Stale(ts: seq<int>, start: int) {
    |ts| == 0 || ts[|ts| - 1] < start
  }

  function Purged(m: Log, start: int): Log {
    map k | k in m && !Stale(m[k], start) :: m[k]
  }

  function Swept(m: Log, start: int): Log {
    if |m| > MAX_MEM_KEYS then Purged(m, start) else m
  }

  /** One call as the code performs it: sweep, prune, then refuse or record. */
  function AllowLog(m: Log, key: string, limit: int, windowMs: int, now: int): Log
    requires limit >= 1
  {
    var table := Swept(m, now - windowMs);
    var kept := Kept(Get(table, key), now - windowMs);
    table[key := if |kept| >= limit then kept else kept + [now]]
  }

  function AllowAnswer(m: Log, key: string, limit: int, windowMs: int, now: int): Answer
    requires limit >= 1
  {
    Decide(Get(Swept(m, now - windowMs), key), limit, windowMs, now)
  }

  // ---------- the limiter itself ----------

  // A Go slice: the first `len` elements of a backing array.
  datatype Slice = Slice(buf: array<int>, len: nat)

  ghost predicate Holds(s: Slice, ts: seq<int>)
    reads s.buf
  {
    s.len <= s.buf.Length && s.buf[..s.len] == ts
  }

  /** The loop `kept := ts[:0]; for t in ts { if t >= start { kept = append(kept, t) } }`,
      which compacts the slice inside its own backing array. */
  method CompactInPlace(buf: array<int>, n: nat, start: int) returns (m: nat)
    requires n <= buf.Length
    modifies buf
    ensures m <= n
    ensures buf[..m] == Kept(old(buf[..n]), start)
  {
    m := 0;
    for i := 0 to n
      invariant m <= i
      invariant buf[..m] == Kept(old(buf[..i]), start)
      invariant forall j :: i <= j < n ==> buf[j] == old(buf[j])
    {
      assert old(buf[..i + 1])[..i] == old(buf[..i]);
      if buf[i] >= start {
        buf[m] := buf[i];
        m := m + 1;
      }
    }
  }

  /** Go's append on the first `m` elements: in place while there is room, else in a new array. */
  method Append(buf: array<int>, m: nat, t: int) returns (s: Slice)
    requires m <= buf.Length
    modifies buf
    ensures s.buf == buf || fresh(s.buf)
    ensures s.len == m + 1 <= s.buf.Length
    ensures s.buf[..s.len] == old(buf[..m]) + [t]
  {
    var room := buf;
    if m == buf.Length {
      room := new int[2 * m + 1];
      for i := 0 to m
        invariant room[..i] == old(buf[..i])
        modifies room
      {
        room[i] := buf[i];
      }
    }
    room[m] := t;
    s := Slice(room, m + 1);
  }

  lemma OverwriteForgets(m: Log, n: Log, key: string, ts: seq<int>)
    requires m - {key} == n - {key}
    ensures m[key := ts] == n[key := ts]
  {
    var m', n' := m - {key}, n - {key};
    assert forall k :: k in m && k != key ==> k in m' && k in n' && m[k] == m'[k] == n'[k] == n[k];
    assert forall k :: k in n && k != key ==> k in m' && k in n' && m[k] == m'[k] == n'[k] == n[k];
  }

  class MemLimiter {
    var keys: map<string, Slice>
    ghost var log: Log                         // what the slices hold
    ghost var owner: map<array<int>, string>   // no two keys share a backing array

    ghost predicate Valid()
      reads this, owner.Keys
    {
      && keys.Keys == log.Keys
      && (forall k :: k in keys ==> Owns(k, keys[k].buf) && keys[k].buf in owner && Holds(keys[k], log[k]))
    }

    ghost predicate Owns(key: string, buf: array<int>)
      reads this
    {
      buf in owner ==> owner[buf] == key
    }

    constructor ()
      ensures Valid() && log == map[] && owner == map[]
    {
      keys, log, owner := map[], map[], map[];
    }

    /** The defensive sweep over all keys, in whatever order the map yields them. */
    method Purge(start: int)
      requires Valid()
      modifies this`keys, this`log
      ensures Valid()
      ensures log == Purged(old(log), start)
      ensures forall k :: k in keys ==> k in old(keys) && keys[k] == old(keys[k])
    {
      var pending := keys.Keys;
      ghost var gone := {};
      while pending != {}
        invariant pending <= old(keys).Keys && gone !! pending
        invariant keys == old(keys) - gone && log == old(log) - gone
        invariant forall k :: k in old(log) && k !in pending ==> (k in gone <==> Stale(old(log)[k], start))
        decreases pending
      {
        var k :| k in pending;
        var s := keys[k];
        assert Holds(s, old(log)[k]);
        if s.len == 0 || s.buf[s.len - 1] < start {
          keys, log, gone := keys - {k}, log - {k}, gone + {k};
        }
        pending := pending - {k};
      }
    }

    method Sweep(start: int)
      requires Valid()
      modifies this`keys, this`log
      ensures Valid()
      ensures log == Swept(old(log), start)
      ensures forall k :: k in keys ==> k in old(keys) && keys[k] == old(keys[k])
    {
      if |keys| > MAX_MEM_KEYS {
        Purge(start);
      }
    }

    /** Compacts the slice stored under `key`; the table entry is overwritten by Allow below. */
    method Prune(key: string, start: int) returns (s: Slice)
      requires Valid()
      modifies this`log, owner.Keys
      ensures Valid() && Owns(key, s.buf)
      ensures Holds(s, Kept(Get(old(log), key), start))
      ensures if key in keys then s.buf == keys[key].buf else fresh(s.buf)
      ensures log - {key} == old(log) - {key}
    {
      if key in keys {
        var buf := keys[key].buf;
        assert buf[..keys[key].len] == log[key];
        var m := CompactInPlace(buf, keys[key].len, start);
        s := Slice(buf, m);
        log := log[key := buf[..keys[key].len]];
      } else {
        var empty := new int[0];
        s := Slice(empty, 0);
      }
    }

    /** Appends `t` to the pruned slice of `key`. */
    method Extend(key: string, kept: Slice, t: int) returns (s: Slice)
      requires Valid() && Owns(key, kept.buf) && kept.len <= kept.buf.Length
      requires key in keys ==> kept.buf == keys[key].buf
      modifies this`log, kept.buf
      ensures Valid() && Owns(key, s.buf)
      ensures Holds(s, old(kept.buf[..kept.len]) + [t])
      ensures log - {key} == old(log) - {key}
    {
      s := Append(kept.buf, kept.len, t);
      if key in keys {
        log := log[key := keys[key].buf[..keys[key].len]];
      }
    }

    method Put(key: string, s: Slice, ghost ts: seq<int>)
      requires Valid() && Owns(key, s.buf) && Holds(s, ts)
      modifies this
      ensures Valid()
      ensures log == old(log)[key := ts]
    {
      keys, log, owner := keys[key := s], log[key := ts], owner[s.buf := key];
    }

    method Allow(key: string, limit: int, windowMs: int, now: int) returns (allowed: bool, retry: int)
      requires Valid()
      requires limit >= 1  // with limit <= 0 and nothing kept the code reads kept[0] and panics
      modifies this, owner.Keys
      ensures Valid()
      ensures log == AllowLog(old(log), key, limit, windowMs, now)
      ensures Answer(allowed, retry) == AllowAnswer(old(log), key, limit, windowMs, now)
    {
      var start := now - windowMs;
      ghost var table, answer := Swept(log, start), AllowAnswer(log, key, limit, windowMs, now);
      ghost var pruned := Kept(Get(table, key), start);
      ghost var ts := if |pruned| >= limit then pruned else pruned + [now];
      ghost var after := AllowLog(log, key, limit, windowMs, now);
      assert after == table[key := ts];
      assert answer == if |pruned| >= limit then Answer(false, RetryAfter(pruned[0], windowMs, now)) else Answer(true, 0);
      Sweep(start);
      var kept := Prune(key, start);
      assert kept.len == |pruned| && kept.buf[..kept.len] == pruned;
      if kept.len >= limit {
        assert kept.buf[0] == pruned[0];
        allowed, retry := false, RetryAfter(kept.buf[0], windowMs, now);
      } else {
        allowed, retry := true, 0;
        kept := Extend(key, kept, now);
      }
      OverwriteForgets(log, table, key, ts);
      Put(key, kept, ts);
    }
  }
}
