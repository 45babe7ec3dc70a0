// The in-memory nonce cache against replayed signatures (internal/pkg/cache/cache.go).
module Nonces {

  const MAX_MEM_KEYS: nat := 10000

  datatype Call = Call(key: string, ttl: int, now: int)

  // Each key with the time until which it is refused.
  type Items = map<string, int>

  function Swept(m: Items, now: int): Items {
    if |m| > MAX_MEM_KEYS then map k | k in m && now <= m[k] :: m[k] else m
  }

  predicate Accepts(m: Items, c: Call) {
    !(c.key in Swept(m, c.now) && c.now < Swept(m, c.now)[c.key])
  }

  function Step(m: Items, c: Call): Items {
    if Accepts(m, c) then Swept(m, c.now)[c.key := c.now + c.ttl] else Swept(m, c.now)
  }

  class NonceCache {
    var items: Items

    constructor ()
      ensures items == map[]
    {
      items := map[];
    }

    method Add(key: string, ttl: int, now: int) returns (unseen: bool)
      modifies this
      ensures unseen == Accepts(old(items), Call(key, ttl, now))
      ensures items == Step(old(items), Call(key, ttl, now))
    {
      if |items| > MAX_MEM_KEYS {
        var pending := items.Keys;
        ghost var gone := {};
        while pending != {}
          invariant pending <= old(items).Keys && gone !! pending
          invariant items == old(items) - gone
          invariant forall k :: k in old(items) && k !in pending ==> (k in gone <==> now > old(items)[k])
          decreases pending
        {
          var k :| k in pending;
          if now > items[k] {
            items, gone := items - {k}, gone + {k};
          }
          pending := pending - {k};
        }
      }
      assert items == Swept(old(items), now);
      if key in items && now < items[key] {
        return false;
      }
      items := items[key := now + ttl];
      return true;
    }
  }

  // ---------- runs ----------

  predicate Chronological(calls: seq<Call>) {
    forall i, j :: 0 <= i < j < |calls| ==> calls[i].now <= calls[j].now
  }

  // The table and the accepted calls, in order, after a run.
  function Table(calls: seq<Call>): Items {
    if calls == [] then map[] else Step(Table(calls[..|calls| - 1]), calls[|calls| - 1])
  }

  function Accepted(calls: seq<Call>): seq<Call> {
    if calls == [] then []
    else
      var front, last := calls[..|calls| - 1], calls[|calls| - 1];
      if Accepts(Table(front), last) then Accepted(front) + [last] else Accepted(front)
  }

  // At time t some accepted use of the key is less than its ttl old.
  predicate Blocked(accepted: seq<Call>, key: string, t: int) {
    exists i :: 0 <= i < |accepted| && accepted[i].key == key && t < accepted[i].now + accepted[i].ttl
  }

  predicate Refuses(m: Items, key: string, t: int) {
    key in m && t < m[key]
  }

  lemma StepRefuses(m: Items, accepted: seq<Call>, c: Call, key: string, t: int)
    requires t >= c.now
    requires Refuses(m, key, t) <==> Blocked(accepted, key, t)
    requires Refuses(m, c.key, c.now) <==> Blocked(accepted, c.key, c.now)
    ensures Refuses(Step(m, c), key, t) <==> Blocked(if Accepts(m, c) then accepted + [c] else accepted, key, t)
  {
    assert Refuses(Swept(m, c.now), key, t) <==> Refuses(m, key, t);
    assert Accepts(m, c) <==> !Refuses(m, c.key, c.now);
    if Accepts(m, c) {
      BlockedAppend(accepted, c, key, t);
      assert key == c.key && Blocked(accepted, key, t) ==> Blocked(accepted, key, c.now);
    }
  }

  lemma BlockedAppend(accepted: seq<Call>, c: Call, key: string, t: int)
    ensures Blocked(accepted + [c], key, t) <==> Blocked(accepted, key, t) || (c.key == key && t < c.now + c.ttl)
  {
    var all := accepted + [c];
    if Blocked(accepted, key, t) {
      var i :| 0 <= i < |accepted| && accepted[i].key == key && t < accepted[i].now + accepted[i].ttl;
      assert all[i] == accepted[i];
    }
    if c.key == key && t < c.now + c.ttl {
      assert all[|accepted|] == c;
    }
  }

  /** After any run of calls, and at any later time, the pruned table refuses exactly the keys of
      which an accepted use is less than its ttl old: no replay slips through the sweep. */
  lemma {:induction false} RefusesIffReplayed(calls: seq<Call>, key: string, t: int)
    requires Chronological(calls) && (calls == [] || calls[|calls| - 1].now <= t)
    ensures Refuses(Table(calls), key, t) <==> Blocked(Accepted(calls), key, t)
  {
    if calls != [] {
      var front, last := calls[..|calls| - 1], calls[|calls| - 1];
      RefusesIffReplayed(front, key, t);
      RefusesIffReplayed(front, last.key, last.now);
      StepRefuses(Table(front), Accepted(front), last, key, t);
    }
  }

  predicate AcceptedAt(calls: seq<Call>, i: nat)
    requires i < |calls|
  {
    Accepts(Table(calls[..i]), calls[i])
  }

  lemma {:induction false} AcceptedHas(calls: seq<Call>, i: nat)
    requires i < |calls| && AcceptedAt(calls, i)
    ensures calls[i] in Accepted(calls)
  {
    var front := calls[..|calls| - 1];
    if i < |front| {
      assert front[..i] == calls[..i];
      AcceptedHas(front, i);
    }
  }

  /** Two accepted uses of one nonce are at least the first one's ttl apart. */
  lemma AcceptedUsesAreSpaced(calls: seq<Call>, i: nat, j: nat)
    requires Chronological(calls) && i < j < |calls| && calls[i].key == calls[j].key
    requires AcceptedAt(calls, i) && AcceptedAt(calls, j)
    ensures calls[j].now >= calls[i].now + calls[i].ttl
  {
    var past, c := calls[..j], calls[j];
    assert past[..i] == calls[..i];
    AcceptedHas(past, i);
    RefusesIffReplayed(past, c.key, c.now);
    assert !Refuses(Table(past), c.key, c.now);
  }

  lemma {:induction false} AcceptedComesFrom(calls: seq<Call>, c: Call) returns (i: nat)
    requires c in Accepted(calls)
    ensures i < |calls| && calls[i] == c && AcceptedAt(calls, i)
  {
    var n := |calls| - 1;
    if AcceptedAt(calls, n) && calls[n] == c {
      i := n;
    } else {
      i := AcceptedComesFrom(calls[..n], c);
      assert calls[..n][..i] == calls[..i];
    }
  }

  // Every accepted earlier call with the same key is at least its ttl old.
  ghost predicate Unused(calls: seq<Call>, j: nat)
    requires j < |calls|
  {
    forall i :: 0 <= i < j && AcceptedAt(calls, i) && calls[i].key == calls[j].key ==>
      calls[j].now >= calls[i].now + calls[i].ttl
  }

  /** In any run of calls, a call is accepted if and only if every earlier accepted call with the
      same key is at least its own ttl old. */
  lemma AcceptedIffUnused(calls: seq<Call>, j: nat)
    requires Chronological(calls) && j < |calls|
    ensures AcceptedAt(calls, j) <==> Unused(calls, j)
  {
    var past, c := calls[..j], calls[j];
    assert forall i :: 0 <= i < j ==> past[..i] == calls[..i];
    RefusesIffReplayed(past, c.key, c.now);
    assert AcceptedAt(calls, j) <==> !Refuses(Table(past), c.key, c.now);
    if Blocked(Accepted(past), c.key, c.now) {
      var k :| 0 <= k < |Accepted(past)| && Accepted(past)[k].key == c.key
               && c.now < Accepted(past)[k].now + Accepted(past)[k].ttl;
      var i := AcceptedComesFrom(past, Accepted(past)[k]);
      assert AcceptedAt(calls, i);
    } else {
      forall i | 0 <= i < j && AcceptedAt(calls, i) && calls[i].key == c.key
        ensures c.now >= calls[i].now + calls[i].ttl
      {
        AcceptedHas(past, i);
      }
    }
  }
}
