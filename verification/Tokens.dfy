// The in-memory refresh-token store (internal/pkg/cache/cache.go): set, get, delete and the
// atomic rotation, with lazy deletion on reads and a defensive sweep on writes.
module Tokens {

  const MAX_MEM_KEYS: nat := 10000

  datatype Entry = Entry(user: string, exp: int)

  type Items = map<string, Entry>

  // An operation and the clock reading it is performed at.
  datatype Op =
    | Set(token: string, user: string, ttl: int)
    | Get(token: string)
    | Del(token: string)
    | Rotate(token: string, next: string, ttl: int)

  datatype Timed = Timed(op: Op, now: int)

  datatype Reply = Done | Missing | Found(user: string)

  predicate Live(m: Items, token: string, now: int) {
    token in m && now <= m[token].exp
  }

  function Swept(m: Items, now: int): Items {
    if |m| > MAX_MEM_KEYS then map k | k in m && now <= m[k].exp :: m[k] else m
  }

  function Step(m: Items, c: Timed): Items {
    match c.op
    case Set(token, user, ttl) => Swept(m, c.now)[token := Entry(user, c.now + ttl)]
    case Get(token) => if token in m && !Live(m, token, c.now) then m - {token} else m
    case Del(token) => m - {token}
    case Rotate(token, next, ttl) =>
      if Live(m, token, c.now) then (m - {token})[next := Entry(m[token].user, c.now + ttl)] else m
  }

  function Respond(m: Items, c: Timed): Reply {
    if c.op.Set? || c.op.Del? then Done
    else if Live(m, c.op.token, c.now) then Found(m[c.op.token].user)
    else Missing
  }

  class KvTokenStore {
    var items: Items

    constructor ()
      ensures items == map[]
    {
      items := map[];
    }

    method Sweep(now: int)
      modifies this
      ensures items == Swept(old(items), now)
    {
      if |items| > MAX_MEM_KEYS {
        var pending := items.Keys;
        ghost var gone := {};
        while pending != {}
          invariant pending <= old(items).Keys && gone !! pending
          invariant items == old(items) - gone
          invariant forall k :: k in old(items) && k !in pending ==> (k in gone <==> now > old(items)[k].exp)
          decreases pending
        {
          var k :| k in pending;
          if now > items[k].exp {
            items, gone := items - {k}, gone + {k};
          }
          pending := pending - {k};
        }
      }
    }

    method Set(token: string, user: string, ttl: int, now: int)
      modifies this
      ensures items == Step(old(items), Timed(Op.Set(token, user, ttl), now))
    {
      Sweep(now);
      items := items[token := Entry(user, now + ttl)];
    }

    method Get(token: string, now: int) returns (user: string, ok: bool)
      modifies this
      ensures items == Step(old(items), Timed(Op.Get(token), now))
      ensures Respond(old(items), Timed(Op.Get(token), now)) == if ok then Found(user) else Missing
    {
      if token !in items {
        return "", false;
      }
      if now > items[token].exp {
        items := items - {token};
        return "", false;
      }
      return items[token].user, true;
    }

    method Del(token: string, now: int)
      modifies this
      ensures items == Step(old(items), Timed(Op.Del(token), now))
    {
      items := items - {token};
    }

    method Rotate(token: string, next: string, ttl: int, now: int) returns (user: string, ok: bool)
      modifies this
      ensures items == Step(old(items), Timed(Op.Rotate(token, next, ttl), now))
      ensures Respond(old(items), Timed(Op.Rotate(token, next, ttl), now)) == if ok then Found(user) else Missing
    {
      if token !in items || now > items[token].exp {
        return "", false;
      }
      user, ok := items[token].user, true;
      items := items - {token};
      items := items[next := Entry(user, now + ttl)];
    }
  }

  // ---------- runs ----------

  predicate Chronological(run: seq<Timed>, from: int) {
    run == [] || (from <= run[0].now && Chronological(run[1..], run[0].now))
  }

  function Replies(m: Items, run: seq<Timed>): (replies: seq<Reply>)
    ensures |replies| == |run|
    decreases run
  {
    if run == [] then [] else [Respond(m, run[0])] + Replies(Step(m, run[0]), run[1..])
  }

  // The reference never deletes an expired token.
  function RefStep(m: Items, c: Timed): Items {
    match c.op
    case Set(token, user, ttl) => m[token := Entry(user, c.now + ttl)]
    case Get(_) => m
    case Del(_) => Step(m, c)
    case Rotate(_, _, _) => Step(m, c)
  }

  function RefReplies(m: Items, run: seq<Timed>): seq<Reply>
    decreases run
  {
    if run == [] then [] else [Respond(m, run[0])] + RefReplies(RefStep(m, run[0]), run[1..])
  }

  // Both stores hold the same live tokens.
  ghost predicate SameLive(m: Items, n: Items, now: int) {
    forall k :: Live(m, k, now) || Live(n, k, now) ==> k in m && k in n && m[k] == n[k]
  }

  lemma StepSameAt(m: Items, n: Items, c: Timed, before: int, k: string)
    requires SameLive(m, n, before) && before <= c.now
    requires Live(Step(m, c), k, c.now) || Live(RefStep(n, c), k, c.now)
    ensures k in Step(m, c) && k in RefStep(n, c) && Step(m, c)[k] == RefStep(n, c)[k]
  {
    if c.op.Rotate? {
      assert Live(m, c.op.token, before) || Live(n, c.op.token, before) ==> c.op.token in m && c.op.token in n;
    }
    if k in m || k in n {
      assert Live(m, k, c.now) || Live(n, k, c.now) ==> Live(m, k, before) || Live(n, k, before);
    }
  }

  lemma StepSame(m: Items, n: Items, c: Timed, before: int)
    requires SameLive(m, n, before) && before <= c.now
    ensures Respond(m, c) == Respond(n, c)
    ensures SameLive(Step(m, c), RefStep(n, c), c.now)
  {
    if c.op.Get? || c.op.Rotate? {
      assert Live(m, c.op.token, c.now) || Live(n, c.op.token, c.now) ==>
        Live(m, c.op.token, before) || Live(n, c.op.token, before);
    }
    forall k | Live(Step(m, c), k, c.now) || Live(RefStep(n, c), k, c.now)
      ensures k in Step(m, c) && k in RefStep(n, c) && Step(m, c)[k] == RefStep(n, c)[k]
    {
      StepSameAt(m, n, c, before, k);
    }
  }

  /** Sweeping and lazy deletion change no answer, in any run of operations. */
  lemma {:induction false} PruningIsInvisible(m: Items, n: Items, run: seq<Timed>, from: int)
    requires SameLive(m, n, from) && Chronological(run, from)
    ensures Replies(m, run) == RefReplies(n, run)
    decreases run
  {
    if run != [] {
      StepSame(m, n, run[0], from);
      PruningIsInvisible(Step(m, run[0]), RefStep(n, run[0]), run[1..], run[0].now);
    }
  }

  // ---------- rotation chains ----------

  // The store together with the login that each token descends from, and for each login its
  // user and the token issued last.
  datatype Traced = Traced(items: Items, login: map<string, nat>, users: seq<string>, latest: seq<string>)

  function Trace(s: Traced, c: Timed): Traced {
    var items := Step(s.items, c);
    match c.op
    case Set(token, user, _) =>
      Traced(items, s.login[token := |s.users|], s.users + [user], s.latest + [token])
    case Rotate(token, next, _) =>
      if Live(s.items, token, c.now) && token in s.login && s.login[token] < |s.latest| then
        s.(items := items, login := s.login[next := s.login[token]], latest := s.latest[s.login[token] := next])
      else s.(items := items)
    case _ => s.(items := items)
  }

  function Introduces(op: Op): set<string> {
    match op
    case Set(token, _, _) => {token}
    case Rotate(_, next, _) => {next}
    case _ => {}
  }

  // A stored token belongs to the user of its login and is the last one issued for it.
  ghost predicate Linked(s: Traced, t: string) {
    && t in s.login && s.login[t] < |s.users| == |s.latest|
    && (t in s.items ==> s.items[t].user == s.users[s.login[t]])
    && s.latest[s.login[t]] == t
  }

  ghost predicate Chained(s: Traced) {
    |s.users| == |s.latest| && forall t :: t in s.items ==> Linked(s, t)
  }

  lemma LinkedStep(s: Traced, c: Timed, used: set<string>, t: string)
    requires Chained(s) && s.login.Keys <= used && Introduces(c.op) !! used
    requires t in Step(s.items, c)
    ensures Linked(Trace(s, c), t)
  {
    if t !in Introduces(c.op) {
      assert t in s.items && Linked(s, t) && s.items[t] == Step(s.items, c)[t];
      if c.op.Rotate? && Live(s.items, c.op.token, c.now) {
        assert Linked(s, c.op.token) && t != c.op.token;
      }
    } else {
      assert c.op.Rotate? && Live(s.items, c.op.token, c.now) ==> Linked(s, c.op.token);
      assert t !in s.items by { assert t in s.items ==> Linked(s, t); }
    }
  }

  // The store with its logins when the i-th call comes.
  function TraceAt(run: seq<Timed>, i: nat): Traced
    requires i <= |run|
  {
    if i == 0 then Traced(map[], map[], [], []) else Trace(TraceAt(run, i - 1), run[i - 1])
  }

  ghost function Used(run: seq<Timed>, i: nat): set<string>
    requires i <= |run|
  {
    if i == 0 then {} else Used(run, i - 1) + Introduces(run[i - 1].op)
  }

  // Every token set or rotated to is a new one.
  ghost predicate FreshAt(run: seq<Timed>, i: nat)
    requires i <= |run|
  {
    i == 0 || (FreshAt(run, i - 1) && Introduces(run[i - 1].op) !! Used(run, i - 1))
  }

  lemma {:induction false} ChainedAt(run: seq<Timed>, i: nat)
    requires i <= |run| && FreshAt(run, i)
    ensures Chained(TraceAt(run, i)) && TraceAt(run, i).login.Keys <= Used(run, i)
  {
    if i > 0 {
      var k := i - 1;
      ChainedAt(run, k);
      ChainedStep(TraceAt(run, k), run[k], Used(run, k));
    }
  }

  lemma ChainedStep(s: Traced, c: Timed, used: set<string>)
    requires Chained(s) && s.login.Keys <= used && Introduces(c.op) !! used
    ensures Chained(Trace(s, c)) && Trace(s, c).login.Keys <= used + Introduces(c.op)
  {
    var next := Trace(s, c);
    forall t | t in next.items
      ensures Linked(next, t)
    {
      LinkedStep(s, c, used, t);
    }
  }

  /** After any run with fresh tokens, each login has at most one stored token, and every
      stored token belongs to the user of the login it descends from. */
  lemma OneTokenPerLogin(run: seq<Timed>, t: string, u: string)
    requires FreshAt(run, |run|)
    ensures var s := TraceAt(run, |run|);
      t in s.items && u in s.items ==>
        && t in s.login && u in s.login && s.login[t] < |s.users|
        && s.items[t].user == s.users[s.login[t]]
        && (s.login[t] == s.login[u] ==> t == u)
  {
    ChainedAt(run, |run|);
    var s := TraceAt(run, |run|);
    assert t in s.items && u in s.items ==> Linked(s, t) && Linked(s, u);
  }

  // ---------- each token is rotated at most once ----------

  predicate NeverIntroduced(run: seq<Timed>, token: string) {
    forall i :: 0 <= i < |run| ==> token !in Introduces(run[i].op)
  }

  predicate NeverDeleted(run: seq<Timed>, token: string) {
    forall i :: 0 <= i < |run| ==> run[i].op != Op.Del(token)
  }

  predicate Attempts(c: Timed, token: string) {
    c.op.Rotate? && c.op.token == token
  }

  predicate Uses(c: Timed, token: string) {
    (c.op.Get? || c.op.Rotate?) && c.op.token == token
  }

  function Wins(run: seq<Timed>, replies: seq<Reply>, token: string): nat
    requires |run| == |replies|
    decreases run
  {
    if run == [] then 0
    else (if Attempts(run[0], token) && replies[0].Found? then 1 else 0) + Wins(run[1..], replies[1..], token)
  }

  /** A token that is not stored stays unusable until it is set anew. */
  lemma {:induction false} GoneStaysGone(m: Items, run: seq<Timed>, token: string)
    requires token !in m && NeverIntroduced(run, token)
    ensures forall i :: 0 <= i < |run| && Uses(run[i], token) ==> Replies(m, run)[i] == Missing
    ensures Wins(run, Replies(m, run), token) == 0
    decreases run
  {
    if run != [] {
      assert token !in Introduces(run[0].op);
      assert token !in Step(m, run[0]);
      assert forall i :: 0 <= i < |run| - 1 ==> run[1..][i] == run[i + 1];
      GoneStaysGone(Step(m, run[0]), run[1..], token);
    }
  }

  function FirstAttempt(run: seq<Timed>, token: string): (i: nat)
    ensures i <= |run| && (i < |run| ==> Attempts(run[i], token))
    ensures forall j :: 0 <= j < i ==> !Attempts(run[j], token)
    decreases run
  {
    if run == [] || Attempts(run[0], token) then 0 else 1 + FirstAttempt(run[1..], token)
  }

  /** Of any interleaved rotations of a stored token, exactly one succeeds if the first of them
      comes before the token expires, and none otherwise. */
  lemma {:induction false} ExactlyOneRotation(m: Items, run: seq<Timed>, token: string, from: int)
    requires token in m && Chronological(run, from)
    requires NeverIntroduced(run, token) && NeverDeleted(run, token)
    ensures var i := FirstAttempt(run, token);
      Wins(run, Replies(m, run), token) == if i < |run| && run[i].now <= m[token].exp then 1 else 0
    decreases run
  {
    if run != [] {
      var c, rest, n := run[0], run[1..], Step(m, run[0]);
      var replies := Replies(m, run);
      assert replies[0] == Respond(m, c) && replies[1..] == Replies(n, rest);
      assert token !in Introduces(c.op) && c.op != Op.Del(token);
      LateAttempt(rest, token, c.now);
      if token in n {
        assert n[token] == m[token];
        ExactlyOneRotation(n, rest, token, c.now);
      } else {
        GoneStaysGone(n, rest, token);
      }
    }
  }

  lemma {:induction false} LateAttempt(run: seq<Timed>, token: string, from: int)
    requires Chronological(run, from)
    ensures var i := FirstAttempt(run, token); i < |run| ==> run[i].now >= from
    decreases run
  {
    if run != [] && !Attempts(run[0], token) {
      LateAttempt(run[1..], token, run[0].now);
    }
  }

  /** A rotated-out or deleted token is never accepted again unless it is set anew. */
  lemma RevokedForever(m: Items, c: Timed, run: seq<Timed>, token: string)
    requires (Attempts(c, token) && c.op.next != token && Respond(m, c).Found?) || c.op == Op.Del(token)
    requires NeverIntroduced(run, token)
    ensures forall i :: 0 <= i < |run| && Uses(run[i], token) ==> Replies(Step(m, c), run)[i] == Missing
  {
    GoneStaysGone(Step(m, c), run, token);
  }

  // ---------- what a use is answered ----------

  // The store when the i-th call of the run comes.
  function StoreAt(m: Items, run: seq<Timed>, i: nat): Items
    requires i <= |run|
  {
    if i == 0 then m else Step(StoreAt(m, run, i - 1), run[i - 1])
  }

  lemma {:induction false} StoreAtTail(m: Items, run: seq<Timed>, i: nat)
    requires 0 < i <= |run|
    ensures StoreAt(m, run, i) == StoreAt(Step(m, run[0]), run[1..], i - 1)
  {
    var k := i - 1;
    if k > 0 {
      StoreAtTail(m, run, k);
      assert run[1..][k - 1] == run[k];
    } else {
      assert StoreAt(m, run, 0) == m;
    }
  }

  lemma {:induction false} ReplyTail(m: Items, run: seq<Timed>, i: nat)
    requires 0 < i < |run|
    ensures Replies(m, run)[i] == Replies(Step(m, run[0]), run[1..])[i - 1]
  {
  }

  lemma {:induction false} ReplyAt(m: Items, run: seq<Timed>, i: nat)
    requires i < |run|
    ensures Replies(m, run)[i] == Respond(StoreAt(m, run, i), run[i])
    decreases i
  {
    if i > 0 {
      var rest, k := run[1..], i - 1;
      assert rest[k] == run[i];
      ReplyAt(Step(m, run[0]), rest, k);
      StoreAtTail(m, run, i);
      ReplyTail(m, run, i);
    }
  }

  lemma {:induction false} SameStore(run: seq<Timed>, i: nat)
    requires i <= |run|
    ensures TraceAt(run, i).items == StoreAt(map[], run, i)
  {
    if i > 0 {
      var k := i - 1;
      SameStore(run, k);
      TraceItems(TraceAt(run, k), run[k]);
    }
  }

  lemma TraceItems(s: Traced, c: Timed)
    ensures Trace(s, c).items == Step(s.items, c)
  {
  }

  /** Over any run with fresh tokens from the empty store on: a use that is answered with a user is
      answered with the user of the login that the token descends from, the one that some earlier
      `Set` was given. */
  lemma AnswersAreLogins(run: seq<Timed>, i: nat, token: string)
    requires i < |run| && FreshAt(run, i) && Uses(run[i], token) && Replies(map[], run)[i] != Missing
    ensures var before := TraceAt(run, i);
      && token in before.login && before.login[token] < |before.users|
      && Replies(map[], run)[i] == Found(before.users[before.login[token]])
  {
    ReplyAt(map[], run, i);
    SameStore(run, i);
    ChainedAt(run, i);
    assert Linked(TraceAt(run, i), token);
  }

  // A call after which the token is used up: a rotation attempt or a deletion.
  predicate Ends(c: Timed, token: string) { Attempts(c, token) || c.op == Op.Del(token) }

  ghost predicate Ended(run: seq<Timed>, i: nat, token: string)
    requires i <= |run|
  {
    exists j :: 0 <= j < i && Ends(run[j], token)
  }

  // What is left of an entry that was stored before the run.
  ghost predicate Remains(m: Items, token: string, e: Entry, now: int, ended: bool) {
    && (token in m ==> m[token] == e)
    && (now > e.exp || (token in m <==> !ended))
  }

  lemma {:induction false} InOrder(run: seq<Timed>, from: int, i: nat)
    requires Chronological(run, from) && i < |run|
    ensures run[i].now >= if i == 0 then from else run[i - 1].now
    decreases i
  {
    if i > 0 {
      var rest, k := run[1..], i - 1;
      InOrder(rest, run[0].now, k);
    }
  }

  lemma RemainsStep(m: Items, c: Timed, token: string, e: Entry, now: int, ended: bool)
    requires Remains(m, token, e, now, ended) && now <= c.now && token !in Introduces(c.op)
    ensures Remains(Step(m, c), token, e, c.now, ended || Ends(c, token))
  {
  }

  lemma {:induction false} RemainsAt(m: Items, run: seq<Timed>, token: string, e: Entry, from: int, i: nat)
    requires token in m && m[token] == e
    requires Chronological(run, from) && NeverIntroduced(run, token) && i <= |run|
    ensures Remains(StoreAt(m, run, i), token, e, if i == 0 then from else run[i - 1].now, Ended(run, i, token))
  {
    if i > 0 {
      var k := i - 1;
      RemainsAt(m, run, token, e, from, k);
      InOrder(run, from, k);
      var now := if k == 0 then from else run[k - 1].now;
      RemainsStep(StoreAt(m, run, k), run[k], token, e, now, Ended(run, k, token));
      assert Ended(run, i, token) <==> Ended(run, k, token) || Ends(run[k], token);
    }
  }

  /** A token stored for a user until some time, and not introduced again: a use is answered with
      that user if and only if it comes in time, before any rotation attempt and any deletion. */
  lemma StoredAnswers(m: Items, run: seq<Timed>, token: string, e: Entry, from: int, i: nat)
    requires token in m && m[token] == e
    requires Chronological(run, from) && NeverIntroduced(run, token) && i < |run| && Uses(run[i], token)
    ensures Replies(m, run)[i] == if run[i].now <= e.exp && !Ended(run, i, token) then Found(e.user) else Missing
  {
    ReplyAt(m, run, i);
    RemainsAt(m, run, token, e, from, i);
    InOrder(run, from, i);
  }

  /** After `Set` of a token for a user at some time, whatever was stored before: a later use is
      answered with that user up to the end of the lifetime, and refused after it, after a rotation
      attempt and after a deletion. */
  lemma SetAnswers(m: Items, token: string, user: string, ttl: int, now: int, run: seq<Timed>, i: nat)
    requires Chronological(run, now) && NeverIntroduced(run, token) && i < |run| && Uses(run[i], token)
    ensures Replies(m, [Timed(Op.Set(token, user, ttl), now)] + run)[i + 1]
      == if run[i].now <= now + ttl && !Ended(run, i, token) then Found(user) else Missing
  {
    var c := Timed(Op.Set(token, user, ttl), now);
    assert ([c] + run)[1..] == run;
    StoredAnswers(Step(m, c), run, token, Entry(user, now + ttl), now, i);
  }

  /** After a rotation that was answered with a user, the same holds of the new token, for that
      user and the new lifetime; the old one is refused from then on. */
  lemma RotateAnswers(m: Items, token: string, next: string, ttl: int, user: string, now: int, run: seq<Timed>, i: nat)
    requires var c := Timed(Op.Rotate(token, next, ttl), now);
      Chronological(run, now) && i < |run| && Replies(m, [c] + run)[0] == Found(user)
    ensures var c := Timed(Op.Rotate(token, next, ttl), now);
      && (NeverIntroduced(run, next) && Uses(run[i], next) ==>
            Replies(m, [c] + run)[i + 1]
            == if run[i].now <= now + ttl && !Ended(run, i, next) then Found(user) else Missing)
      && (NeverIntroduced(run, token) && Uses(run[i], token) && token != next ==>
            Replies(m, [c] + run)[i + 1] == Missing)
  {
    var c := Timed(Op.Rotate(token, next, ttl), now);
    assert ([c] + run)[1..] == run;
    if NeverIntroduced(run, next) && Uses(run[i], next) {
      StoredAnswers(Step(m, c), run, next, Entry(user, now + ttl), now, i);
    }
    if NeverIntroduced(run, token) && Uses(run[i], token) && token != next {
      GoneStaysGone(Step(m, c), run, token);
    }
  }
}
