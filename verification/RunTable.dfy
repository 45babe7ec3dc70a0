// The engine's table of backtest runs (internal/backtest/engine.go): who may start, resume,
// stop and delete what, and when two runs of one user can be running at once.
module RunTable {
  import opened Replay

  datatype Entry = Entry(user: string, status: Status)

  type Table = map<string, Entry>

  // Loop is the unconditional final status written by a run's loop.
  datatype Op =
    | StartRun(user: string, id: string)
    | PauseRun(id: string)
    | ResumeRun(id: string)
    | StopRun(id: string)
    | DeleteRun(id: string)
    | Finish(id: string, completed: bool)

  // A run without an owner stands in everybody's way.
  predicate SameUser(a: string, b: string) {
    a == "" || b == "" || a == b
  }

  predicate Busy(m: Table, user: string) {
    exists k :: k in m && m[k].status.Running? && SameUser(user, m[k].user)
  }

  predicate Accepted(m: Table, op: Op) {
    match op
    case StartRun(user, id) => id !in m && !Busy(m, user)
    case PauseRun(id) => id in m && m[id].status.Running?
    case ResumeRun(id) => id in m && m[id].status.Paused?
    case StopRun(id) => id in m && !(m[id].status.Completed? || m[id].status.Stopped? || m[id].status.Failed?)
    case DeleteRun(id) => id in m && !(m[id].status.Running? || m[id].status.Paused?)
    case Finish(id, _) => id in m
  }

  function Step(m: Table, op: Op): Table {
    if !Accepted(m, op) then m
    else match op
      case StartRun(user, id) => m[id := Entry(user, Running)]
      case PauseRun(id) => m[id := m[id].(status := Paused)]
      case ResumeRun(id) => m[id := m[id].(status := Running)]
      case StopRun(id) => m[id := m[id].(status := Stopped)]
      case DeleteRun(id) => m - {id}
      case Finish(id, completed) => m[id := m[id].(status := if completed then Completed else Liquidated)]
  }

  class Engine {
    var runs: Table

    constructor ()
      ensures runs == map[]
    {
      runs := map[];
    }

    /** Looks at the runs in whatever order the map yields them; `id` is the new random run id. */
    method Start(user: string, id: string) returns (ok: bool)
      requires id !in runs
      modifies this
      ensures runs == Step(old(runs), StartRun(user, id))
      ensures ok == Accepted(old(runs), StartRun(user, id))
    {
      var pending := runs.Keys;
      while pending != {}
        invariant pending <= runs.Keys && runs == old(runs)
        invariant forall k :: k in runs && k !in pending ==> !(runs[k].status.Running? && SameUser(user, runs[k].user))
        decreases pending
      {
        var k :| k in pending;
        if runs[k].status == Running && SameUser(user, runs[k].user) {
          return false;
        }
        pending := pending - {k};
      }
      runs := runs[id := Entry(user, Running)];
      return true;
    }

    method Resume(id: string) returns (ok: bool)
      modifies this
      ensures runs == Step(old(runs), ResumeRun(id)) && ok == Accepted(old(runs), ResumeRun(id))
    {
      if id !in runs || runs[id].status != Paused {
        return false;
      }
      runs := runs[id := runs[id].(status := Running)];
      return true;
    }

    method Delete(id: string) returns (ok: bool)
      modifies this
      ensures runs == Step(old(runs), DeleteRun(id)) && ok == Accepted(old(runs), DeleteRun(id))
    {
      if id !in runs || runs[id].status == Running || runs[id].status == Paused {
        return false;
      }
      runs := runs - {id};
      return true;
    }
  }

  // ---------- at most one running run per user ----------

  ghost predicate Exclusive(m: Table) {
    forall a, b :: a in m && b in m && a != b && m[a].status.Running? && m[b].status.Running?
      ==> !SameUser(m[a].user, m[b].user)
  }

  // The check that Start makes and Resume leaves out.
  predicate Clean(m: Table, op: Op) {
    op.ResumeRun? && Accepted(m, op) ==> !Busy(m, m[op.id].user)
  }

  /** Starting, pausing, stopping, deleting and finishing keep the running runs exclusive; an
      accepted resume does exactly when no run of the same user is running. */
  lemma StepExclusiveIff(m: Table, op: Op)
    requires Exclusive(m)
    ensures Exclusive(Step(m, op)) <==> Clean(m, op)
  {
    var n := Step(m, op);
    if Accepted(m, op) && !op.DeleteRun? {
      assert forall k :: k in n && k != op.id ==> k in m && n[k] == m[k];
      assert forall k :: k in m && k != op.id ==> k in n && n[k] == m[k];
      if op.ResumeRun? && Busy(m, m[op.id].user) {
        var k :| k in m && m[k].status.Running? && SameUser(m[op.id].user, m[k].user);
        assert n[k].status.Running? && n[op.id].status.Running? && k != op.id;
      }
    }
  }

  function After(ops: seq<Op>): Table {
    if ops == [] then map[] else Step(After(ops[..|ops| - 1]), ops[|ops| - 1])
  }

  // The rule held after every operation so far.
  ghost predicate AlwaysExclusive(ops: seq<Op>) {
    Exclusive(After(ops)) && (ops == [] || AlwaysExclusive(ops[..|ops| - 1]))
  }

  predicate AlwaysClean(ops: seq<Op>) {
    ops == [] || (AlwaysClean(ops[..|ops| - 1]) && Clean(After(ops[..|ops| - 1]), ops[|ops| - 1]))
  }

  /** Over a whole history: no user ever has two running runs if and only if every accepted
      resume happened while no other run of that user was running. */
  lemma {:induction false} AlwaysExclusiveIff(ops: seq<Op>)
    ensures AlwaysExclusive(ops) <==> AlwaysClean(ops)
  {
    if ops != [] {
      var front, last := ops[..|ops| - 1], ops[|ops| - 1];
      AlwaysExclusiveIff(front);
      if Exclusive(After(front)) {
        StepExclusiveIff(After(front), last);
      }
    }
  }

  /** The rule does fail: pause one run, start another, resume the first. */
  lemma ResumeBreaksTheRule(user: string, a: string, b: string)
    requires a != b
    ensures !Exclusive(After([StartRun(user, a), PauseRun(a), StartRun(user, b), ResumeRun(a)]))
  {
    var ops := [StartRun(user, a), PauseRun(a), StartRun(user, b), ResumeRun(a)];
    assert ops[..3][..2] == ops[..2] && ops[..2][..1] == ops[..1] && ops[..1][..0] == [];
    assert After(ops[..1]) == map[a := Entry(user, Running)];
    assert After(ops[..2]) == map[a := Entry(user, Paused)];
    var m := After(ops[..3]);
    assert m == map[a := Entry(user, Paused), b := Entry(user, Running)];
    assert After(ops) == m[a := Entry(user, Running)];
    assert a in After(ops) && b in After(ops);
  }

  // ---------- the rule in terms of users ----------

  /** The rule: of two running runs each has an owner, and not the same one. */
  lemma ExclusiveIs(m: Table)
    ensures Exclusive(m) <==>
      forall a, b :: a in m && b in m && a != b && m[a].status.Running? && m[b].status.Running? ==>
        m[a].user != "" && m[b].user != "" && m[a].user != m[b].user
  {
  }

  /** A start is accepted if and only if no run is running, or the caller and the owner of every
      running run are known and different. */
  lemma StartAcceptedIff(m: Table, user: string, id: string)
    requires id !in m
    ensures Accepted(m, StartRun(user, id)) <==>
      forall k :: k in m && m[k].status.Running? ==> user != "" && m[k].user != "" && user != m[k].user
  {
  }

  // Where an operation may take a run's status.
  predicate Moves(before: Status, op: Op, after: Status) {
    match op
    case PauseRun(_) => before.Running? && after.Paused?
    case ResumeRun(_) => before.Paused? && after.Running?
    case StopRun(_) => (before.Running? || before.Paused? || before.Liquidated?) && after.Stopped?
    case Finish(_, completed) => if completed then after.Completed? else after.Liquidated?
    case _ => false
  }

  /** An operation touches its own run only: a start adds it as running for the caller, a delete
      takes it away unless it is running or paused, and any other changes its status as allowed, and
      never its owner. */
  lemma StepTouchesOne(m: Table, op: Op, k: string)
    ensures var n := Step(m, op);
      && (k != op.id ==> (k in n <==> k in m) && (k in m ==> n[k] == m[k]))
      && (k in n && k !in m ==> op == StartRun(n[k].user, k) && n[k].status.Running?)
      && (k in m && k !in n <==> op == DeleteRun(k) && k in m && !m[k].status.Running? && !m[k].status.Paused?)
      && (k in m && k in n && n[k] != m[k] ==> n[k].user == m[k].user && Moves(m[k].status, op, n[k].status))
      && (k in m && k == op.id && (exists after :: Moves(m[k].status, op, after)) ==>
            k in n && Moves(m[k].status, op, n[k].status))
  {
  }
}
