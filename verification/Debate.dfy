// One debate session (internal/debate/debate_loop.go and engine.go): its status, the loop of
// speeches and votes cut at the points where a cancellation can fall, and start and cancel.
module Debate {
  import opened Vote

  datatype Status = Pending | Running | Voting | Completed | Cancelled

  // Where the loop is: not begun, just begun, at the head of a round, at the head of a turn,
  // past the check and waiting for the speech, before the vote, at the head of a ballot, waiting
  // for the ballot, before the consensus, or gone.
  datatype Pc =
    | Idle | Entering | AtRound(r: nat) | AtTurn(r: nat, i: nat) | Speaking(r: nat, i: nat)
    | Closing | AtBallot(i: nat) | Casting(i: nat) | Deciding | Exited

  // `interrupted` is the loop's cancelled context; a message is its round and its speaker, a vote
  // its voter and the ballot.
  datatype Session = Session(status: Status, interrupted: bool, pc: Pc, round: nat,
                             messages: seq<(nat, nat)>, votes: seq<(nat, Ballot)>)

  datatype Setup = Setup(participants: nat, rounds: nat)

  const Fresh := Session(Pending, false, Idle, 0, [], [])

  // A loop step carries what the model returns if a ballot is being cast: a failed ballot is None.
  datatype Event = Start | Cancel | Loop(ballot: Option<Ballot>)

  predicate Active(s: Session) { s.status.Running? || s.status.Voting? }

  function LoopStep(d: Setup, s: Session, ballot: Option<Ballot>): Session {
    match s.pc
    case Idle => s
    case Entering =>
      if d.participants < 2 then s.(status := Cancelled, pc := Exited) else s.(pc := AtRound(1))
    case AtRound(r) =>
      if r > d.rounds then s.(pc := Closing)
      else if s.interrupted then s.(pc := Exited)
      else s.(round := r, pc := AtTurn(r, 0))
    case AtTurn(r, i) =>
      if i >= d.participants then s.(pc := AtRound(r + 1))
      else if s.interrupted then s.(pc := Exited)
      else s.(pc := Speaking(r, i))
    case Speaking(r, i) => s.(messages := s.messages + [(r, i)], pc := AtTurn(r, i + 1))
    case Closing => s.(status := Voting, pc := AtBallot(0))
    case AtBallot(i) =>
      if i >= d.participants then s.(pc := Deciding)
      else if s.interrupted then s.(pc := Exited)
      else s.(pc := Casting(i))
    case Casting(i) =>
      s.(votes := if ballot.Some? then s.votes + [(i, ballot.value)] else s.votes, pc := AtBallot(i + 1))
    case Deciding => s.(status := Completed, pc := Exited)
    case Exited => s
  }

  function Next(d: Setup, s: Session, e: Event): Session {
    match e
    case Start => if s.status.Pending? then s.(status := Running, pc := Entering) else s
    case Cancel => if Active(s) then s.(status := Cancelled, interrupted := true) else s
    case Loop(ballot) => LoopStep(d, s, ballot)
  }

  ghost function After(d: Setup, s: Session, events: seq<Event>): Session
    decreases events
  {
    if events == [] then s else Next(d, After(d, s, events[..|events| - 1]), events[|events| - 1])
  }

  lemma AfterAppend(d: Setup, s: Session, events: seq<Event>, e: Event)
    ensures After(d, s, events + [e]) == Next(d, After(d, s, events), e)
  {
    assert (events + [e])[..|events|] == events;
  }

  // ---------- rounds x participants ----------

  /** The messages when r - 1 rounds of n participants and i turns of round r are over. */
  function Spoken(n: nat, r: nat, i: nat): seq<(nat, nat)>
    decreases r, i
  {
    if i > 0 then Spoken(n, r, i - 1) + [(r, i - 1)]
    else if r <= 1 then []
    else Spoken(n, r - 1, n)
  }

  function Script(d: Setup): seq<(nat, nat)> { Spoken(d.participants, d.rounds + 1, 0) }

  /** Message j is turn j % n of round j / n + 1, and none is missing. */
  lemma {:induction false} SpokenAt(n: nat, r: nat, i: nat)
    requires r >= 1 && i <= n && n > 0
    ensures |Spoken(n, r, i)| == (r - 1) * n + i
    ensures forall j :: 0 <= j < |Spoken(n, r, i)| ==> Spoken(n, r, i)[j] == (j / n + 1, j % n)
    decreases r, i
  {
    if i > 0 {
      SpokenAt(n, r, i - 1);
      DivideTurn(r - 1, i - 1, n);
    } else if r > 1 {
      SpokenAt(n, r - 1, n);
      assert (r - 1) * n == (r - 2) * n + n;
    }
  }

  lemma DivideTurn(q: nat, i: nat, n: nat)
    requires i < n
    ensures (q * n + i) / n == q && (q * n + i) % n == i
  {
    var k, m := (q * n + i) / n, (q * n + i) % n;
    assert (k - q) * n == i - m;
    OnlyZero(k - q, n);
  }

  lemma OnlyZero(k: int, n: int)
    requires -n < k * n < n
    ensures k == 0
  {
    assert k > 0 ==> (k - 1) * n >= 0;
    assert k < 0 ==> (-1 - k) * n >= 0;
  }

  lemma {:induction false} SpokenPrefix(d: Setup, r: nat, i: nat)
    requires 1 <= r && i <= d.participants && (r <= d.rounds || (r == d.rounds + 1 && i == 0))
    ensures Spoken(d.participants, r, i) <= Script(d)
    decreases d.rounds + 1 - r, d.participants - i
  {
    if r <= d.rounds {
      if i < d.participants {
        SpokenPrefix(d, r, i + 1);
      } else {
        SpokenPrefix(d, r + 1, 0);
      }
    }
  }

  // ---------- what every step keeps ----------

  // Voters in the order of their turns, none twice, all before `limit`.
  ghost predicate InTurn(votes: seq<(nat, Ballot)>, limit: nat) {
    && (forall i :: 0 <= i < |votes| ==> votes[i].0 < limit)
    && (forall i, j :: 0 <= i < j < |votes| ==> votes[i].0 < votes[j].0)
  }

  // While the loop is before the vote: r - 1 rounds and i turns of round r are spoken.
  ghost predicate Debating(d: Setup, s: Session, r: nat, i: nat, shown: int) {
    && (if s.interrupted then s.status.Cancelled? else s.status.Running?)
    && 1 <= r && i <= d.participants && s.round == shown && s.votes == []
    && s.messages == Spoken(d.participants, r, i)
    && (r <= d.rounds || (r == d.rounds + 1 && i == 0))
  }

  ghost predicate Balloting(d: Setup, s: Session, limit: nat) {
    && (s.status.Voting? || s.status.Cancelled?) && (s.status.Cancelled? ==> s.interrupted)
    && (s.status.Voting? && s.interrupted ==> limit == 0)
    && s.messages == Script(d) && s.round == d.rounds
    && limit <= d.participants && InTurn(s.votes, limit)
  }

  ghost predicate Invariant(d: Setup, s: Session) {
    match s.pc
    case Idle => s == Fresh
    case Entering =>
      && (if s.interrupted then s.status.Cancelled? else s.status.Running?)
      && s.round == 0 && s.messages == [] && s.votes == []
    case AtRound(r) => d.participants >= 2 && Debating(d, s, r, 0, r - 1)
    case AtTurn(r, i) => d.participants >= 2 && r <= d.rounds && Debating(d, s, r, i, r)
    case Speaking(r, i) => d.participants >= 2 && r <= d.rounds && i < d.participants && Debating(d, s, r, i, r)
    case Closing => d.participants >= 2 && Debating(d, s, d.rounds + 1, 0, d.rounds)
    case AtBallot(i) => d.participants >= 2 && Balloting(d, s, i)
    case Casting(i) =>
      d.participants >= 2 && i < d.participants && Balloting(d, s, i) && !(s.status.Voting? && s.interrupted)
    case Deciding => d.participants >= 2 && Balloting(d, s, d.participants)
    case Exited => Ended(d, s)
  }

  ghost predicate Ended(d: Setup, s: Session) {
    && InTurn(s.votes, d.participants) && s.round <= d.rounds
    && s.messages <= Script(d) && (s.votes != [] ==> AllSpoken(d, s))
    && match s.status
       case Cancelled => d.participants < 2 || s.interrupted
       case Voting => s.interrupted && s.votes == [] && AllSpoken(d, s)
       case Completed => d.participants >= 2 && AllSpoken(d, s)
       case _ => false
  }

  ghost predicate AllSpoken(d: Setup, s: Session) {
    s.messages == Script(d) && s.round == d.rounds
  }

  lemma DebatingKeeps(d: Setup, s: Session, ballot: Option<Ballot>)
    requires Invariant(d, s) && (s.pc.AtRound? || s.pc.AtTurn? || s.pc.Speaking?)
    ensures Invariant(d, LoopStep(d, s, ballot))
  {
    match s.pc
    case AtRound(r) => SpokenPrefix(d, r, 0);
    case AtTurn(r, i) => SpokenPrefix(d, r, i);
    case Speaking(r, i) =>
  }

  lemma BallotingKeeps(d: Setup, s: Session, ballot: Option<Ballot>)
    requires Invariant(d, s) && (s.pc.AtBallot? || s.pc.Casting? || s.pc.Deciding?)
    ensures Invariant(d, LoopStep(d, s, ballot))
  {
    if s.pc.AtBallot? && s.pc.i == 0 {
      NoVotesYet(s.votes);
    }
  }

  lemma NoVotesYet(votes: seq<(nat, Ballot)>)
    requires InTurn(votes, 0)
    ensures votes == []
  {
    assert |votes| > 0 ==> votes[0].0 < 0;
  }

  lemma LoopStepKeeps(d: Setup, s: Session, ballot: Option<Ballot>)
    requires Invariant(d, s)
    ensures Invariant(d, LoopStep(d, s, ballot))
  {
    if s.pc.AtRound? || s.pc.AtTurn? || s.pc.Speaking? {
      DebatingKeeps(d, s, ballot);
    } else if s.pc.AtBallot? || s.pc.Casting? || s.pc.Deciding? {
      BallotingKeeps(d, s, ballot);
    }
  }

  lemma PrefixSoFar(d: Setup, s: Session)
    requires Invariant(d, s)
    ensures s.messages <= Script(d) && InTurn(s.votes, d.participants)
    ensures s.status.Voting? || s.status.Completed? || s.votes != [] ==> AllSpoken(d, s)
  {
    match s.pc
    case AtRound(r) => SpokenPrefix(d, r, 0);
    case AtTurn(r, i) => SpokenPrefix(d, r, i);
    case Speaking(r, i) => SpokenPrefix(d, r, i);
    case _ =>
  }

  lemma NextKeeps(d: Setup, s: Session, e: Event)
    requires Invariant(d, s)
    ensures Invariant(d, Next(d, s, e))
  {
    if e.Loop? {
      LoopStepKeeps(d, s, e.ballot);
    }
  }

  lemma {:induction false} Reachable(d: Setup, events: seq<Event>)
    ensures Invariant(d, After(d, Fresh, events))
  {
    if events != [] {
      Reachable(d, events[..|events| - 1]);
      NextKeeps(d, After(d, Fresh, events[..|events| - 1]), events[|events| - 1]);
    }
  }

  /** The log at every moment of every interleaving: a prefix of rounds x participants, complete
      once votes are taken, with the votes in turn and never two by one participant. */
  lemma LogFollowsScript(d: Setup, events: seq<Event>)
    ensures var s := After(d, Fresh, events);
      && s.messages <= Script(d) && InTurn(s.votes, d.participants)
      && (s.status.Voting? || s.status.Completed? || s.votes != [] ==> AllSpoken(d, s))
  {
    Reachable(d, events);
    PrefixSoFar(d, After(d, Fresh, events));
  }

  /** A completed debate never changes again, whatever is called. */
  lemma CompletedIsFinal(d: Setup, events: seq<Event>, e: Event)
    requires After(d, Fresh, events).status.Completed?
    ensures After(d, Fresh, events + [e]) == After(d, Fresh, events)
  {
    Reachable(d, events);
    AfterAppend(d, Fresh, events, e);
  }

  // ---------- what a cancellation achieves ----------

  // The last check of round heads and turns is passed: the loop will still call the vote.
  predicate PastDebateChecks(d: Setup, pc: Pc) {
    match pc
    case Entering => d.participants >= 2 && d.rounds == 0
    case AtRound(r) => r > d.rounds
    case AtTurn(r, i) => r >= d.rounds && i >= d.participants
    case Speaking(r, i) => r >= d.rounds && i + 1 >= d.participants
    case Closing => true
    case _ => false
  }

  // The last check of the ballots is passed: the loop will still complete the debate.
  predicate PastBallotChecks(d: Setup, pc: Pc) {
    match pc
    case AtBallot(i) => i >= d.participants
    case Casting(i) => i + 1 >= d.participants
    case Deciding => true
    case _ => false
  }

  function Fate(d: Setup, s: Session): Status {
    if PastDebateChecks(d, s.pc) then Voting
    else if PastBallotChecks(d, s.pc) then Completed
    else if s.pc.Entering? && d.participants < 2 then Cancelled
    else s.status
  }

  // An upper bound on the steps an interrupted loop still takes.
  function StepsLeft(d: Setup, pc: Pc): nat {
    match pc
    case Idle => 0
    case Entering => 4
    case AtRound(_) => 3
    case AtTurn(_, _) => 4
    case Speaking(_, _) => 5
    case Closing => 2
    case AtBallot(i) => if i < d.participants then 1 else 2
    case Casting(_) => 3
    case Deciding => 1
    case Exited => 0
  }

  lemma StepTowardsFate(d: Setup, s: Session, e: Event)
    requires Invariant(d, s) && s.interrupted && !s.pc.Idle?
    ensures var t := Next(d, s, e);
      && t.interrupted && !t.pc.Idle?
      && Fate(d, t) == (if e.Cancel? && s.status.Voting? then Cancelled else Fate(d, s))
      && (e.Loop? && !s.pc.Exited? ==> StepsLeft(d, t.pc) < StepsLeft(d, s.pc))
      && (!e.Loop? || s.pc.Exited? ==> t.pc == s.pc)
  {
  }

  function Loops(events: seq<Event>): nat {
    if events == [] then 0 else Loops(events[..|events| - 1]) + if events[|events| - 1].Loop? then 1 else 0
  }

  // Somebody cancels again while the status is voting.
  ghost predicate Recancelled(d: Setup, s: Session, events: seq<Event>)
    decreases events
  {
    events != [] &&
    var front := events[..|events| - 1];
    Recancelled(d, s, front) || (events[|events| - 1].Cancel? && After(d, s, front).status.Voting?)
  }

  lemma {:induction false} FateIsSealed(d: Setup, s: Session, events: seq<Event>)
    requires Invariant(d, s) && s.interrupted && !s.pc.Idle?
    ensures var t := After(d, s, events);
      && Invariant(d, t) && t.interrupted && !t.pc.Idle?
      && Fate(d, t) == (if Recancelled(d, s, events) then Cancelled else Fate(d, s))
      && (t.pc.Exited? || StepsLeft(d, t.pc) + Loops(events) <= StepsLeft(d, s.pc))
  {
    if events != [] {
      var front, e := events[..|events| - 1], events[|events| - 1];
      FateIsSealed(d, s, front);
      StepTowardsFate(d, After(d, s, front), e);
      NextKeeps(d, After(d, s, front), e);
    }
  }

  lemma ExitedFate(d: Setup, s: Session)
    ensures s.pc.Exited? ==> Fate(d, s) == s.status
    ensures s.pc.Exited? || StepsLeft(d, s.pc) > 0 || s.pc.Idle?
  {
  }

  // A debate past its last ballot check is not cancelled again: its status is not voting.
  lemma {:induction false} NeverRecancelled(d: Setup, s: Session, events: seq<Event>)
    requires Invariant(d, s) && s.interrupted && s.status.Cancelled? && !s.pc.Idle? && !PastDebateChecks(d, s.pc)
    ensures !Recancelled(d, s, events) && !After(d, s, events).status.Voting?
  {
    if events != [] {
      var front := events[..|events| - 1];
      NeverRecancelled(d, s, front);
      FateIsSealed(d, s, front);
      NotVoting(d, s, After(d, s, front), events[|events| - 1]);
    }
  }

  lemma NotVoting(d: Setup, s: Session, t: Session, e: Event)
    requires s.status.Cancelled? && !PastDebateChecks(d, s.pc)
    requires Invariant(d, t) && t.interrupted && !t.status.Voting? && Fate(d, t) == Fate(d, s)
    ensures !Next(d, t, e).status.Voting?
  {
  }

  /** After a cancellation that is accepted, whatever else is called, the loop ends within five of
      its steps.  The debate then is cancelled if and only if a check was still ahead or somebody
      cancels again while it is voting: if the last speech had already begun, the loop still calls
      the vote and leaves the debate in voting; if the last ballot had, it completes the debate. */
  lemma CancelIsFinalIff(d: Setup, before: seq<Event>, later: seq<Event>)
    requires Active(After(d, Fresh, before)) && Loops(later) >= 5
    ensures var s := After(d, Fresh, before); var c := Next(d, s, Cancel); var t := After(d, c, later);
      && t.pc.Exited?
      && (t.status.Completed? <==> PastBallotChecks(d, s.pc))
      && (t.status.Voting? <==> PastDebateChecks(d, s.pc) && !Recancelled(d, c, later))
      && (t.status.Cancelled? <==>
            !PastBallotChecks(d, s.pc) && (PastDebateChecks(d, s.pc) ==> Recancelled(d, c, later)))
  {
    var s := After(d, Fresh, before);
    var c := Next(d, s, Cancel);
    Reachable(d, before);
    NextKeeps(d, s, Cancel);
    assert !s.pc.Idle?;
    FateIsSealed(d, c, later);
    ExitedFate(d, After(d, c, later));
    if !PastDebateChecks(d, s.pc) {
      NeverRecancelled(d, c, later);
    }
  }
}
