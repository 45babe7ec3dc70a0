// The debate loop as it runs (internal/debate/debate_loop.go), writing the session step by step
// while a cancellation may come between any two steps.
module DebateRun {
  import opened Vote
  import opened Debate

  /** The votes of the first k participants, failed ballots left out. */
  function Collected(cast: nat -> Option<Ballot>, k: nat): seq<(nat, Ballot)> {
    if k == 0 then [] else WithVote(Collected(cast, k - 1), k - 1, cast(k - 1))
  }

  function WithVote(votes: seq<(nat, Ballot)>, i: nat, vote: Option<Ballot>): seq<(nat, Ballot)> {
    if vote.Some? then votes + [(i, vote.value)] else votes
  }

  function Ballots(votes: seq<(nat, Ballot)>): (r: seq<Ballot>)
    ensures |r| == |votes| && forall i :: 0 <= i < |votes| ==> r[i] == votes[i].1
  {
    seq(|votes|, i requires 0 <= i < |votes| => votes[i].1)
  }

  // The consensus is one of the outcomes that an action of maximal weight gives.
  ghost predicate Agreed(ballots: seq<Ballot>, c: Option<Consensus>) {
    if ballots == [] then c.None?
    else exists best :: IsBest(ballots, best) && c == Some(Outcome(ballots, best))
  }

  class Run {
    const setup: Setup
    var status: Status
    var interrupted: bool
    var round: nat
    var messages: seq<(nat, nat)>
    var votes: seq<(nat, Ballot)>
    var consensus: Option<Consensus>
    ghost var pc: Pc

    constructor (setup: Setup)
      ensures this.setup == setup && State() == Fresh && consensus.None?
    {
      this.setup := setup;
      status, interrupted, round, messages, votes, consensus := Pending, false, 0, [], [], None;
      pc := Idle;
    }

    ghost function State(): Session
      reads this
    {
      Session(status, interrupted, pc, round, messages, votes)
    }

    ghost predicate Explained(events: seq<Event>)
      reads this
    {
      State() == After(setup, Fresh, events)
    }

    method StartDebate() returns (ok: bool)
      modifies this`status, this`pc
      ensures ok == old(status).Pending? && State() == Next(setup, old(State()), Start)
    {
      ok := status == Pending;
      if ok {
        status, pc := Running, Entering;
      }
    }

    method CancelDebate() returns (ok: bool)
      modifies this`status, this`interrupted
      ensures ok == old(Active(State())) && State() == Next(setup, old(State()), Cancel)
    {
      ok := status == Running || status == Voting;
      if ok {
        status, interrupted := Cancelled, true;
      }
    }

    /** Ends one section of the loop, and lets a cancellation in before the next. */
    method Step(ghost events: seq<Event>, at: Pc, ghost ballot: Option<Ballot>, cancels: Pc -> bool)
      returns (ghost longer: seq<Event>)
      requires State().(pc := at) == LoopStep(setup, After(setup, Fresh, events), ballot)
      modifies this`status, this`interrupted, this`pc
      ensures Explained(longer) && pc == at
      ensures if old(Active(State())) && cancels(at) then status.Cancelled? && interrupted
        else status == old(status) && interrupted == old(interrupted)
    {
      longer := events + [Loop(ballot)];
      AfterAppend(setup, Fresh, events, Loop(ballot));
      pc := at;
      if cancels(at) {
        AfterAppend(setup, Fresh, longer, Cancel);
        var _ := CancelDebate();
        longer := longer + [Cancel];
      }
    }

    /** The whole loop.  `cancels` says after which sections a cancellation comes and `cast` what
        the models answer when asked to vote; the ghost log ties the loop to the step system. */
    method DebateLoop(cancels: Pc -> bool, cast: nat -> Option<Ballot>, ghost before: seq<Event>)
      returns (ghost events: seq<Event>)
      requires pc.Entering? && Explained(before) && consensus.None?
      requires status == if interrupted then Cancelled else Running
      modifies this
      ensures Explained(events) && pc.Exited?
      ensures !interrupted ==> if setup.participants < 2 then status.Cancelled? else status.Completed?
      ensures status.Completed? ==>
        && messages == Script(setup) && votes == Collected(cast, setup.participants)
        && Agreed(Ballots(votes), consensus)
    {
      if setup.participants < 2 {
        status := Cancelled;
        events := Step(before, Exited, None, cancels);
        return;
      }
      events := Step(before, AtRound(1), None, cancels);
      var over;
      over, events := Rounds(cancels, events);
      if over {
        return;
      }
      events := Vote(cancels, cast, events);
    }

    /** The ballots and the consensus. */
    method Vote(cancels: Pc -> bool, cast: nat -> Option<Ballot>, ghost before: seq<Event>)
      returns (ghost events: seq<Event>)
      requires pc.Closing? && Explained(before)
      modifies this`status, this`interrupted, this`pc, this`votes, this`consensus
      ensures Explained(events) && pc.Exited?
      ensures !interrupted ==> status.Completed?
      ensures status.Completed? ==>
        && messages == Script(setup) && votes == Collected(cast, setup.participants)
        && Agreed(Ballots(votes), consensus)
    {
      Reachable(setup, before);
      status := Voting;
      events := Step(before, AtBallot(0), None, cancels);
      var over;
      over, events := TakeVotes(cancels, cast, events);
      if !over {
        events := Conclude(cancels, events);
      }
    }

    /** The consensus and the end of the loop. */
    method Conclude(cancels: Pc -> bool, ghost before: seq<Event>) returns (ghost events: seq<Event>)
      requires pc == Deciding && Explained(before)
      modifies this`status, this`interrupted, this`pc, this`consensus
      ensures Explained(events) && pc.Exited? && status.Completed?
      ensures Agreed(Ballots(votes), consensus)
    {
      ghost var order;
      consensus, order := Aggregate(Ballots(votes));
      if votes != [] {
        WinnerIsBest(Ballots(votes), order);
      }
      status := Completed;
      events := Step(before, Exited, None, cancels);
    }

    /** All rounds. */
    method Rounds(cancels: Pc -> bool, ghost before: seq<Event>) returns (over: bool, ghost events: seq<Event>)
      requires pc == AtRound(1) && setup.participants >= 2 && Explained(before)
      requires status == if interrupted then Cancelled else Running
      modifies this`status, this`interrupted, this`pc, this`round, this`messages
      ensures Explained(events) && pc == if over then Exited else Closing
      ensures status == if interrupted then Cancelled else Running
      ensures over ==> interrupted
    {
      events, over := before, false;
      var r := 1;
      while r <= setup.rounds
        invariant pc == AtRound(r) && Explained(events)
        invariant status == if interrupted then Cancelled else Running
      {
        if interrupted {
          events := Step(events, Exited, None, cancels);
          return true, events;
        }
        round := r;
        events := Step(events, AtTurn(r, 0), None, cancels);
        over, events := TakeTurns(r, cancels, events);
        if over {
          return;
        }
        r := r + 1;
      }
      events := Step(events, Closing, None, cancels);
      over := false;
    }

    /** All turns of one round. */
    method TakeTurns(r: nat, cancels: Pc -> bool, ghost before: seq<Event>)
      returns (over: bool, ghost events: seq<Event>)
      requires pc == AtTurn(r, 0) && Explained(before)
      requires status == if interrupted then Cancelled else Running
      modifies this`status, this`interrupted, this`pc, this`messages
      ensures Explained(events) && pc == if over then Exited else AtRound(r + 1)
      ensures status == if interrupted then Cancelled else Running
      ensures over ==> interrupted
    {
      events := before;
      for i := 0 to setup.participants
        invariant pc == AtTurn(r, i) && Explained(events)
        invariant status == if interrupted then Cancelled else Running
      {
        if interrupted {
          events := Step(events, Exited, None, cancels);
          return true, events;
        }
        events := Speak(r, i, cancels, events);
      }
      events := Step(events, AtRound(r + 1), None, cancels);
      over := false;
    }

    method Speak(r: nat, i: nat, cancels: Pc -> bool, ghost before: seq<Event>) returns (ghost events: seq<Event>)
      requires pc == AtTurn(r, i) && i < setup.participants && !interrupted && Explained(before)
      requires status == if interrupted then Cancelled else Running
      modifies this`status, this`interrupted, this`pc, this`messages
      ensures Explained(events) && pc == AtTurn(r, i + 1) && messages == old(messages) + [(r, i)]
      ensures status == if interrupted then Cancelled else Running
    {
      events := Step(before, Speaking(r, i), None, cancels);
      messages := messages + [(r, i)];
      events := Step(events, AtTurn(r, i + 1), None, cancels);
    }

    /** One ballot per participant; a ballot that fails is left out. */
    method TakeVotes(cancels: Pc -> bool, cast: nat -> Option<Ballot>, ghost before: seq<Event>)
      returns (over: bool, ghost events: seq<Event>)
      requires pc == AtBallot(0) && votes == [] && !status.Completed? && Explained(before)
      modifies this`status, this`interrupted, this`pc, this`votes
      ensures Explained(events) && pc == if over then Exited else Deciding
      ensures !over ==> votes == Collected(cast, setup.participants)
      ensures !status.Completed?
      ensures over ==> interrupted
    {
      events := before;
      for i := 0 to setup.participants
        invariant pc == AtBallot(i) && Explained(events)
        invariant votes == Collected(cast, i) && !status.Completed?
      {
        if interrupted {
          events := Step(events, Exited, None, cancels);
          return true, events;
        }
        events := TakeVote(i, cast(i), cancels, events);
      }
      events := Step(events, Deciding, None, cancels);
      over := false;
    }

    method TakeVote(i: nat, vote: Option<Ballot>, cancels: Pc -> bool, ghost before: seq<Event>)
      returns (ghost events: seq<Event>)
      requires pc == AtBallot(i) && i < setup.participants && !interrupted
      requires Explained(before) && !status.Completed?
      modifies this`status, this`interrupted, this`pc, this`votes
      ensures Explained(events) && pc == AtBallot(i + 1) && !status.Completed?
      ensures votes == WithVote(old(votes), i, vote)
    {
      events := Step(before, Casting(i), None, cancels);
      if vote.Some? {
        votes := votes + [(i, vote.value)];
      }
      events := Step(events, AtBallot(i + 1), vote, cancels);
    }
  }

  /** A vote is counted exactly for every participant whose ballot succeeds, with that ballot, and
      the votes stand in the order of the participants. */
  lemma {:induction false} CollectedIs(cast: nat -> Option<Ballot>, k: nat)
    ensures var votes := Collected(cast, k);
      && (forall j: nat, b :: (j, b) in votes <==> j < k && cast(j) == Some(b))
      && (forall i, j :: 0 <= i < j < |votes| ==> votes[i].0 < votes[j].0)
  {
    if k > 0 {
      CollectedIs(cast, k - 1);
      var front, votes := Collected(cast, k - 1), Collected(cast, k);
      assert forall i :: 0 <= i < |front| ==> front[i] in front && front[i].0 < k - 1;
      forall j: nat, b
        ensures (j, b) in votes <==> j < k && cast(j) == Some(b)
      {
        assert (j, b) in front <==> j < k - 1 && cast(j) == Some(b);
      }
    }
  }
}
