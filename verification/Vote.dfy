// The consensus of a debate: a confidence-weighted vote, decided by a pass over an unordered map
// (internal/debate/debate_loop.go).
module Vote {

  datatype Option<T> = None | Some(value: T)

  datatype Action = OpenLong | OpenShort | CloseLong | CloseShort | Hold | Wait

  datatype Terms = Terms(symbol: string, leverage: int, positionPct: real)

  datatype Ballot = Ballot(action: Action, confidence: real, terms: Terms)

  datatype Consensus = Consensus(action: Action, confidence: real, terms: Option<Terms>)

  predicate Passive(a: Action) { a.Wait? || a.Hold? }

  function Weight(v: Ballot): real { if v.confidence <= 0.0 then 50.0 else v.confidence }

  /** The total weight of the ballots for one action. */
  function Total(votes: seq<Ballot>, a: Action): real {
    if votes == [] then 0.0
    else
      var last := votes[|votes| - 1];
      Total(votes[..|votes| - 1], a) + if last.action == a then Weight(last) else 0.0
  }

  predicate Voted(votes: seq<Ballot>, a: Action) {
    exists i :: 0 <= i < |votes| && votes[i].action == a
  }

  // The first ballot for an action lends the consensus its terms.
  function Sample(votes: seq<Ballot>, a: Action): (v: Ballot)
    requires Voted(votes, a)
    ensures v in votes && v.action == a
  {
    if votes[0].action == a then votes[0]
    else
      VotedTail(votes, a);
      Sample(votes[1..], a)
  }

  lemma VotedTail(votes: seq<Ballot>, a: Action)
    requires Voted(votes, a) && votes[0].action != a
    ensures Voted(votes[1..], a)
  {
    var i :| 0 <= i < |votes| && votes[i].action == a;
    assert votes[1..][i - 1].action == a;
  }

  /** The outcome when the pass over the map ends with `best`. */
  function Outcome(votes: seq<Ballot>, best: Action): Consensus
    requires Voted(votes, best)
  {
    if Passive(best) then Consensus(Wait, 50.0, None)
    else Consensus(best, Total(votes, best) / |votes| as real, Some(Sample(votes, best).terms))
  }

  /** The pass over the map in the given order: a later action wins only with more weight. */
  function Winner(votes: seq<Ballot>, order: seq<Action>): Action
    requires order != []
  {
    if |order| == 1 then order[0]
    else
      var best, last := Winner(votes, order[..|order| - 1]), order[|order| - 1];
      if Total(votes, last) > Total(votes, best) then last else best
  }

  predicate NoRepeats(order: seq<Action>) {
    forall i, j :: 0 <= i < j < |order| ==> order[i] != order[j]
  }

  // An order in which a map with these votes can be ranged over: every key once.
  ghost predicate MapOrder(votes: seq<Ballot>, order: seq<Action>) {
    NoRepeats(order) && forall a :: a in order <==> Voted(votes, a)
  }

  /** The consensus when the map is ranged over in this order. */
  ghost function Decided(votes: seq<Ballot>, order: seq<Action>): Consensus
    requires order != [] && MapOrder(votes, order)
  {
    WinnerDominates(votes, order);
    Outcome(votes, Winner(votes, order))
  }

  // The accumulators of the first loop: the weight so far and the first ballot, per action.
  type Counts = map<Action, (real, Ballot)>

  ghost predicate TalliedAt(counts: Counts, votes: seq<Ballot>, a: Action) {
    if Voted(votes, a) then a in counts && counts[a] == (Total(votes, a), Sample(votes, a)) else a !in counts
  }

  method Tally(votes: seq<Ballot>) returns (counts: Counts)
    ensures forall a :: TalliedAt(counts, votes, a)
  {
    counts := map[];
    for i := 0 to |votes|
      invariant forall a :: TalliedAt(counts, votes[..i], a)
    {
      var v, before := votes[i], counts;
      var w := if v.confidence <= 0.0 then 50.0 else v.confidence;
      assert TalliedAt(before, votes[..i], v.action);
      if v.action in counts {
        counts := counts[v.action := (counts[v.action].0 + w, counts[v.action].1)];
      } else {
        counts := counts[v.action := (w, v)];
      }
      ghost var done, next := votes[..i], votes[..i + 1];
      assert next == done + [v];
      forall a
        ensures TalliedAt(counts, next, a)
      {
        assert TalliedAt(before, done, a);
        OneMoreBallot(done, v, a);
      }
    }
    assert votes[..|votes|] == votes;
  }

  method Aggregate(votes: seq<Ballot>) returns (c: Option<Consensus>, ghost order: seq<Action>)
    ensures c.None? <==> votes == []
    ensures votes != [] ==> order != [] && MapOrder(votes, order) && c == Some(Decided(votes, order))
  {
    order := [];
    if |votes| == 0 {
      return None, order;
    }
    var counts := Tally(votes);
    var best, bestWeight := Wait, 0.0;  // the code starts from no action; every weight beats it
    var pending := counts.Keys;
    assert Voted(votes, votes[0].action) && TalliedAt(counts, votes, votes[0].action);
    while pending != {}
      invariant order == [] ==> bestWeight == 0.0 && pending == counts.Keys
      invariant order != [] ==> best == Winner(votes, order) && bestWeight == Total(votes, best) && best in counts
      invariant pending <= counts.Keys && NoRepeats(order)
      invariant forall a :: a in order <==> a in counts && a !in pending
      decreases pending
    {
      var action :| action in pending;
      WeightPositive(votes, action);
      assert TalliedAt(counts, votes, action);
      assert (order + [action])[..|order|] == order;
      if counts[action].0 > bestWeight {
        best, bestWeight := action, counts[action].0;
      }
      pending, order := pending - {action}, order + [action];
    }
    assert TalliedAt(counts, votes, best);
    assert forall a :: TalliedAt(counts, votes, a) ==> (a in counts <==> Voted(votes, a));
    if best == Wait || best == Hold {
      c := Some(Consensus(Wait, 50.0, None));
    } else {
      c := Some(Consensus(best, bestWeight / |votes| as real, Some(counts[best].1.terms)));
    }
  }

  ghost predicate BallotAdded(before: seq<Ballot>, v: Ballot, a: Action) {
    && (Voted(before + [v], a) <==> Voted(before, a) || v.action == a)
    && Total(before + [v], a) == Total(before, a) + (if v.action == a then Weight(v) else 0.0)
    && (Voted(before, a) ==> Sample(before + [v], a) == Sample(before, a))
    && (!Voted(before, a) && v.action == a ==> Sample(before + [v], a) == v)
    && (!Voted(before, a) ==> Total(before, a) == 0.0)
  }

  lemma OneMoreBallot(before: seq<Ballot>, v: Ballot, a: Action)
    ensures BallotAdded(before, v, a)
  {
    var after := before + [v];
    assert after[..|before|] == before;
    assert forall i :: 0 <= i < |before| ==> after[i] == before[i];
    assert after[|before|] == v;
    if Voted(before, a) {
      SampleStays(before, v, a);
    } else {
      NobodyVoted(before, a);
      if v.action == a {
        SampleIsNew(before, v, a);
      }
    }
  }

  lemma {:induction false} SampleStays(before: seq<Ballot>, v: Ballot, a: Action)
    requires Voted(before, a)
    ensures Voted(before + [v], a) && Sample(before + [v], a) == Sample(before, a)
  {
    var i :| 0 <= i < |before| && before[i].action == a;
    assert (before + [v])[i].action == a;
    if before[0].action != a {
      VotedTail(before, a);
      SampleStays(before[1..], v, a);
      assert (before + [v])[1..] == before[1..] + [v];
    }
  }

  lemma {:induction false} SampleIsNew(before: seq<Ballot>, v: Ballot, a: Action)
    requires !Voted(before, a) && v.action == a
    ensures Voted(before + [v], a) && Sample(before + [v], a) == v
  {
    assert (before + [v])[|before|].action == a;
    if before != [] {
      assert forall i :: 0 <= i < |before| - 1 ==> before[1..][i] == before[i + 1];
      SampleIsNew(before[1..], v, a);
      assert (before + [v])[1..] == before[1..] + [v];
    }
  }

  lemma {:induction false} NobodyVoted(votes: seq<Ballot>, a: Action)
    requires !Voted(votes, a)
    ensures Total(votes, a) == 0.0
  {
    if votes != [] {
      var front := votes[..|votes| - 1];
      assert forall i :: 0 <= i < |front| ==> front[i] == votes[i];
      NobodyVoted(front, a);
    }
  }

  lemma {:induction false} WeightPositive(votes: seq<Ballot>, a: Action)
    ensures Total(votes, a) >= 0.0 && (Total(votes, a) > 0.0 <==> Voted(votes, a))
  {
    if votes != [] {
      var front, last := votes[..|votes| - 1], votes[|votes| - 1];
      WeightPositive(front, a);
      assert votes == front + [last];
      OneMoreBallot(front, last, a);
    }
  }

  // ---------- what the winner is ----------

  ghost predicate IsBest(votes: seq<Ballot>, a: Action) {
    Voted(votes, a) && forall b :: Total(votes, b) <= Total(votes, a)
  }

  lemma {:induction false} WinnerDominates(votes: seq<Ballot>, order: seq<Action>)
    requires order != []
    ensures Winner(votes, order) in order
    ensures forall a :: a in order ==> Total(votes, a) <= Total(votes, Winner(votes, order))
  {
    if |order| > 1 {
      var front, last := order[..|order| - 1], order[|order| - 1];
      WinnerDominates(votes, front);
      assert order == front + [last];
    }
  }

  /** Whatever order the map is ranged over, the winner has maximal total weight. */
  lemma WinnerIsBest(votes: seq<Ballot>, order: seq<Action>)
    requires order != [] && MapOrder(votes, order)
    ensures IsBest(votes, Winner(votes, order))
  {
    WinnerDominates(votes, order);
    forall b
      ensures Total(votes, b) <= Total(votes, Winner(votes, order))
    {
      WeightPositive(votes, b);
      WeightPositive(votes, Winner(votes, order));
    }
  }

  lemma {:induction false} LeaderStays(votes: seq<Ballot>, a: Action, order: seq<Action>)
    requires order != [] && order[0] == a && IsBest(votes, a)
    ensures Winner(votes, order) == a
  {
    if |order| > 1 {
      LeaderStays(votes, a, order[..|order| - 1]);
    }
  }

  /** Ties are settled by the map order alone: every action of maximal weight wins under some
      order in which the map can be ranged over. */
  lemma EveryBestCanWin(votes: seq<Ballot>, a: Action) returns (order: seq<Action>)
    requires IsBest(votes, a)
    ensures order != [] && MapOrder(votes, order) && Winner(votes, order) == a
  {
    order := [a];
    for i := 0 to |Actions|
      invariant order != [] && order[0] == a && NoRepeats(order)
      invariant forall b :: b in order <==> b == a || (b in Actions[..i] && Voted(votes, b))
    {
      AllActions(i);
      assert Actions[..i + 1] == Actions[..i] + [Actions[i]];
      if Actions[i] != a && Voted(votes, Actions[i]) {
        order := order + [Actions[i]];
      }
    }
    assert Actions[..|Actions|] == Actions;
    AllActions(0);
    LeaderStays(votes, a, order);
  }

  function IndexOf(a: Action): (i: nat)
    ensures i < |Actions| && Actions[i] == a
  {
    match a
    case OpenLong => 0
    case OpenShort => 1
    case CloseLong => 2
    case CloseShort => 3
    case Hold => 4
    case Wait => 5
  }

  lemma AllActions(i: nat)
    requires i < |Actions|
    ensures Actions[i] !in Actions[..i] && forall b: Action :: b in Actions
  {
    assert forall j {:trigger Actions[j]} :: 0 <= j < |Actions| ==> IndexOf(Actions[j]) == j;
    forall b: Action
      ensures b in Actions
    {
      assert Actions[IndexOf(b)] == b;
    }
  }

  /** The consensus is the same for every order in which the map can be ranged over if and only if
      the maximum is unique or only hold and wait attain it. */
  lemma DeterminedIff(votes: seq<Ballot>)
    ensures (forall o, p :: o != [] && p != [] && MapOrder(votes, o) && MapOrder(votes, p) ==>
              Decided(votes, o) == Decided(votes, p))
      <==> (forall a, b :: IsBest(votes, a) && IsBest(votes, b) ==> a == b || (Passive(a) && Passive(b)))
  {
    if a, b :| IsBest(votes, a) && IsBest(votes, b) && a != b && !(Passive(a) && Passive(b)) {
      var o := EveryBestCanWin(votes, a);
      var p := EveryBestCanWin(votes, b);
      assert Decided(votes, o) != Decided(votes, p);
    } else {
      forall o, p | o != [] && p != [] && MapOrder(votes, o) && MapOrder(votes, p)
        ensures Decided(votes, o) == Decided(votes, p)
      {
        WinnerIsBest(votes, o);
        WinnerIsBest(votes, p);
      }
    }
  }

  // ---------- the confidences as they were given ----------

  /** What the ballots for one action say about themselves, added up. */
  function ConfidenceSum(votes: seq<Ballot>, a: Action): real {
    if votes == [] then 0.0
    else
      ConfidenceSum(votes[..|votes| - 1], a)
      + if votes[|votes| - 1].action == a then votes[|votes| - 1].confidence else 0.0
  }

  predicate AllConfident(votes: seq<Ballot>) {
    forall i :: 0 <= i < |votes| ==> votes[i].confidence > 0.0
  }

  lemma {:induction false} TotalIsConfidence(votes: seq<Ballot>, a: Action)
    requires AllConfident(votes)
    ensures Total(votes, a) == ConfidenceSum(votes, a)
  {
    if votes != [] {
      TotalIsConfidence(votes[..|votes| - 1], a);
    }
  }

  predicate FirstBallot(votes: seq<Ballot>, a: Action, i: nat) {
    i < |votes| && votes[i].action == a && forall j :: 0 <= j < i ==> votes[j].action != a
  }

  lemma {:induction false} SampleIsFirst(votes: seq<Ballot>, a: Action, i: nat)
    requires FirstBallot(votes, a, i)
    ensures Voted(votes, a) && Sample(votes, a) == votes[i]
  {
    if i > 0 {
      var rest, k := votes[1..], i - 1;
      assert FirstBallot(rest, a, k);
      SampleIsFirst(rest, a, k);
    }
  }

  ghost predicate MostConfident(votes: seq<Ballot>, a: Action) {
    Voted(votes, a) && forall b :: ConfidenceSum(votes, b) <= ConfidenceSum(votes, a)
  }

  lemma BestIsMostConfident(votes: seq<Ballot>, a: Action)
    requires AllConfident(votes) && IsBest(votes, a)
    ensures MostConfident(votes, a)
  {
    forall b
      ensures ConfidenceSum(votes, b) == Total(votes, b)
    {
      TotalIsConfidence(votes, b);
    }
  }

  // The consensus for an active action: its share of the votes' confidence and its first terms.
  ghost predicate DecidedFor(votes: seq<Ballot>, c: Consensus) {
    && votes != [] && c.confidence == ConfidenceSum(votes, c.action) / |votes| as real
    && (forall i: nat :: FirstBallot(votes, c.action, i) ==> c.terms == Some(votes[i].terms))
  }

  /** With positive confidences, in every order in which the map can be ranged over: some action
      whose ballots have the greatest sum of confidences decides.  An active one is decided for, at
      the share of that sum in the number of all votes and with the terms of the first ballot for
      it; if it is hold or wait, the decision is to wait, at 50. */
  lemma MostConfidenceWins(votes: seq<Ballot>, order: seq<Action>)
    requires AllConfident(votes) && order != [] && MapOrder(votes, order)
    ensures exists a :: MostConfident(votes, a) && var c := Decided(votes, order);
      if a.Hold? || a.Wait? then c == Consensus(Wait, 50.0, None) else c.action == a && DecidedFor(votes, c)
  {
    var best, c := Winner(votes, order), Decided(votes, order);
    WinnerIsBest(votes, order);
    BestIsMostConfident(votes, best);
    if !Passive(best) {
      OutcomeIs(votes, best);
    }
  }

  lemma {:induction false} OutcomeIs(votes: seq<Ballot>, best: Action)
    requires AllConfident(votes) && Voted(votes, best) && !Passive(best)
    ensures Outcome(votes, best).action == best && DecidedFor(votes, Outcome(votes, best))
  {
    TotalIsConfidence(votes, best);
    forall i: nat | FirstBallot(votes, best, i)
      ensures Sample(votes, best) == votes[i]
    {
      SampleIsFirst(votes, best, i);
    }
  }

  // The same ballots but for confidences of the same weight.
  predicate Alike(u: seq<Ballot>, v: seq<Ballot>) {
    && |u| == |v|
    && forall i :: 0 <= i < |u| ==> u[i].action == v[i].action && u[i].terms == v[i].terms && Weight(u[i]) == Weight(v[i])
  }

  lemma AlikeVoted(u: seq<Ballot>, v: seq<Ballot>, a: Action)
    requires Alike(u, v) && Voted(u, a)
    ensures Voted(v, a)
  {
    var i :| 0 <= i < |u| && u[i].action == a;
    assert v[i].action == a;
  }

  lemma {:induction false} AlikeTotal(u: seq<Ballot>, v: seq<Ballot>, a: Action)
    requires Alike(u, v)
    ensures Total(u, a) == Total(v, a)
  {
    if u != [] {
      AlikeTotal(u[..|u| - 1], v[..|v| - 1], a);
    }
  }

  lemma {:induction false} AlikeWinner(u: seq<Ballot>, v: seq<Ballot>, order: seq<Action>)
    requires Alike(u, v) && order != []
    ensures Winner(u, order) == Winner(v, order)
  {
    if |order| > 1 {
      AlikeWinner(u, v, order[..|order| - 1]);
      AlikeTotal(u, v, order[|order| - 1]);
      AlikeTotal(u, v, Winner(u, order[..|order| - 1]));
    }
  }

  lemma {:induction false} FirstExists(votes: seq<Ballot>, a: Action) returns (i: nat)
    requires Voted(votes, a)
    ensures FirstBallot(votes, a, i)
  {
    if votes[0].action == a {
      i := 0;
    } else {
      VotedTail(votes, a);
      var k := FirstExists(votes[1..], a);
      i := k + 1;
      assert forall j :: 0 < j < i ==> votes[j] == votes[1..][j - 1];
    }
  }

  /** A ballot without a positive confidence counts like the same ballot with 50: for every order in
      which the map can be ranged over the consensus is the same, in all its parts. */
  lemma NoConfidenceIsFifty(votes: seq<Ballot>, i: nat, order: seq<Action>)
    requires i < |votes| && votes[i].confidence <= 0.0 && order != [] && MapOrder(votes, order)
    ensures var changed := votes[i := votes[i].(confidence := 50.0)];
      MapOrder(changed, order) && Decided(changed, order) == Decided(votes, order)
  {
    var changed := votes[i := votes[i].(confidence := 50.0)];
    assert Alike(votes, changed);
    forall a
      ensures Voted(votes, a) <==> Voted(changed, a)
    {
      if Voted(votes, a) {
        AlikeVoted(votes, changed, a);
      }
      if Voted(changed, a) {
        AlikeVoted(changed, votes, a);
      }
    }
    AlikeWinner(votes, changed, order);
    var best := Winner(votes, order);
    WinnerDominates(votes, order);
    AlikeTotal(votes, changed, best);
    var k := FirstExists(votes, best);
    assert FirstBallot(changed, best, k);
    SampleIsFirst(votes, best, k);
    SampleIsFirst(changed, best, k);
  }

  // ---------- the order of the votes ----------

  lemma Without(ys: seq<Ballot>, v: Ballot) returns (i: nat)
    requires v in multiset(ys)
    ensures i < |ys| && ys[i] == v
    ensures multiset(ys[..i] + ys[i + 1..]) == multiset(ys) - multiset{v}
  {
    i :| 0 <= i < |ys| && ys[i] == v;
    assert ys == ys[..i] + [v] + ys[i + 1..];
  }

  lemma {:induction false} TotalOfMultiset(xs: seq<Ballot>, ys: seq<Ballot>, a: Action)
    requires multiset(xs) == multiset(ys)
    ensures Total(xs, a) == Total(ys, a)
  {
    if xs == [] {
      assert |multiset(ys)| == 0;
    } else {
      var front, last := xs[..|xs| - 1], xs[|xs| - 1];
      assert xs == front + [last];
      assert multiset(xs) == multiset(front) + multiset{last};
      var i := Without(ys, last);
      TotalOfMultiset(front, ys[..i] + ys[i + 1..], a);
      TotalWithout(ys, i, a);
    }
  }

  lemma {:induction false} TotalWithout(ys: seq<Ballot>, i: nat, a: Action)
    requires i < |ys|
    ensures Total(ys, a) == Total(ys[..i] + ys[i + 1..], a) + if ys[i].action == a then Weight(ys[i]) else 0.0
  {
    var n := |ys| - 1;
    var rest := ys[..i] + ys[i + 1..];
    if i == n {
      assert rest == ys[..n];
    } else {
      TotalWithout(ys[..n], i, a);
      assert rest[..n - 1] == ys[..n][..i] + ys[..n][i + 1..] && rest[n - 1] == ys[n];
    }
  }

  /** With a unique maximum, action and confidence do not depend on the order of the votes (the
      terms may, being those of the first ballot for the action). */
  lemma VoteOrderDoesNotMatter(xs: seq<Ballot>, ys: seq<Ballot>, a: Action, b: Action)
    requires multiset(xs) == multiset(ys) && IsBest(xs, a) && IsBest(ys, b)
    requires forall c :: IsBest(xs, c) ==> c == a
    ensures Outcome(xs, a).action == Outcome(ys, b).action && Outcome(xs, a).confidence == Outcome(ys, b).confidence
  {
    forall c
      ensures Total(xs, c) == Total(ys, c) && (Voted(xs, c) <==> Voted(ys, c))
    {
      TotalOfMultiset(xs, ys, c);
      WeightPositive(xs, c);
      WeightPositive(ys, c);
    }
    assert IsBest(xs, b);
    assert |xs| == |multiset(xs)| == |multiset(ys)| == |ys|;
  }

  // ---------- the confidence ----------

  function TotalWeight(votes: seq<Ballot>): real {
    if votes == [] then 0.0 else TotalWeight(votes[..|votes| - 1]) + Weight(votes[|votes| - 1])
  }

  const Actions := [OpenLong, OpenShort, CloseLong, CloseShort, Hold, Wait]

  function TotalOver(votes: seq<Ballot>, actions: seq<Action>): real {
    if actions == [] then 0.0
    else TotalOver(votes, actions[..|actions| - 1]) + Total(votes, actions[|actions| - 1])
  }

  // How many of the actions received votes.
  function Distinct(votes: seq<Ballot>, actions: seq<Action>): nat {
    if actions == [] then 0
    else Distinct(votes, actions[..|actions| - 1]) + if Voted(votes, actions[|actions| - 1]) then 1 else 0
  }

  lemma SixTotals(votes: seq<Ballot>)
    ensures TotalOver(votes, Actions)
      == Total(votes, OpenLong) + Total(votes, OpenShort) + Total(votes, CloseLong)
         + Total(votes, CloseShort) + Total(votes, Hold) + Total(votes, Wait)
  {
    assert Actions[..1][..0] == [];
    for i := 1 to 6
      invariant TotalOver(votes, Actions[..i]) == Total(votes, OpenLong)
        + (if i > 1 then Total(votes, OpenShort) else 0.0) + (if i > 2 then Total(votes, CloseLong) else 0.0)
        + (if i > 3 then Total(votes, CloseShort) else 0.0) + (if i > 4 then Total(votes, Hold) else 0.0)
        + (if i > 5 then Total(votes, Wait) else 0.0)
    {
      assert Actions[..i + 1][..i] == Actions[..i];
    }
    assert Actions[..6] == Actions;
  }

  lemma {:induction false} WeightSplits(votes: seq<Ballot>)
    ensures TotalWeight(votes) == TotalOver(votes, Actions)
  {
    SixTotals(votes);
    if votes != [] {
      WeightSplits(votes[..|votes| - 1]);
      SixTotals(votes[..|votes| - 1]);
    }
  }

  lemma {:induction false} TotalOverAtMost(votes: seq<Ballot>, actions: seq<Action>, top: real)
    requires forall a :: Total(votes, a) <= top
    ensures TotalOver(votes, actions) <= Distinct(votes, actions) as real * top
  {
    if actions != [] {
      var front, last := actions[..|actions| - 1], actions[|actions| - 1];
      TotalOverAtMost(votes, front, top);
      WeightPositive(votes, last);
      OneMore(Distinct(votes, front), top);
    }
  }

  lemma OneMore(n: nat, x: real)
    ensures (n + 1) as real * x == n as real * x + x
  {
    assert (n + 1) as real == n as real + 1.0;
  }

  lemma {:induction false} TotalAtMost(votes: seq<Ballot>, a: Action)
    requires forall i :: 0 <= i < |votes| ==> votes[i].confidence <= 100.0
    ensures Total(votes, a) <= 100.0 * |votes| as real
  {
    if votes != [] {
      TotalAtMost(votes[..|votes| - 1], a);
    }
  }

  /** An opening or closing consensus has confidence at most 100 if all inputs have, and at least
      the mean weight divided by the number of different actions voted for. */
  lemma {:induction false} ConfidenceBounds(votes: seq<Ballot>, best: Action)
    requires IsBest(votes, best) && !Passive(best)
    requires forall i :: 0 <= i < |votes| ==> votes[i].confidence <= 100.0
    ensures 0.0 < Outcome(votes, best).confidence <= 100.0
    ensures Outcome(votes, best).confidence * Distinct(votes, Actions) as real >= TotalWeight(votes) / |votes| as real
  {
    assert 0.0 < Outcome(votes, best).confidence <= 100.0 by {
      WeightPositive(votes, best);
      TotalAtMost(votes, best);
      AverageAtMost(Total(votes, best), |votes| as real, 100.0);
    }
    AverageAtLeast(votes, best);
  }

  lemma {:induction false} AverageAtLeast(votes: seq<Ballot>, best: Action)
    requires IsBest(votes, best)
    ensures Total(votes, best) / |votes| as real * Distinct(votes, Actions) as real
      >= TotalWeight(votes) / |votes| as real
  {
    WeightAtMost(votes, Total(votes, best));
    AverageAtMostProduct(Total(votes, best), |votes| as real, Distinct(votes, Actions) as real, TotalWeight(votes));
  }

  lemma WeightAtMost(votes: seq<Ballot>, top: real)
    requires forall a :: Total(votes, a) <= top
    ensures TotalWeight(votes) <= Distinct(votes, Actions) as real * top
  {
    WeightSplits(votes);
    TotalOverAtMost(votes, Actions, top);
  }

  lemma AverageAtMost(x: real, n: real, bound: real)
    requires n > 0.0 && 0.0 < x <= bound * n
    ensures 0.0 < x / n <= bound
  {
    DivideMonotone(x, bound * n, n);
    assert bound * n / n == bound;
  }

  lemma AverageAtMostProduct(x: real, n: real, d: real, sum: real)
    requires n > 0.0 && sum <= d * x
    ensures x / n * d >= sum / n
  {
    DivideMonotone(sum, d * x, n);
    assert d * x / n == x / n * d;
  }

  lemma DivideMonotone(x: real, y: real, n: real)
    requires n > 0.0 && x <= y
    ensures x / n <= y / n
  {
  }
}
