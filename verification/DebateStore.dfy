// A cancellation that overlaps the end of a debate (internal/debate/engine.go and debate_loop.go):
// the session's status and the stored copy are written in two sections, and a call first copies
// the stored status into the session.
module DebateStore {
  import opened Debate

  // The session's status, the stored one, what the cancellation read, and whether it was accepted.
  datatype View = View(meta: Status, stored: Status, read: Status, accepted: bool)

  const Balloted := View(Voting, Voting, Voting, false)

  /** The four sections of a cancellation: read the stored status, copy it into the session, check
      and cancel, store. */
  function CancelSection(v: View, k: nat): View {
    match k
    case 0 => v.(read := v.stored)
    case 1 => v.(meta := v.read)
    case 2 => if v.meta.Running? || v.meta.Voting? then v.(meta := Cancelled, accepted := true) else v
    case 3 => if v.accepted then v.(stored := Cancelled) else v
    case _ => v
  }

  function CancelSections(v: View, from: nat, to: nat): View
    requires from <= to
  {
    if from == to then v else CancelSection(CancelSections(v, from, to - 1), to - 1)
  }

  /** The loop completes the session after `a` sections of the cancellation, and stores that after
      `b` of them. */
  function Overlap(a: nat, b: nat): View
    requires a <= b <= 4
  {
    var completed := CancelSections(Balloted, 0, a).(meta := Completed);
    CancelSections(CancelSections(completed, a, b).(stored := Completed), b, 4)
  }

  /** However the two overlap: the cancellation is accepted if and only if it read the store before
      the completion was stored, and did not copy it just before the completion and check just
      after.  The debate is left cancelled in the store, and with that for every later call, if and
      only if it was accepted and stored last; in the session, if it copied after the completion. */
  lemma LateCancelIff(a: nat, b: nat)
    requires a <= b <= 4
    ensures var v := Overlap(a, b);
      && (v.accepted <==> b >= 1 && a != 2)
      && v.stored == (if v.accepted && b <= 3 then Cancelled else Completed)
      && v.meta == (if v.accepted && a <= 1 then Cancelled else Completed)
  {
    Sections(Balloted, 0, a);
    var completed := CancelSections(Balloted, 0, a).(meta := Completed);
    Sections(completed, a, b);
    Sections(CancelSections(completed, a, b).(stored := Completed), b, 4);
  }

  // The sections from `from` to `to`, one after the other.
  lemma Sections(v: View, from: nat, to: nat)
    requires from <= to <= 4
    ensures var v1 := if from <= 0 < to then CancelSection(v, 0) else v;
      var v2 := if from <= 1 < to then CancelSection(v1, 1) else v1;
      var v3 := if from <= 2 < to then CancelSection(v2, 2) else v2;
      CancelSections(v, from, to) == (if from <= 3 < to then CancelSection(v3, 3) else v3)
  {
    if from < to {
      Sections(v, from, to - 1);
    }
  }
}
