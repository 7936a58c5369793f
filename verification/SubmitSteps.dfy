/**
 The manager's methods against the threads of the program: what one calling thread
 does between taking the mutex and giving it back is what `SubmitBatch`,
 `RetrySubmit` and `ResumeSubmit` compute.
 */
module SubmitSteps {
  import opened Records
  import DeltaStore
  import opened UpdateManager
  import opened BufferObject
  import opened Pipeline
  import opened Visibility
  import opened Submitters

  /** Moves of thread `i` alone, from holding the mutex until it gives it back. */
  ghost predicate Section(ps: seq<Program>, ms: seq<Move>, i: nat, l: Limits, threshold: nat) {
    && |ps| == |ms| + 1 && (forall j :: 0 <= j < |ps| ==> i < |ps[j].pcs|)
    && (forall j :: 0 <= j < |ms| ==> !ms[j].Other? && ms[j].i == i && Holds(ps[j].pcs[i]))
    && (forall j :: 0 <= j < |ms| ==> Moves(ps[j], ms[j], ps[j+1], l, threshold))
    && !Holds(ps[|ms|].pcs[i])
  }

  lemma SectionTail(ps: seq<Program>, ms: seq<Move>, i: nat, l: Limits, threshold: nat)
    requires Section(ps, ms, i, l, threshold) && Holds(ps[0].pcs[i])
    ensures ms != [] && Section(ps[1..], ms[1..], i, l, threshold) && Moves(ps[0], ms[0], ps[1], l, threshold)
    ensures ps[1..][|ms| - 1] == ps[|ms|] && !ms[0].Other? && ms[0].i == i
  {
    hide Moves;
    var qs, ns := ps[1..], ms[1..];
    forall j | 0 <= j < |ns| ensures Moves(qs[j], ns[j], qs[j+1], l, threshold) {
      assert Moves(ps[j+1], ms[j+1], ps[j+2], l, threshold);
    }
  }

  lemma SectionSize(ps: seq<Program>, ms: seq<Move>, i: nat, l: Limits, threshold: nat)
    requires Section(ps, ms, i, l, threshold)
    ensures |ps| == |ms| + 1
  {
    hide Moves;
  }

  /** Nothing but the manager and the logs changes. */
  predicate SameRest(s: System, s': System) {
    s' == s.(mgr := s'.mgr, log := s'.log, issued := s'.issued)
  }

  /** How the thread and the system stand after reply `r` to a batch. */
  predicate Answered(p: Program, p': Program, i: nat, us: seq<Update>, r: Reply)
    requires i < |p.pcs|
  {
    && SameRest(p.sys, p'.sys)
    && match r
       case Accepted(c) => p'.pcs == p.pcs[i := Outside] && p'.sys.log == p.sys.log + Stamp(us, c)
       case MustWait(handed) => p'.pcs == p.pcs[i := Waiting(us, handed)] && p'.sys.log == p.sys.log
       case FatalError => p'.pcs == p.pcs[i := Outside] && p'.sys.log == p.sys.log
       case _ => false
  }

  /** A batch whose commit is taken and whose first `n` updates are published. */
  predicate PartlyPublished(s: System, m: Manager, us: seq<Update>, n: nat) {
    && HasActive(m) && m.next <= LATEST && n <= |us|
    && s.submission == Submitting(Stamp(us, m.next), n)
    && s.mgr == m.(next := m.next + 1, pending := PublishAll(m.pending, Stamp(us, m.next)[..n]))
  }

  lemma AnnounceStep(p: Program, mv: Move, p': Program, l: Limits, threshold: nat, m: Manager, us: seq<Update>, n: nat)
    requires !mv.Other? && mv.i < |p.pcs| && p.pcs[mv.i] == Placing(us) && PartlyPublished(p.sys, m, us, n)
    requires Moves(p, mv, p', l, threshold)
    ensures mv.Announce? ==>
      && n < |us| && p'.pcs == p.pcs && PartlyPublished(p'.sys, m, us, n + 1)
      && p'.sys == p.sys.(mgr := p'.sys.mgr, submission := p'.sys.submission)
    ensures mv.Announce? || (mv.Settle? && n == |us|)
  {
    hide Rotate, Activate, Overflows, Full;
    if mv.Announce? {
      var stamped := Stamp(us, m.next);
      assert Ready(p.sys, PublishOne);
      assert stamped[..n+1][..n] == stamped[..n] && stamped[..n+1][n] == stamped[n];
    }
  }

  lemma SettleStep(p: Program, mv: Move, p': Program, l: Limits, threshold: nat, m: Manager, us: seq<Update>)
    requires mv.Settle? && mv.i < |p.pcs| && p.pcs[mv.i] == Placing(us) && PartlyPublished(p.sys, m, us, |us|)
    requires Moves(p, mv, p', l, threshold)
    ensures p'.pcs == p.pcs[mv.i := Closing] && p'.sys.mgr == Place(m, us) && p'.sys.submission.NoSubmission?
    ensures p'.sys == p.sys.(mgr := p'.sys.mgr, submission := NoSubmission, log := p.sys.log + Stamp(us, m.next))
  {
    hide Rotate, Activate, Overflows, Full, PublishAll;
    assert Ready(p.sys, Acknowledge);
    assert Stamp(us, m.next)[..|us|] == Stamp(us, m.next);
  }

  lemma LeaveStep(p: Program, mv: Move, p': Program, l: Limits, threshold: nat)
    requires !mv.Other? && mv.i < |p.pcs| && p.pcs[mv.i] == Closing && HasActive(p.sys.mgr)
    requires Moves(p, mv, p', l, threshold)
    ensures p'.pcs == p.pcs[mv.i := Outside] && p'.sys == p.sys.(mgr := RotateIfFull(l, p.sys.mgr))
  {
    hide Rotate, Activate, Overflows, Full;
    if Full(l, ActiveRecords(p.sys.mgr)) {
      assert Ready(p.sys, RotateBuffer);
    }
  }

  /** From the commit on: the whole batch is published, placed and acknowledged. */
  lemma {:induction false} PlacingEnds(ps: seq<Program>, ms: seq<Move>, i: nat, l: Limits, threshold: nat, m: Manager,
                                       us: seq<Update>, n: nat)
    requires Section(ps, ms, i, l, threshold) && i < |ps[0].pcs| && ps[0].pcs[i] == Placing(us)
    requires PartlyPublished(ps[0].sys, m, us, n)
    ensures var p, p' := ps[0], ps[|ms|];
            && p'.pcs == p.pcs[i := Outside] && p'.sys.mgr == RotateIfFull(l, Place(m, us))
            && p'.sys == p.sys.(mgr := p'.sys.mgr, submission := NoSubmission, log := p.sys.log + Stamp(us, m.next))
    decreases |ms|
  {
    assert HasActive(m) && m.next <= LATEST;
    hide Moves, PartlyPublished, RotateIfFull, Place, Stamp;
    SectionTail(ps, ms, i, l, threshold);
    AnnounceStep(ps[0], ms[0], ps[1], l, threshold, m, us, n);
    if ms[0].Announce? {
      PlacingEnds(ps[1..], ms[1..], i, l, threshold, m, us, n + 1);
    } else {
      SettleStep(ps[0], ms[0], ps[1], l, threshold, m, us);
      ClosingEnds(ps[1..], ms[1..], i, l, threshold, m, us);
    }
  }

  lemma ClosingEnds(ps: seq<Program>, ms: seq<Move>, i: nat, l: Limits, threshold: nat, m: Manager, us: seq<Update>)
    requires Section(ps, ms, i, l, threshold) && i < |ps[0].pcs| && ps[0].pcs[i] == Closing
    requires HasActive(m) && m.next <= LATEST && ps[0].sys.mgr == Place(m, us)
    ensures ps[|ms|].pcs == ps[0].pcs[i := Outside]
    ensures ps[|ms|].sys == ps[0].sys.(mgr := RotateIfFull(l, Place(m, us)))
  {
    hide Moves, RotateIfFull, Stamp, PublishAll;
    SectionTail(ps, ms, i, l, threshold);
    LeaveStep(ps[0], ms[0], ps[1], l, threshold);
    SectionDone(ps[1..], ms[1..], i, l, threshold);
  }

  lemma SectionDone(ps: seq<Program>, ms: seq<Move>, i: nat, l: Limits, threshold: nat)
    requires Section(ps, ms, i, l, threshold) && !Holds(ps[0].pcs[i])
    ensures ms == []
  {
    hide Moves;
  }

  // ---- At the head of the wait loop ----

  /** Nothing is being published and the active buffer exists. */
  predicate AtRest(s: System) {
    s.submission.NoSubmission? && s.mgr.next <= LATEST && (s.mgr.active.Some? ==> HasActive(s.mgr))
  }

  /** One step of a thread that checks for room: exactly one of these is possible. */
  lemma CheckStep(p: Program, mv: Move, p': Program, l: Limits, threshold: nat, us: seq<Update>, handed: bool)
    requires !mv.Other? && mv.i < |p.pcs| && p.pcs[mv.i] == Checking(us, handed) && AtRest(p.sys)
    requires Moves(p, mv, p', l, threshold)
    ensures var m := p.sys.mgr;
            if m.fatal then p'.pcs == p.pcs[mv.i := Outside] && p'.sys == p.sys
            else if m.active.None? then p'.pcs == p.pcs[mv.i := Waiting(us, handed)] && p'.sys == p.sys
            else if !handed && Overflows(l, m.buffers[m.active.value].records, us) then
              p'.pcs == p.pcs[mv.i := Checking(us, true)] && p'.sys == p.sys.(mgr := Rotate(m))
            else
              && p'.pcs == p.pcs[mv.i := Placing(us)] && PartlyPublished(p'.sys, m, us, 0)
              && p'.sys == p.sys.(mgr := p'.sys.mgr, submission := p'.sys.submission, issued := p'.sys.issued)
  {
    hide Rotate, Activate, Overflows, Full;
    if mv.HandOver? {
      assert Ready(p.sys, RotateBuffer);
    } else if mv.Commit? {
      assert Ready(p.sys, Start(us));
      assert Stamp(us, p.sys.mgr.next)[..0] == [];
    }
  }

  /** Once a buffer was handed over, the rest follows without another look at the capacity. */
  function ReplyHanded(m: Manager): Reply
    requires m.next <= LATEST
  {
    if m.fatal then FatalError else if m.active.None? then MustWait(true) else Accepted(m.next)
  }

  function AfterHanded(l: Limits, m: Manager, us: seq<Update>): Manager
    requires m.next <= LATEST && (m.active.Some? ==> HasActive(m))
  {
    if ReplyHanded(m).Accepted? then RotateIfFull(l, Place(m, us)) else m
  }

  lemma HandedEnds(ps: seq<Program>, ms: seq<Move>, i: nat, l: Limits, threshold: nat, us: seq<Update>)
    requires Section(ps, ms, i, l, threshold) && i < |ps[0].pcs| && ps[0].pcs[i] == Checking(us, true)
    requires AtRest(ps[0].sys)
    ensures Answered(ps[0], ps[|ms|], i, us, ReplyHanded(ps[0].sys.mgr))
    ensures ps[|ms|].sys.mgr == AfterHanded(l, ps[0].sys.mgr, us)
  {
    hide Moves, PartlyPublished, RotateIfFull, Place, Stamp, Overflows;
    var m := ps[0].sys.mgr;
    SectionTail(ps, ms, i, l, threshold);
    CheckStep(ps[0], ms[0], ps[1], l, threshold, us, true);
    if m.fatal || m.active.None? {
      SectionDone(ps[1..], ms[1..], i, l, threshold);
    } else {
      PlacingEnds(ps[1..], ms[1..], i, l, threshold, m, us, 0);
    }
  }

  lemma CheckingEnds(ps: seq<Program>, ms: seq<Move>, i: nat, l: Limits, threshold: nat, us: seq<Update>)
    requires Section(ps, ms, i, l, threshold) && i < |ps[0].pcs| && ps[0].pcs[i] == Checking(us, false)
    requires AtRest(ps[0].sys) && Admissible(l, us)
    ensures Answered(ps[0], ps[|ms|], i, us, ReplyTo(l, ps[0].sys.mgr, us))
    ensures ps[|ms|].sys.mgr == AfterSubmit(l, ps[0].sys.mgr, us)
  {
    hide Moves, PartlyPublished, RotateIfFull, Place, Stamp, Overflows, Rotate, TotalCost;
    var m := ps[0].sys.mgr;
    SectionTail(ps, ms, i, l, threshold);
    CheckStep(ps[0], ms[0], ps[1], l, threshold, us, false);
    if m.fatal || m.active.None? {
      SectionDone(ps[1..], ms[1..], i, l, threshold);
    } else if Overflows(l, m.buffers[m.active.value].records, us) {
      RotateKeeps(m);
      HandedEnds(ps[1..], ms[1..], i, l, threshold, us);
    } else {
      PlacingEnds(ps[1..], ms[1..], i, l, threshold, m, us, 0);
    }
  }

  // ---- Whole calls ----

  /** A call of thread `i` without interruption: a first move that takes the mutex, and the section it opens. */
  ghost predicate Call(ps: seq<Program>, ms: seq<Move>, i: nat, l: Limits, threshold: nat) {
    && |ps| == |ms| + 1 && ms != [] && i < |ps[0].pcs| && Moves(ps[0], ms[0], ps[1], l, threshold)
    && Section(ps[1..], ms[1..], i, l, threshold)
  }

  /** Every submission of one thread ends in the reply and the state of `SubmitBatch`. */
  lemma SubmitRefines(ps: seq<Program>, ms: seq<Move>, i: nat, us: seq<Update>, l: Limits, threshold: nat)
    requires Call(ps, ms, i, l, threshold) && ms[0] == Enter(i, us) && AtRest(ps[0].sys)
    ensures Answered(ps[0], ps[|ms|], i, us, ReplyTo(l, ps[0].sys.mgr, us))
    ensures ps[|ms|].sys.mgr == AfterSubmit(l, ps[0].sys.mgr, us)
  {
    assert ps[1] == Program(ps[0].sys, ps[0].pcs[i := Checking(us, false)]) && Admissible(l, us);
    hide Moves, ReplyTo, AfterSubmit, Section, Stamp;
    CheckingEnds(ps[1..], ms[1..], i, l, threshold, us);
  }

  lemma WakeStep(p: Program, i: nat, p': Program, l: Limits, threshold: nat)
    requires i < |p.pcs| && AtRest(p.sys) && Moves(p, Wake(i), p', l, threshold)
    ensures p.pcs[i].Waiting? && p'.pcs == p.pcs[i := Checking(p.pcs[i].us, p.pcs[i].handed)]
    ensures p'.sys == p.sys.(mgr := Activate(p.sys.mgr)) && AtRest(p'.sys)
  {
    hide Overflows, Full, FirstFree;
    assert Ready(p.sys, Rescan);
    ActivateKeeps(p.sys.mgr);
  }

  /** A thread that slept before handing over a buffer starts again as `RetrySubmit` does. */
  lemma RetryRefines(ps: seq<Program>, ms: seq<Move>, i: nat, us: seq<Update>, l: Limits, threshold: nat)
    requires Call(ps, ms, i, l, threshold) && ms[0] == Wake(i) && AtRest(ps[0].sys)
    requires ps[0].pcs[i] == Waiting(us, false) && Admissible(l, us)
    ensures AtRest(ps[0].sys.(mgr := Activate(ps[0].sys.mgr)))
    ensures Answered(ps[0], ps[|ms|], i, us, ReplyTo(l, Activate(ps[0].sys.mgr), us))
    ensures ps[|ms|].sys.mgr == AfterSubmit(l, Activate(ps[0].sys.mgr), us)
  {
    hide Moves, ReplyTo, AfterSubmit, Section, Stamp, Activate;
    WakeStep(ps[0], i, ps[1], l, threshold);
    CheckingEnds(ps[1..], ms[1..], i, l, threshold, us);
  }

  /** A thread that slept after handing over a buffer goes on as `ResumeSubmit` does. */
  lemma ResumeRefines(ps: seq<Program>, ms: seq<Move>, i: nat, us: seq<Update>, l: Limits, threshold: nat)
    requires Call(ps, ms, i, l, threshold) && ms[0] == Wake(i) && AtRest(ps[0].sys)
    requires ps[0].pcs[i] == Waiting(us, true)
    ensures Answered(ps[0], ps[|ms|], i, us, ReplyOnWake(ps[0].sys.mgr))
    ensures ps[|ms|].sys.mgr == AfterWake(l, ps[0].sys.mgr, us)
  {
    hide Moves, Section, Stamp, Activate, Place, RotateIfFull;
    WakeStep(ps[0], i, ps[1], l, threshold);
    ActivateKeeps(ps[0].sys.mgr);
    HandedEnds(ps[1..], ms[1..], i, l, threshold, us);
  }

  // ---- Calls exist ----

  lemma Prepend(p: Program, mv: Move, ps: seq<Program>, ms: seq<Move>, i: nat, l: Limits, threshold: nat)
    requires Section(ps, ms, i, l, threshold) && !mv.Other? && mv.i == i < |p.pcs| && Holds(p.pcs[i])
    requires Moves(p, mv, ps[0], l, threshold)
    ensures Section([p] + ps, [mv] + ms, i, l, threshold)
  {
    hide Moves;
    var qs, ns := [p] + ps, [mv] + ms;
    forall j | 0 <= j < |ns| ensures Moves(qs[j], ns[j], qs[j+1], l, threshold) {
      if j > 0 {
        assert Moves(ps[j-1], ms[j-1], ps[j], l, threshold);
      }
    }
  }

  lemma OneMove(p: Program, mv: Move, p': Program, i: nat, l: Limits, threshold: nat)
    requires !mv.Other? && mv.i == i < |p.pcs| && Holds(p.pcs[i]) && Moves(p, mv, p', l, threshold)
    requires |p'.pcs| == |p.pcs| && !Holds(p'.pcs[i])
    ensures Section([p, p'], [mv], i, l, threshold)
  {
    hide Moves;
  }

  lemma LeaveExists(p: Program, i: nat, l: Limits, threshold: nat) returns (ps: seq<Program>, ms: seq<Move>)
    requires i < |p.pcs| && p.pcs[i].Closing? && AtRest(p.sys)
    ensures Section(ps, ms, i, l, threshold) && ps[0] == p
  {
    hide Rotate, Activate, Full;
    var mv := Leave(i);
    var p' := Program(if Full(l, ActiveRecords(p.sys.mgr)) then p.sys.(mgr := Rotate(p.sys.mgr)) else p.sys,
                      p.pcs[i := Outside]);
    assert Moves(p, mv, p', l, threshold);
    OneMove(p, mv, p', i, l, threshold);
    ps, ms := [p, p'], [mv];
  }

  lemma SettleExists(p: Program, i: nat, l: Limits, threshold: nat, m: Manager, us: seq<Update>)
      returns (ps: seq<Program>, ms: seq<Move>)
    requires i < |p.pcs| && p.pcs[i] == Placing(us) && PartlyPublished(p.sys, m, us, |us|) && m.next < LATEST
    ensures Section(ps, ms, i, l, threshold) && ps[0] == p
  {
    hide Rotate, Activate, Full, PublishAll, Stamp;
    var p' := Program(Act(p.sys, Acknowledge, threshold), p.pcs[i := Closing]);
    assert Moves(p, Settle(i), p', l, threshold);
    var qs, ns := LeaveExists(p', i, l, threshold);
    hide Moves, Section;
    Prepend(p, Settle(i), qs, ns, i, l, threshold);
    ps, ms := [p] + qs, [Settle(i)] + ns;
  }

  lemma {:induction false} PlacingExists(p: Program, i: nat, l: Limits, threshold: nat, m: Manager, us: seq<Update>,
                                         n: nat)
      returns (ps: seq<Program>, ms: seq<Move>)
    requires i < |p.pcs| && p.pcs[i] == Placing(us) && PartlyPublished(p.sys, m, us, n) && m.next < LATEST
    ensures Section(ps, ms, i, l, threshold) && ps[0] == p
    decreases |us| - n
  {
    hide Rotate, Activate, Full, PublishAll, Publish, Overflows;
    if n == |us| {
      ps, ms := SettleExists(p, i, l, threshold, m, us);
    } else {
      var p' := Program(Act(p.sys, PublishOne, threshold), p.pcs);
      assert p.pcs[i := Placing(us)] == p.pcs;
      assert Moves(p, Announce(i), p', l, threshold);
      AnnounceStep(p, Announce(i), p', l, threshold, m, us, n);
      hide Moves, Section, PartlyPublished;
      var qs, ns := PlacingExists(p', i, l, threshold, m, us, n + 1);
      Prepend(p, Announce(i), qs, ns, i, l, threshold);
      ps, ms := [p] + qs, [Announce(i)] + ns;
    }
  }

  /** What a submission needs beyond room: known records, bound to one target each, and a commit number left. */
  ghost predicate Bound(s: System, m: Manager, us: seq<Update>) {
    us != [] && s.mgr.next < LATEST && Known(s.home, us) && Uniform(ActiveRecords(m) + us)
  }

  lemma HandedExists(p: Program, i: nat, l: Limits, threshold: nat, us: seq<Update>, handed: bool)
      returns (ps: seq<Program>, ms: seq<Move>)
    requires i < |p.pcs| && p.pcs[i] == Checking(us, handed) && AtRest(p.sys) && Bound(p.sys, p.sys.mgr, us)
    requires p.sys.mgr.fatal || p.sys.mgr.active.None? || handed || !Overflows(l, ActiveRecords(p.sys.mgr), us)
    ensures Section(ps, ms, i, l, threshold) && ps[0] == p
  {
    hide Rotate, Activate, Full, PublishAll, Overflows, Uniform, Known;
    var m := p.sys.mgr;
    if m.fatal || m.active.None? {
      var mv := if m.fatal then Refuse(i) else Sleep(i);
      var p' := Program(p.sys, p.pcs[i := if m.fatal then Outside else Waiting(us, handed)]);
      assert Moves(p, mv, p', l, threshold);
      OneMove(p, mv, p', i, l, threshold);
      ps, ms := [p, p'], [mv];
    } else {
      var p' := Program(Act(p.sys, Start(us), threshold), p.pcs[i := Placing(us)]);
      assert Moves(p, Commit(i), p', l, threshold);
      CheckStep(p, Commit(i), p', l, threshold, us, handed);
      hide Moves, Section, PartlyPublished;
      var qs, ns := PlacingExists(p', i, l, threshold, m, us, 0);
      Prepend(p, Commit(i), qs, ns, i, l, threshold);
      ps, ms := [p] + qs, [Commit(i)] + ns;
    }
  }

  lemma CheckingExists(p: Program, i: nat, l: Limits, threshold: nat, us: seq<Update>)
      returns (ps: seq<Program>, ms: seq<Move>)
    requires i < |p.pcs| && p.pcs[i] == Checking(us, false) && AtRest(p.sys)
    requires Bound(p.sys, p.sys.mgr, us) && Bound(p.sys, Rotate(p.sys.mgr), us)
    ensures Section(ps, ms, i, l, threshold) && ps[0] == p
  {
    hide Activate, Full, PublishAll, Overflows, Uniform, Known, Section;
    var m := p.sys.mgr;
    if m.fatal || m.active.None? || !Overflows(l, ActiveRecords(m), us) {
      ps, ms := HandedExists(p, i, l, threshold, us, false);
    } else {
      RotateKeeps(m);
      hide Rotate;
      var p' := Program(p.sys.(mgr := Rotate(m)), p.pcs[i := Checking(us, true)]);
      assert Moves(p, HandOver(i), p', l, threshold);
      hide Moves;
      var qs, ns := HandedExists(p', i, l, threshold, us, true);
      Prepend(p, HandOver(i), qs, ns, i, l, threshold);
      ps, ms := [p] + qs, [HandOver(i)] + ns;
    }
  }

  /** From every state without the mutex held, an admissible batch of known records has a call that answers it. */
  lemma SubmitExists(p: Program, i: nat, us: seq<Update>, l: Limits, threshold: nat)
      returns (ps: seq<Program>, ms: seq<Move>)
    requires i < |p.pcs| && p.pcs[i].Outside? && Unlocked(p.pcs) && AtRest(p.sys) && Admissible(l, us)
    requires Bound(p.sys, p.sys.mgr, us) && Bound(p.sys, Rotate(p.sys.mgr), us)
    ensures Call(ps, ms, i, l, threshold) && ps[0] == p && ms[0] == Enter(i, us)
    ensures Answered(p, ps[|ms|], i, us, ReplyTo(l, p.sys.mgr, us))
    ensures ps[|ms|].sys.mgr == AfterSubmit(l, p.sys.mgr, us)
  {
    hide Section, Bound, Rotate, ReplyTo, AfterSubmit, Answered, Overflows, TotalCost;
    var p' := p.(pcs := p.pcs[i := Checking(us, false)]);
    assert Moves(p, Enter(i, us), p', l, threshold);
    hide Moves;
    var qs, ns := CheckingExists(p', i, l, threshold, us);
    ps, ms := [p] + qs, [Enter(i, us)] + ns;
    SectionSize(qs, ns, i, l, threshold);
    assert ps[1..] == qs && ms[1..] == ns;
    SubmitRefines(ps, ms, i, us, l, threshold);
  }

  // ---- After a failed flush ----

  /** A failed manager accepts nothing, at the first try or on waking up, and keeps its buffers as they are. */
  lemma FatalAcceptsNothing(l: Limits, m: Manager, us: seq<Update>)
    requires m.fatal && m.next <= LATEST && (m.active.Some? ==> HasActive(m))
    ensures !ReplyTo(l, m, us).Accepted? && !ReplyTo(l, m, us).MustWait? && AfterSubmit(l, m, us) == m
    ensures ReplyOnWake(m) == FatalError
    ensures AfterWake(l, m, us) == m.(buffers := AfterWake(l, m, us).buffers, active := AfterWake(l, m, us).active)
    ensures forall b :: 0 <= b < |m.buffers| ==>
      b < |AfterWake(l, m, us).buffers| && AfterWake(l, m, us).buffers[b].records == m.buffers[b].records
  {
    hide TotalCost, Overflows, Place, Rotate;
  }

  predicate Failing(s: System) {
    s.mgr.fatal ==> s.submission.NoSubmission?
  }

  /** No batch is under way when a flush fails, and none starts afterwards. */
  lemma FatalStep(s: System, a: Action, threshold: nat)
    requires Failing(s) && Ready(s, a)
    ensures var s' := Act(s, a, threshold);
            Failing(s') &&
              (s.mgr.fatal ==> s'.mgr.fatal && s'.log == s.log && s'.issued == s.issued)
  {
    hide DeltaStore.Step, DeltaStore.Enabled, Publish, Retire, GroupBy, ShowFile, NewFloor, Uniform, Known;
  }

  lemma {:induction false} FailingAlways(ps: seq<Program>, ms: seq<Move>, l: Limits, threshold: nat, i: nat)
    requires ProgramRun(ps, ms, l, threshold) && threshold > 0 && i < |ps|
    ensures Failing(ps[i].sys)
    ensures i > 0 && ps[i-1].sys.mgr.fatal ==> ps[i].sys.mgr.fatal && ps[i].sys.log == ps[i-1].sys.log
    ensures i > 0 && ps[i-1].sys.mgr.fatal ==> ps[i].sys.issued == ps[i-1].sys.issued
  {
    hide SystemInv, Act, Ready, Can, Allowed, ActionOf, PcAfter;
    if i > 0 {
      FailingAlways(ps, ms, l, threshold, i - 1);
      ProgramSystem(ps, ms, l, threshold, i - 1);
      assert Moves(ps[i-1], ms[i-1], ps[i], l, threshold);
      var a := ActionOf(ps[i-1], ms[i-1], l);
      if a.Some? {
        CanIsReady(ps[i-1].sys, a.value, threshold);
        FatalStep(ps[i-1].sys, a.value, threshold);
      }
    }
  }

  /**
   Once a flush failed, in every run of any number of threads: the manager stays failed,
   and no batch is given a commit or acknowledged ever again.
   */
  lemma {:induction false} FatalIsFinal(ps: seq<Program>, ms: seq<Move>, l: Limits, threshold: nat, i: nat, j: nat)
    requires ProgramRun(ps, ms, l, threshold) && threshold > 0 && i <= j < |ps| && ps[i].sys.mgr.fatal
    ensures ps[j].sys.mgr.fatal && ps[j].sys.log == ps[i].sys.log && ps[j].sys.issued == ps[i].sys.issued
    decreases j
  {
    hide ProgramRun;
    if i < j {
      FatalIsFinal(ps, ms, l, threshold, i, j - 1);
      FailingAlways(ps, ms, l, threshold, j);
    }
  }

  // ---- The mutex ----

  /** One thread at a time holds the mutex, and a batch is under way exactly while one thread places it. */
  ghost predicate MutexOk(p: Program) {
    && (forall j, k :: 0 <= j < |p.pcs| && 0 <= k < |p.pcs| && Holds(p.pcs[j]) && Holds(p.pcs[k]) ==> j == k)
    && (p.sys.submission.Submitting? <==> exists j :: 0 <= j < |p.pcs| && p.pcs[j].Placing?)
  }

  lemma SubmissionAfter(s: System, a: Action, threshold: nat)
    requires Ready(s, a)
    ensures Act(s, a, threshold).submission.Submitting? <==>
      a.Start? || a.PublishOne? || (s.submission.Submitting? && !a.Acknowledge?)
  {
    hide DeltaStore.Step, DeltaStore.Enabled, Publish, Retire, GroupBy, ShowFile, NewFloor, Uniform, Known;
    hide Rotate, Activate, Take, Finish;
  }

  lemma MutexStep(p: Program, mv: Move, p': Program, l: Limits, threshold: nat)
    requires MutexOk(p) && Moves(p, mv, p', l, threshold) && SystemInv(p.sys, threshold)
    ensures MutexOk(p')
  {
    hide SystemInv, Act, Ready, Can, Overflows, Full, Admissible;
    var a := ActionOf(p, mv, l);
    if a.Some? {
      CanIsReady(p.sys, a.value, threshold);
      SubmissionAfter(p.sys, a.value, threshold);
    }
    if !mv.Other? {
      assert forall j :: 0 <= j < |p.pcs| && j != mv.i ==> p'.pcs[j] == p.pcs[j];
      assert Holds(p.pcs[mv.i]) || Unlocked(p.pcs) || mv.EndDrain?;
      if mv.Commit? || mv.Announce? {
        assert p'.pcs[mv.i].Placing?;
      }
    }
  }

  lemma {:induction false} MutexAlways(ps: seq<Program>, ms: seq<Move>, l: Limits, threshold: nat, i: nat)
    requires ProgramRun(ps, ms, l, threshold) && threshold > 0 && i < |ps|
    ensures MutexOk(ps[i])
  {
    hide SystemInv, MutexOk, Moves;
    if i == 0 {
      OpenedMutex(ps[0], threshold);
    } else {
      MutexAlways(ps, ms, l, threshold, i - 1);
      ProgramSystem(ps, ms, l, threshold, i - 1);
      MutexStep(ps[i-1], ms[i-1], ps[i], l, threshold);
    }
  }

  lemma OpenedMutex(p: Program, threshold: nat)
    requires FreshlyOpened(p.sys, threshold) && forall i :: 0 <= i < |p.pcs| ==> p.pcs[i].Outside?
    ensures MutexOk(p)
  {}

  /** In every run a thread that finds the mutex free finds no batch half submitted. */
  lemma RestsWhenUnlocked(ps: seq<Program>, ms: seq<Move>, l: Limits, threshold: nat, i: nat)
    requires ProgramRun(ps, ms, l, threshold) && threshold > 0 && i < |ps|
    requires Unlocked(ps[i].pcs) && ps[i].sys.mgr.next <= LATEST
    ensures AtRest(ps[i].sys)
  {
    hide ProgramRun, SystemInv;
    MutexAlways(ps, ms, l, threshold, i);
    ProgramSystem(ps, ms, l, threshold, i);
    ManagerOk(ps[i].sys, threshold);
  }
}
