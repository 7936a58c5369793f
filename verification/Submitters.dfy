/**
 The threads that submit updates and drain the manager, with their program
 counters and the mutex, on top of the pipeline's steps: what one submitting
 thread is promised, and what more than one may lose.
 */
module Submitters {
  import opened Records
  import opened DeltaStore
  import opened UpdateManager
  import opened BufferObject
  import opened Pipeline
  import opened PipelineManager
  import opened Visibility

  /** Where a calling thread stands. It holds the mutex in `Checking`, `Placing` and `Closing`. */
  datatype Pc =
    | Outside
    | Checking(us: seq<Update>, handed: bool)   // at the head of the wait loop; `handed` after giving a buffer away
    | Waiting(us: seq<Update>, handed: bool)    // asleep until a buffer is freed
    | Placing(us: seq<Update>)                  // commit taken, batch being published
    | Closing                                   // batch acknowledged, a full buffer not handed over yet
    | Draining                                  // asleep in a drain

  datatype Program = Program(sys: System, pcs: seq<Pc>)

  datatype Move =
    | Enter(i: nat, us: seq<Update>)
    | Refuse(i: nat)
    | Sleep(i: nat)
    | HandOver(i: nat)
    | Commit(i: nat)
    | Announce(i: nat)
    | Settle(i: nat)
    | Leave(i: nat)
    | Wake(i: nat)
    | CallDrain(i: nat)
    | EndDrain(i: nat)
    | Other(a: Action)   // the worker, merges and compaction

  predicate Holds(pc: Pc) {
    pc.Checking? || pc.Placing? || pc.Closing?
  }

  predicate Unlocked(pcs: seq<Pc>) {
    forall i :: 0 <= i < |pcs| ==> !Holds(pcs[i])
  }

  /** Steps of the pipeline that belong to a calling thread. */
  predicate Calls(a: Action) {
    a.Start? || a.PublishOne? || a.Acknowledge? || a.RotateBuffer? || a.Rescan?
  }

  predicate Idle(s: System) {
    s.mgr.queue == [] && s.worker.Resting?
  }

  /** What control flow and the mutex allow; the step's own guard comes on top. */
  predicate Allowed(p: Program, mv: Move, l: Limits) {
    if mv.Other? then !Calls(mv.a) && (mv.a.TakeBuffer? || mv.a.Done? ==> Unlocked(p.pcs))
    else
      && mv.i < |p.pcs|
      && var pc, m := p.pcs[mv.i], p.sys.mgr;
      match mv
      case Enter(_, us) => pc.Outside? && Unlocked(p.pcs) && Admissible(l, us)
      case Refuse(_) => pc.Checking? && m.fatal
      case Sleep(_) => pc.Checking? && !m.fatal && m.active.None?
      case HandOver(_) =>
        pc.Checking? && !m.fatal && m.active.Some? && !pc.handed && Overflows(l, ActiveRecords(m), pc.us)
      case Commit(_) =>
        pc.Checking? && !m.fatal && m.active.Some? && (pc.handed || !Overflows(l, ActiveRecords(m), pc.us))
      case Announce(_) => pc.Placing?
      case Settle(_) => pc.Placing?
      case Leave(_) => pc.Closing?
      case Wake(_) => pc.Waiting? && Unlocked(p.pcs)
      case CallDrain(_) => pc.Outside? && Unlocked(p.pcs) && !m.fatal
      case EndDrain(_) => pc.Draining? && Unlocked(p.pcs) && (m.fatal || Idle(p.sys))
  }

  /** The pipeline step a move takes, if any. A woken thread scans for a free buffer whatever is active. */
  function ActionOf(p: Program, mv: Move, l: Limits): Option<Action>
    requires Allowed(p, mv, l)
  {
    match mv
    case Enter(_, _) => None
    case Refuse(_) => None
    case Sleep(_) => None
    case HandOver(_) => Some(RotateBuffer)
    case Commit(i) => Some(Start(p.pcs[i].us))
    case Announce(_) => Some(PublishOne)
    case Settle(_) => Some(Acknowledge)
    case Leave(_) => if Full(l, ActiveRecords(p.sys.mgr)) then Some(RotateBuffer) else None
    case Wake(_) => Some(Rescan)
    case CallDrain(_) => Some(RotateBuffer)
    case EndDrain(_) => if !p.sys.mgr.fatal && p.sys.mgr.active.None? then Some(Rescan) else None
    case Other(a) => Some(a)
  }

  function PcAfter(p: Program, mv: Move, l: Limits): Pc
    requires Allowed(p, mv, l) && !mv.Other?
  {
    var pc := p.pcs[mv.i];
    match mv
    case Enter(_, us) => Checking(us, false)
    case Refuse(_) => Outside
    case Sleep(_) => Waiting(pc.us, pc.handed)
    case HandOver(_) => Checking(pc.us, true)
    case Commit(_) => Placing(pc.us)
    case Announce(_) => pc
    case Settle(_) => Closing
    case Leave(_) => Outside
    case Wake(_) => Checking(pc.us, pc.handed)
    case CallDrain(_) => Draining
    case EndDrain(_) => Outside
  }

  ghost predicate Moves(p: Program, mv: Move, p': Program, l: Limits, threshold: nat) {
    && Allowed(p, mv, l)
    && p'.pcs == (if mv.Other? then p.pcs else p.pcs[mv.i := PcAfter(p, mv, l)])
    && match ActionOf(p, mv, l)
       case None => p'.sys == p.sys
       case Some(a) => Goes(p.sys, a, p'.sys, threshold)
  }

  /** Any interleaving of calling threads, worker, merges and compaction on an opened database. */
  ghost predicate ProgramRun(ps: seq<Program>, ms: seq<Move>, l: Limits, threshold: nat) {
    && |ps| == |ms| + 1 && FreshlyOpened(ps[0].sys, threshold) &&
      (forall i :: 0 <= i < |ps[0].pcs| ==> ps[0].pcs[i].Outside?)
    && forall i :: 0 <= i < |ms| ==> Moves(ps[i], ms[i], ps[i+1], l, threshold)
  }

  // ---- Program runs are runs of the pipeline ----

  /** Every state of a program run ends a run of the pipeline, so all its promises hold here. */
  lemma {:induction false} ProgramRefines(ps: seq<Program>, ms: seq<Move>, l: Limits, threshold: nat, i: nat)
      returns (states: seq<System>, actions: seq<Action>)
    requires ProgramRun(ps, ms, l, threshold) && i < |ps|
    ensures SystemRun(states, actions, threshold) && states[|actions|] == ps[i].sys
  {
    hide FreshlyOpened, Goes, Allowed;
    if i == 0 {
      states, actions := [ps[0].sys], [];
    } else {
      states, actions := ProgramRefines(ps, ms, l, threshold, i - 1);
      assert Moves(ps[i-1], ms[i-1], ps[i], l, threshold);
      var a := ActionOf(ps[i-1], ms[i-1], l);
      if a.Some? {
        LongerRun(states, actions, threshold, a.value, ps[i].sys);
        states, actions := states + [ps[i].sys], actions + [a.value];
      }
    }
  }

  lemma LongerRun(states: seq<System>, actions: seq<Action>, threshold: nat, a: Action, s: System)
    requires SystemRun(states, actions, threshold) && Goes(states[|actions|], a, s, threshold)
    ensures SystemRun(states + [s], actions + [a], threshold)
  {
    hide FreshlyOpened, Goes;
    var states', actions' := states + [s], actions + [a];
    forall i | 0 <= i < |actions'| ensures Goes(states'[i], actions'[i], states'[i+1], threshold) {
      if i < |actions| {
        assert states'[i+1] == states[i+1];
      }
    }
  }

  lemma ProgramSystem(ps: seq<Program>, ms: seq<Move>, l: Limits, threshold: nat, i: nat)
    requires ProgramRun(ps, ms, l, threshold) && threshold > 0 && i < |ps|
    ensures SystemInv(ps[i].sys, threshold)
  {
    hide SystemInv, ProgramRun, SystemRun;
    var states, actions := ProgramRefines(ps, ms, l, threshold, i);
    RunLength(states, actions, threshold);
    SystemAt(states, actions, threshold, |actions|);
  }

  lemma RunLength(states: seq<System>, actions: seq<Action>, threshold: nat)
    requires SystemRun(states, actions, threshold)
    ensures |states| == |actions| + 1
  {}

  // ---- One submitting thread ----

  /** Only one thread submits; any number of others may drain. */
  predicate OnlySubmitter(ms: seq<Move>, only: nat) {
    forall i :: 0 <= i < |ms| && ms[i].Enter? ==> ms[i].i == only
  }

  /** No update sits in a buffer that is marked active but is not the active one. */
  predicate Unstranded(bs: seq<Buffer>, active: Option<nat>) {
    forall b :: 0 <= b < |bs| && bs[b].state.Active? && active != Some(b) ==> bs[b].records == []
  }

  predicate Fits(l: Limits, held: seq<Update>, us: seq<Update>) {
    |held| + |us| <= l.records && TotalCost(l, held) + TotalCost(l, us) <= l.bytes
  }

  /** The submitter stands where the active buffer, if there is one, has to be empty. */
  predicate Clear(pc: Pc) {
    pc.Waiting? || pc.Draining? || (pc.Checking? && pc.handed)
  }

  ghost predicate SoleOk(m: Manager, sub: Submission, pc: Pc, l: Limits) {
    && Unstranded(m.buffers, m.active) && WithinCapacity(l, m.buffers)
    && (sub.Submitting? <==> pc.Placing?)
    && (Clear(pc) ==> ActiveRecords(m) == [])
    && (pc.Checking? || pc.Waiting? ==> Admissible(l, pc.us))
    && (pc.Placing? ==> Fits(l, ActiveRecords(m), sub.updates))
  }

  ghost predicate SoleInv(p: Program, only: nat, l: Limits) {
    && only < |p.pcs| && (forall j :: 0 <= j < |p.pcs| && j != only ==> p.pcs[j].Outside? || p.pcs[j].Draining?)
    && SoleOk(p.sys.mgr, p.sys.submission, p.pcs[only], l)
  }

  lemma RotateClears(m: Manager, flushing: Option<nat>, l: Limits)
    requires BuffersOk(m.buffers, m.queue, m.active, flushing) && Unstranded(m.buffers, m.active)
    requires WithinCapacity(l, m.buffers)
    ensures Unstranded(Rotate(m).buffers, Rotate(m).active) && ActiveRecords(Rotate(m)) == []
    ensures WithinCapacity(l, Rotate(m).buffers)
  {
    hide TotalCost;
    var r := Rotate(m);
    assert forall i :: 0 <= i < |m.buffers| ==> r.buffers[i].records == m.buffers[i].records;
  }

  lemma ActivateClears(m: Manager, flushing: Option<nat>, l: Limits)
    requires BuffersOk(m.buffers, m.queue, m.active, flushing) && Unstranded(m.buffers, m.active)
    requires WithinCapacity(l, m.buffers)
    requires ActiveRecords(m) == []
    ensures Unstranded(Activate(m).buffers, Activate(m).active) && ActiveRecords(Activate(m)) == []
    ensures WithinCapacity(l, Activate(m).buffers)
  {
    hide TotalCost;
    var r := Activate(m);
    assert forall i :: 0 <= i < |m.buffers| ==> r.buffers[i].records == m.buffers[i].records;
  }

  lemma WorkerClears(m: Manager, b: nat, ok: bool, l: Limits)
    requires BuffersOk(m.buffers, m.queue, m.active, Some(b)) && Unstranded(m.buffers, m.active)
    requires WithinCapacity(l, m.buffers)
    ensures Unstranded(Finish(m, b, ok).buffers, Finish(m, b, ok).active)
    ensures ActiveRecords(Finish(m, b, ok)) == ActiveRecords(m)
    ensures WithinCapacity(l, Finish(m, b, ok).buffers)
  {
    hide TotalCost;
    NoCost(l);
  }

  lemma TakeClears(m: Manager, l: Limits)
    requires BuffersOk(m.buffers, m.queue, m.active, None) && Unstranded(m.buffers, m.active)
    requires WithinCapacity(l, m.buffers)
    requires m.queue != []
    ensures Unstranded(Take(m).buffers, Take(m).active) && ActiveRecords(Take(m)) == ActiveRecords(m)
    ensures WithinCapacity(l, Take(m).buffers)
  {
    hide TotalCost;
  }

  lemma AppendClears(m: Manager, flushing: Option<nat>, us: seq<Update>, l: Limits)
    requires BuffersOk(m.buffers, m.queue, m.active, flushing) && Unstranded(m.buffers, m.active)
    requires WithinCapacity(l, m.buffers)
    requires m.active.Some? && Fits(l, ActiveRecords(m), us)
    ensures Unstranded(Append(m, us).buffers, Append(m, us).active) && WithinCapacity(l, Append(m, us).buffers)
  {
    hide TotalCost;
    TotalCostAppend(l, ActiveRecords(m), us);
  }

  lemma StartFits(l: Limits, held: seq<Update>, us: seq<Update>, commit: u64)
    requires Admissible(l, us) && !Overflows(l, held, us)
    ensures Fits(l, held, Stamp(us, commit))
  {
    hide TotalCost;
    StampKeepsCost(l, us, commit);
    NoCost(l);
  }

  lemma ManagerOk(s: System, threshold: nat)
    requires SystemInv(s, threshold)
    ensures BuffersOk(s.mgr.buffers, s.mgr.queue, s.mgr.active, BufferOf(s.worker))
  {
    hide Inv, FlowInv, Visible, BuffersOk;
  }

  /** A step of the worker, a merge or a compaction, seen from the submitting thread. */
  lemma SoleOther(s: System, a: Action, threshold: nat, pc: Pc, l: Limits)
    requires !Calls(a) && (a.TakeBuffer? || a.Done? ==> !Holds(pc)) && Ready(s, a) && SoleOk(s.mgr, s.submission, pc, l)
    requires SystemInv(s, threshold)
    ensures SoleOk(Act(s, a, threshold).mgr, Act(s, a, threshold).submission, pc, l)
  {
    hide SystemInv, Unstranded, WithinCapacity, Admissible, Fits, BuffersOk;
    ManagerOk(s, threshold);
    if a.TakeBuffer? {
      TakeClears(s.mgr, l);
      hide Take, NewFloor, GroupBy;
    } else if a.Done? {
      WorkerClears(s.mgr, s.worker.buf, a.ok, l);
      hide Finish;
    } else {
      OtherSame(s, a, threshold);
      hide Act;
    }
  }

  lemma OtherSame(s: System, a: Action, threshold: nat)
    requires Ready(s, a) && !Calls(a) && !a.TakeBuffer? && !a.Done?
    ensures var s' := Act(s, a, threshold);
            s'.mgr.buffers == s.mgr.buffers && s'.mgr.active == s.mgr.active && s'.submission == s.submission
  {
    hide Can, Step, Publish, Retire, GroupBy, ShowFile;
  }

  /** The submitting thread's own step, and the drains of others. */
  lemma SoleOwn(p: Program, mv: Move, p': Program, l: Limits, threshold: nat, only: nat)
    requires !mv.Other? && Allowed(p, mv, l) && (mv.Enter? ==> mv.i == only) && SoleInv(p, only, l)
    requires p'.pcs == p.pcs[mv.i := PcAfter(p, mv, l)]
    requires match ActionOf(p, mv, l)
             case None => p'.sys == p.sys
             case Some(a) => Ready(p.sys, a) && p'.sys == Act(p.sys, a, threshold)
    requires SystemInv(p.sys, threshold)
    ensures SoleInv(p', only, l)
  {
    hide SystemInv, Unstranded, WithinCapacity, Admissible, Fits, BuffersOk, Overflows, Full, Rotate, Activate, Append;
    hide Stamp, Publish;
    var s, m := p.sys, p.sys.mgr;
    ManagerOk(s, threshold);
    match mv {
      case HandOver(_) => RotateClears(m, BufferOf(s.worker), l);
      case Commit(_) =>
        NotOver(l, p.pcs[mv.i].us);
        StartFits(l, ActiveRecords(m), p.pcs[mv.i].us, m.next);
      case Announce(_) =>
      case Settle(_) => AppendClears(m, BufferOf(s.worker), s.submission.updates, l);
      case Leave(_) => RotateClears(m, BufferOf(s.worker), l);
      case Wake(_) => ActivateClears(m, BufferOf(s.worker), l);
      case CallDrain(_) => RotateClears(m, BufferOf(s.worker), l);
      case EndDrain(_) =>
        if m.active.None? {
          ActivateClears(m, BufferOf(s.worker), l);
        }
      case _ =>
    }
  }

  lemma NotOver(l: Limits, us: seq<Update>)
    ensures !Overflows(l, [], us)
  {}

  /**
   A thread that wakes up takes a free buffer although another may be active by
   then; it strands that one's updates, if there are any.
   */
  lemma RescanStrandsIff(m: Manager, flushing: Option<nat>)
    requires BuffersOk(m.buffers, m.queue, m.active, flushing) && FirstFree(m.buffers, 0).Some?
    requires Unstranded(m.buffers, m.active)
    ensures Unstranded(Activate(m).buffers, Activate(m).active) <==> ActiveRecords(m) == []
  {
    var i := FirstFree(m.buffers, 0).value;
    if ActiveRecords(m) != [] {
      var a := m.active.value;
      assert a != i && Activate(m).buffers[a] == m.buffers[a];
    }
  }

  lemma SoleStep(p: Program, mv: Move, p': Program, l: Limits, threshold: nat, only: nat)
    requires Moves(p, mv, p', l, threshold) && (mv.Enter? ==> mv.i == only) && SoleInv(p, only, l)
    requires SystemInv(p.sys, threshold)
    ensures SoleInv(p', only, l)
  {
    hide SystemInv, SoleOk, Act, Can, Ready, Allowed, ActionOf, PcAfter;
    if ActionOf(p, mv, l).Some? {
      CanIsReady(p.sys, ActionOf(p, mv, l).value, threshold);
    }
    if mv.Other? {
      OtherAllowed(p, mv, l);
      SoleOther(p.sys, mv.a, threshold, p.pcs[only], l);
    } else {
      SoleOwn(p, mv, p', l, threshold, only);
    }
  }

  lemma OtherAllowed(p: Program, mv: Move, l: Limits)
    requires mv.Other? && Allowed(p, mv, l)
    ensures !Calls(mv.a) && (mv.a.TakeBuffer? || mv.a.Done? ==> Unlocked(p.pcs)) && ActionOf(p, mv, l) == Some(mv.a)
  {}

  lemma SoleStart(p: Program, l: Limits, threshold: nat, only: nat)
    requires FreshlyOpened(p.sys, threshold) && (forall i :: 0 <= i < |p.pcs| ==> p.pcs[i].Outside?) && only < |p.pcs|
    ensures SoleInv(p, only, l)
  {
    hide DeltaStore.Inv;
    NoCost(l);
  }

  lemma {:induction false} SoleAt(ps: seq<Program>, ms: seq<Move>, l: Limits, threshold: nat, only: nat, i: nat)
    requires ProgramRun(ps, ms, l, threshold) && threshold > 0 && OnlySubmitter(ms, only) && only < |ps[0].pcs|
    requires i < |ps|
    ensures SoleInv(ps[i], only, l)
  {
    hide FreshlyOpened, SystemInv, SoleInv, Moves;
    if i == 0 {
      SoleStart(ps[0], l, threshold, only);
    } else {
      SoleAt(ps, ms, l, threshold, only, i - 1);
      ProgramSystem(ps, ms, l, threshold, i - 1);
      SoleStep(ps[i-1], ms[i-1], ps[i], l, threshold, only);
    }
  }

  /**
   With one submitting thread, whatever the worker, merges, compactions and drains
   of other threads do meanwhile: no buffer ever exceeds its capacity, no update is
   stranded, and a submitter that wakes up finds an empty active buffer or none.
   */
  lemma SoleSubmitterKeepsCapacity(ps: seq<Program>, ms: seq<Move>, l: Limits, threshold: nat, only: nat, i: nat)
    requires ProgramRun(ps, ms, l, threshold) && threshold > 0 && OnlySubmitter(ms, only) && only < |ps[0].pcs|
    requires i < |ps|
    ensures WithinCapacity(l, ps[i].sys.mgr.buffers)
    ensures Unstranded(ps[i].sys.mgr.buffers, ps[i].sys.mgr.active)
    ensures i < |ms| && ms[i].Wake? ==> ActiveRecords(ps[i].sys.mgr) == []
  {
    hide ProgramRun, WithinCapacity, Unstranded;
    SoleAt(ps, ms, l, threshold, only, i);
    if i < |ms| {
      AllowedAt(ps, ms, l, threshold, i);
    }
  }

  lemma AllowedAt(ps: seq<Program>, ms: seq<Move>, l: Limits, threshold: nat, i: nat)
    requires ProgramRun(ps, ms, l, threshold) && i < |ms|
    ensures |ps| == |ms| + 1 && Moves(ps[i], ms[i], ps[i+1], l, threshold)
  {
    hide Moves, FreshlyOpened;
  }

  // ---- Draining ----

  /** Only a failed flush leaves a failed buffer, and it stops the manager for good. */
  predicate FailedIsFatal(m: Manager) {
    forall b :: 0 <= b < |m.buffers| && m.buffers[b].state.Failed? ==> m.fatal
  }

  lemma FailedStep(s: System, a: Action, threshold: nat)
    requires Ready(s, a) && FailedIsFatal(s.mgr)
    ensures FailedIsFatal(Act(s, a, threshold).mgr)
  {
    hide Enabled, Known, Uniform, Step, Publish, Retire, GroupBy, ShowFile, NewFloor;
  }

  lemma {:induction false} FailedAt(states: seq<System>, actions: seq<Action>, threshold: nat, i: nat)
    requires SystemRun(states, actions, threshold) && threshold > 0 && i < |states|
    ensures FailedIsFatal(states[i].mgr)
  {
    hide SystemInv, Act, Ready, Goes;
    if i == 0 {
      hide DeltaStore.Inv;
    } else {
      hide SystemRun, FailedIsFatal;
      FailedAt(states, actions, threshold, i - 1);
      RunFacts(states, actions, threshold, i - 1);
      FailedStep(states[i-1], actions[i-1], threshold);
    }
  }

  lemma ProgramFailed(ps: seq<Program>, ms: seq<Move>, l: Limits, threshold: nat, i: nat)
    requires ProgramRun(ps, ms, l, threshold) && threshold > 0 && i < |ps|
    ensures FailedIsFatal(ps[i].sys.mgr)
  {
    hide ProgramRun, SystemRun, FailedIsFatal;
    var states, actions := ProgramRefines(ps, ms, l, threshold, i);
    RunLength(states, actions, threshold);
    FailedAt(states, actions, threshold, |actions|);
  }

  lemma {:induction false} GatherOnly(bs: seq<Buffer>, a: nat)
    requires a < |bs| && forall b :: 0 <= b < |bs| && b != a ==> bs[b].records == []
    ensures Gather(bs) == multiset(bs[a].records)
  {
    if a < |bs| - 1 {
      GatherOnly(bs[..|bs|-1], a);
    } else {
      GatherEmpty(bs[..|bs|-1]);
    }
  }

  /** When the worker is idle and nothing failed, only the active buffer and stranded ones hold updates. */
  lemma IdleBuffers(s: System, threshold: nat)
    requires Idle(s) && !s.mgr.fatal && FailedIsFatal(s.mgr) && SystemInv(s, threshold)
    ensures forall b :: 0 <= b < |s.mgr.buffers| && s.mgr.active != Some(b) && !s.mgr.buffers[b].state.Active? ==>
        s.mgr.buffers[b].records == []
  {
    hide DeltaStore.Inv, FlowInv, Fifo, FlushRange, AllUniform, SubmissionOk, AllIn, PendingNewest, Within, Held;
    hide Conserved, Visible;
  }

  /**
   At the moment a drain may return, with any number of submitters: everything
   acknowledged is flushed or in the active buffer exactly when nothing is stranded.
   */
  lemma DrainedIff(s: System, threshold: nat)
    requires Idle(s) && !s.mgr.fatal && FailedIsFatal(s.mgr) && SystemInv(s, threshold)
    ensures Unstranded(s.mgr.buffers, s.mgr.active) <==>
        multiset(s.log) == multiset(s.done) + multiset(ActiveRecords(s.mgr))
  {
    IdleBuffers(s, threshold);
    hide DeltaStore.Inv, FlowInv, Fifo, FlushRange, AllUniform, SubmissionOk, AllIn, PendingNewest, Within, Held;
    hide Visible;
    var bs, active := s.mgr.buffers, s.mgr.active;
    if Unstranded(bs, active) {
      if active.Some? {
        GatherOnly(bs, active.value);
      } else {
        GatherEmpty(bs);
      }
    } else {
      var b :| 0 <= b < |bs| && bs[b].state.Active? && active != Some(b) && bs[b].records != [];
      var u := bs[b].records[0];
      StrandedCounts(bs, active, b, u);
      assert multiset(s.log)[u] == multiset(s.done)[u] + Gather(bs)[u];
    }
  }

  lemma StrandedCounts(bs: seq<Buffer>, active: Option<nat>, b: nat, u: Update)
    requires b < |bs| && active != Some(b) && u in bs[b].records && (active.Some? ==> active.value < |bs|)
    ensures Gather(bs)[u] > multiset(if active.Some? then bs[active.value].records else [])[u]
  {
    if active.Some? {
      var a := active.value;
      GatherUpdate(bs, a, Buffer(Free, []));
      GatherMember(bs[a := Buffer(Free, [])], b, u);
      assert u in Gather(bs[a := Buffer(Free, [])]);
      assert Gather(bs) == Gather(bs[a := Buffer(Free, [])]) + multiset(bs[a].records);
    } else {
      GatherMember(bs, b, u);
    }
  }

  /** The active buffer holds, and will be given, only commits from `c` on. */
  ghost predicate ActiveFrom(s: System, c: nat) {
    c <= Top(s) && forall u :: u in ActiveRecords(s.mgr) ==> u.record.commit >= c
  }

  lemma FromAppend(s: System, threshold: nat, c: nat)
    requires Ready(s, Acknowledge) && ActiveFrom(s, c) && SystemInv(s, threshold)
    ensures ActiveFrom(Act(s, Acknowledge, threshold), c)
  {
    hide DeltaStore.Inv, FlowInv, Fifo, FlushRange, AllUniform, AllIn, PendingNewest, Held, Conserved, Visible, Uniform;
  }

  lemma FromStep(s: System, a: Action, threshold: nat, c: nat)
    requires Ready(s, a) && ActiveFrom(s, c) && SystemInv(s, threshold)
    ensures ActiveFrom(Act(s, a, threshold), c)
  {
    hide SystemInv, BuffersOk;
    ManagerOk(s, threshold);
    if a.Acknowledge? {
      FromAppend(s, threshold, c);
    } else if a.TakeBuffer? || a.Done? || a.RotateBuffer? || a.Rescan? {
      FromManager(s, a, threshold, c);
    } else {
      FromSame(s, a, threshold);
      hide Can, Act;
    }
  }

  lemma FromSame(s: System, a: Action, threshold: nat)
    requires Ready(s, a) && !(a.Acknowledge? || a.TakeBuffer? || a.Done? || a.RotateBuffer? || a.Rescan?)
    ensures Top(s) <= Top(Act(s, a, threshold)) && ActiveRecords(Act(s, a, threshold).mgr) == ActiveRecords(s.mgr)
  {
    hide Enabled, Known, Uniform, Step, Publish, Retire, GroupBy, ShowFile;
  }

  /** A rearranged manager's active buffer is empty or the one it was. */
  lemma ActiveAfter(m: Manager, flushing: Option<nat>, ok: bool)
    requires BuffersOk(m.buffers, m.queue, m.active, flushing)
    ensures ActiveRecords(Rotate(m)) == [] && Rotate(m).next == m.next
    ensures (ActiveRecords(Activate(m)) == [] || ActiveRecords(Activate(m)) == ActiveRecords(m))
    ensures Activate(m).next == m.next
    ensures m.queue != [] && flushing.None? ==> ActiveRecords(Take(m)) == ActiveRecords(m) && Take(m).next == m.next
    ensures flushing.Some? ==>
      ActiveRecords(Finish(m, flushing.value, ok)) == ActiveRecords(m) && Finish(m, flushing.value, ok).next == m.next
  {
    RotateEmpties(m, flushing);
    hide Rotate;
  }

  lemma FromManager(s: System, a: Action, threshold: nat, c: nat)
    requires Ready(s, a) && ActiveFrom(s, c) && (a.TakeBuffer? || a.Done? || a.RotateBuffer? || a.Rescan?)
    requires BuffersOk(s.mgr.buffers, s.mgr.queue, s.mgr.active, BufferOf(s.worker))
    ensures ActiveFrom(Act(s, a, threshold), c)
  {
    ActiveAfter(s.mgr, BufferOf(s.worker), a.Done? && a.ok);
    hide GroupBy, NewFloor, Uniform, BuffersOk, Rotate, Activate, Take, Finish, ActiveRecords;
  }

  lemma LogExtends(s: System, a: Action, threshold: nat)
    requires Ready(s, a)
    ensures s.log <= Act(s, a, threshold).log
  {
    hide Can, Step, Publish, Retire, GroupBy, ShowFile, Rotate, Activate, Finish, Take;
  }

  lemma ProgramStep(ps: seq<Program>, ms: seq<Move>, l: Limits, threshold: nat, i: nat)
    requires ProgramRun(ps, ms, l, threshold) && threshold > 0 && i < |ms|
    ensures |ps| == |ms| + 1 && SystemInv(ps[i].sys, threshold) && Allowed(ps[i], ms[i], l)
    ensures match ActionOf(ps[i], ms[i], l)
            case None => ps[i+1].sys == ps[i].sys
            case Some(a) => Ready(ps[i].sys, a) && ps[i+1].sys == Act(ps[i].sys, a, threshold)
  {
    hide ProgramRun, SystemInv, Act, Ready, Can, Allowed, ActionOf, PcAfter;
    AllowedAt(ps, ms, l, threshold, i);
    ProgramSystem(ps, ms, l, threshold, i);
    if ActionOf(ps[i], ms[i], l).Some? {
      CanIsReady(ps[i].sys, ActionOf(ps[i], ms[i], l).value, threshold);
    }
  }

  /** From the call of a drain on, the active buffer holds only later commits, and the log only grows. */
  lemma {:induction false} FromCall(ps: seq<Program>, ms: seq<Move>, l: Limits, threshold: nat, a: nat, b: nat)
    requires ProgramRun(ps, ms, l, threshold) && threshold > 0 && a < b < |ps| && |ps| == |ms| + 1 && ms[a].CallDrain?
    ensures ActiveFrom(ps[b].sys, ps[a].sys.mgr.next) && ps[a].sys.log <= ps[b].sys.log
    decreases b
  {
    hide ProgramRun, SystemInv, Ready, Act, ActiveFrom, Allowed;
    ProgramStep(ps, ms, l, threshold, b - 1);
    if a == b - 1 {
      CallClears(ps[a].sys, threshold);
    } else {
      FromCall(ps, ms, l, threshold, a, b - 1);
      var act := ActionOf(ps[b-1], ms[b-1], l);
      if act.Some? {
        FromStep(ps[b-1].sys, act.value, threshold, ps[a].sys.mgr.next);
        LogExtends(ps[b-1].sys, act.value, threshold);
      }
    }
  }

  lemma CallClears(s: System, threshold: nat)
    requires Ready(s, RotateBuffer) && SystemInv(s, threshold)
    ensures ActiveFrom(Act(s, RotateBuffer, threshold), s.mgr.next) && Act(s, RotateBuffer, threshold).log == s.log
  {
    hide SystemInv, BuffersOk, Rotate;
    ManagerOk(s, threshold);
    RotateEmpties(s.mgr, BufferOf(s.worker));
  }

  lemma RotateEmpties(m: Manager, flushing: Option<nat>)
    requires BuffersOk(m.buffers, m.queue, m.active, flushing)
    ensures ActiveRecords(Rotate(m)) == [] && Rotate(m).next == m.next
  {}

  lemma EarlierIsDone(before: seq<Update>, log: seq<Update>, done: seq<Update>, held: seq<Update>, c: nat)
    requires before <= log && multiset(log) == multiset(done) + multiset(held)
    requires Within(before, 0, c) && forall u :: u in held ==> u.record.commit >= c
    ensures multiset(before) <= multiset(done)
  {
    assert log == before + log[|before|..];
    forall u | u in before ensures multiset(before)[u] <= multiset(done)[u] {
      assert u !in multiset(held);
      assert multiset(log)[u] == multiset(done)[u] + multiset(held)[u];
    }
  }

  /** Nothing older than `c` is pending once only the active buffer holds updates. */
  lemma PendingIsLater(s: System, threshold: nat, c: nat, k: PendingKey)
    requires Idle(s) && ActiveFrom(s, c) && k in s.mgr.pending
    requires forall b :: 0 <= b < |s.mgr.buffers| && s.mgr.active != Some(b) ==> s.mgr.buffers[b].records == []
    requires SystemInv(s, threshold)
    ensures s.mgr.pending[k].commit >= c
  {
    hide DeltaStore.Inv, FlowInv, BuffersOk, Fifo, FlushRange, AllUniform, AllIn, PendingNewest, Conserved, Visible;
    hide Uniform;
    var v := s.mgr.pending[k];
    assert HeldBy(s.mgr.buffers, BufferOf(s.worker), s.retired, s.submission, k, v);
    if u :| u in Announced(s.submission) && Explains(u, k, v) {
      assert u in s.submission.updates;
    } else {
      var b, u :| 0 <= b < |s.mgr.buffers| && u in Kept(s.mgr.buffers, BufferOf(s.worker), s.retired, b) &&
        Explains(u, k, v);
      assert u in ActiveRecords(s.mgr);
    }
  }

  ghost predicate PendingFrom(p: PendingMap, c: nat) {
    forall k :: k in p ==> p[k].commit >= c
  }

  lemma CommitsBefore(s: System, threshold: nat)
    requires SystemInv(s, threshold)
    ensures Within(s.log, 0, s.mgr.next)
  {
    hide DeltaStore.Inv, FlowInv, Fifo, FlushRange, AllUniform, AllIn, PendingNewest, Conserved, Visible, Uniform, Held;
    hide BuffersOk;
  }

  lemma EndSame(s: System, threshold: nat)
    requires Ready(s, Rescan)
    ensures var s' := Act(s, Rescan, threshold); s'.log == s.log && s'.done == s.done && s'.mgr.pending == s.mgr.pending
  {}

  lemma EndState(ps: seq<Program>, ms: seq<Move>, l: Limits, threshold: nat, b: nat)
    requires ProgramRun(ps, ms, l, threshold) && threshold > 0 && b < |ms| && ms[b].EndDrain?
    ensures |ps| == |ms| + 1 && ms[b].i < |ps[b].pcs| && ps[b].pcs[ms[b].i].Draining?
    ensures !ps[b].sys.mgr.fatal ==> Idle(ps[b].sys)
    ensures ps[b+1].sys.log == ps[b].sys.log && ps[b+1].sys.done == ps[b].sys.done
    ensures ps[b+1].sys.mgr.pending == ps[b].sys.mgr.pending
  {
    hide ProgramRun, SystemInv, Ready, Act, Idle;
    ProgramStep(ps, ms, l, threshold, b);
    if ActionOf(ps[b], ms[b], l).Some? {
      EndSame(ps[b].sys, threshold);
    }
  }

  /**
   What a drain promises when one thread submits: once it returned successfully,
   everything acknowledged before the call is flushed and none of it is pending.
   If the submitting thread itself drained, nothing at all is pending and exactly
   what was acknowledged is flushed.
   */
  lemma DrainPublishesAll(ps: seq<Program>, ms: seq<Move>, l: Limits, threshold: nat, only: nat, a: nat, b: nat)
    requires ProgramRun(ps, ms, l, threshold) && threshold > 0 && |ps| == |ms| + 1
    requires OnlySubmitter(ms, only) && only < |ps[0].pcs|
    requires a < b < |ms| && ms[a].CallDrain? && ms[b].EndDrain? && !ps[b].sys.mgr.fatal
    ensures multiset(ps[a].sys.log) <= multiset(ps[b+1].sys.done)
    ensures PendingFrom(ps[b+1].sys.mgr.pending, ps[a].sys.mgr.next)
    ensures ms[b].i == only ==>
        ps[b+1].sys.mgr.pending == map[] && multiset(ps[b+1].sys.log) == multiset(ps[b+1].sys.done)
  {
    hide ProgramRun, SystemInv, Within, WithinCapacity, BuffersOk, FailedIsFatal, OnlySubmitter, Idle, Held;
    var s, c := ps[b].sys, ps[a].sys.mgr.next;
    EndState(ps, ms, l, threshold, b);
    ProgramSystem(ps, ms, l, threshold, a);
    ProgramSystem(ps, ms, l, threshold, b);
    ProgramFailed(ps, ms, l, threshold, b);
    SoleAt(ps, ms, l, threshold, only, b);
    FromCall(ps, ms, l, threshold, a, b);
    IdleBuffers(s, threshold);
    DrainedIff(s, threshold);
    CommitsBefore(ps[a].sys, threshold);
    EarlierIsDone(ps[a].sys.log, s.log, s.done, ActiveRecords(s.mgr), c);
    forall k | k in s.mgr.pending ensures s.mgr.pending[k].commit >= c {
      PendingIsLater(s, threshold, c, k);
    }
    if ms[b].i == only {
      forall k ensures k !in s.mgr.pending {
        EmptyMeansNonePending(s, threshold, k);
      }
    }
  }

  lemma EmptyMeansNonePending(s: System, threshold: nat, k: PendingKey)
    requires Idle(s) && s.submission.NoSubmission? && ActiveRecords(s.mgr) == [] && SystemInv(s, threshold)
    requires forall b :: 0 <= b < |s.mgr.buffers| && s.mgr.active != Some(b) ==> s.mgr.buffers[b].records == []
    ensures k !in s.mgr.pending
  {
    hide DeltaStore.Inv, FlowInv, Fifo, FlushRange, AllUniform, AllIn, PendingNewest, Conserved, Visible, Uniform;
    NotHeld(s.mgr.pending, s.mgr.buffers, s.retired, k);
  }
}
