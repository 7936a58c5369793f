/**
 How many buffers stay usable: a thread that wakes up beside a buffer the worker
 has just made active, and finds a free one, leaves the first marked active for good.
 */
module LostBuffers {
  import opened Records
  import opened DeltaStore
  import opened UpdateManager
  import opened Pipeline
  import opened Visibility
  import opened BufferObject
  import opened Submitters

  /** Marked active but not the active one: no step ever uses such a buffer again. */
  function Lost(bs: seq<Buffer>, active: Option<nat>): set<nat> {
    set b | 0 <= b < |bs| && bs[b].state.Active? && active != Some(b)
  }

  predicate Loses(m: Manager, a: Action) {
    a.Rescan? && m.active.Some? && FirstFree(m.buffers, 0).Some?
  }

  function Losses(states: seq<System>, actions: seq<Action>, n: nat): nat
    requires n <= |actions| && n <= |states|
  {
    if n == 0 then 0
    else Losses(states, actions, n - 1) + if Loses(states[n-1].mgr, actions[n-1]) then 1 else 0
  }

  predicate Usable(bs: seq<Buffer>, active: Option<nat>) {
    exists b :: 0 <= b < |bs| && b !in Lost(bs, active)
  }

  lemma RotateLoses(m: Manager, flushing: Option<nat>)
    requires BuffersOk(m.buffers, m.queue, m.active, flushing)
    ensures Lost(Rotate(m).buffers, Rotate(m).active) == Lost(m.buffers, m.active) && |Rotate(m).buffers| == |m.buffers|
  {}

  lemma RescanLoses(m: Manager, flushing: Option<nat>)
    requires BuffersOk(m.buffers, m.queue, m.active, flushing)
    ensures Lost(Activate(m).buffers, Activate(m).active) ==
              Lost(m.buffers, m.active) + (if Loses(m, Rescan) then {m.active.value} else {})
    ensures |Activate(m).buffers| == |m.buffers|
    ensures (Loses(m, Rescan) ==> Usable(Activate(m).buffers, Activate(m).active))
  {
    if FirstFree(m.buffers, 0).Some? {
      var i := FirstFree(m.buffers, 0).value;
      assert i !in Lost(Activate(m).buffers, Activate(m).active);
    }
  }

  lemma WorkerLoses(m: Manager, b: nat, ok: bool)
    requires BuffersOk(m.buffers, m.queue, m.active, Some(b))
    ensures Lost(Finish(m, b, ok).buffers, Finish(m, b, ok).active) == Lost(m.buffers, m.active)
  {}

  lemma TakeLoses(m: Manager)
    requires BuffersOk(m.buffers, m.queue, m.active, None) && m.queue != []
    ensures Lost(Take(m).buffers, Take(m).active) == Lost(m.buffers, m.active)
  {}

  lemma AppendLoses(m: Manager, us: seq<Update>)
    requires m.active.Some? && m.active.value < |m.buffers|
    ensures Lost(Append(m, us).buffers, Append(m, us).active) == Lost(m.buffers, m.active)
  {}

  lemma StepLoses(s: System, a: Action, threshold: nat)
    requires Ready(s, a) && SystemInv(s, threshold)
    ensures var m, m' := s.mgr, Act(s, a, threshold).mgr;
            && |m'.buffers| == |m.buffers| && (Loses(m, a) ==> m.active.value !in Lost(m.buffers, m.active))
            && Lost(m'.buffers, m'.active) == Lost(m.buffers, m.active) + (if Loses(m, a) then {m.active.value} else {})
            && (Loses(m, a) ==> Usable(m'.buffers, m'.active))
  {
    hide SystemInv, BuffersOk, Usable, Rotate, Activate;
    ManagerOk(s, threshold);
    match a {
      case RotateBuffer => RotateLoses(s.mgr, BufferOf(s.worker));
      case Rescan => RescanLoses(s.mgr, BufferOf(s.worker));
      case TakeBuffer => TakeLoses(s.mgr);
      case Acknowledge => AppendLoses(s.mgr, s.submission.updates);
      case Done(ok) => WorkerLoses(s.mgr, s.worker.buf, ok);
      case Start(_) =>
      case PublishOne =>
      case _ => OtherSame(s, a, threshold);
    }
  }

  lemma StartLoses(s: System, threshold: nat)
    requires FreshlyOpened(s, threshold)
    ensures Lost(s.mgr.buffers, s.mgr.active) == {} && |s.mgr.buffers| >= 2 && Usable(s.mgr.buffers, s.mgr.active)
  {
    hide DeltaStore.Inv;
    assert 0 !in Lost(s.mgr.buffers, s.mgr.active);
  }

  /**
   In every run, with any number of submitters: the buffers lost so far are as many
   as the wake-ups that found a free buffer beside an active one, never all, and
   a lost buffer stays lost.
   */
  lemma {:induction false} LostCount(states: seq<System>, actions: seq<Action>, threshold: nat, n: nat)
    requires SystemRun(states, actions, threshold) && threshold > 0 && n < |states| && |states| == |actions| + 1
    ensures |Lost(states[n].mgr.buffers, states[n].mgr.active)| == Losses(states, actions, n)
    ensures Usable(states[n].mgr.buffers, states[n].mgr.active) && |states[n].mgr.buffers| == |states[0].mgr.buffers|
    ensures Losses(states, actions, n) < |states[0].mgr.buffers|
    ensures n > 0 ==>
        Lost(states[n-1].mgr.buffers, states[n-1].mgr.active) <= Lost(states[n].mgr.buffers, states[n].mgr.active)
  {
    hide SystemInv, Act, Ready, Goes, Lost, Loses, FreshlyOpened;
    if n == 0 {
      StartLoses(states[0], threshold);
    } else {
      hide SystemRun;
      LostCount(states, actions, threshold, n - 1);
      RunFacts(states, actions, threshold, n - 1);
      StepLoses(states[n-1], actions[n-1], threshold);
    }
    FewerLost(states[n].mgr.buffers, states[n].mgr.active);
  }

  function Below(n: nat): (r: set<nat>)
    ensures |r| == n && forall i: nat :: i in r <==> i < n
  {
    if n == 0 then {} else Below(n - 1) + {n - 1}
  }

  lemma FewerLost(bs: seq<Buffer>, active: Option<nat>)
    requires Usable(bs, active)
    ensures |Lost(bs, active)| < |bs|
  {
    var b :| 0 <= b < |bs| && b !in Lost(bs, active);
    SmallerSubset(Lost(bs, active), Below(|bs|) - {b});
  }

  lemma {:induction false} SmallerSubset(a: set<nat>, b: set<nat>)
    requires a <= b
    ensures |a| <= |b|
  {
    if a != {} {
      var x :| x in a;
      SmallerSubset(a - {x}, b - {x});
    }
  }

  /** Only a woken submitter loses a buffer: a drain activates one only when none is active. */
  lemma OnlyWakingLoses(ps: seq<Program>, ms: seq<Move>, l: Limits, threshold: nat, i: nat)
    requires ProgramRun(ps, ms, l, threshold) && threshold > 0 && i < |ms|
    ensures Allowed(ps[i], ms[i], l)
    ensures ActionOf(ps[i], ms[i], l).Some? && Loses(ps[i].sys.mgr, ActionOf(ps[i], ms[i], l).value) ==> ms[i].Wake?
  {
    hide ProgramRun, SystemInv, Ready, Act, Loses;
    ProgramStep(ps, ms, l, threshold, i);
    RescanOnly(ps[i].sys.mgr);
  }

  lemma RescanOnly(m: Manager)
    ensures forall a :: Loses(m, a) ==> a.Rescan? && m.active.Some?
  {}
}
