/**
 The promises of the update pipeline over every run: acknowledged updates stay
 visible, each is kept exactly once, and buffers are flushed in commit order.
 */
module Visibility {
  import opened Records
  import DeltaBatch
  import opened ColumnChain
  import opened DeltaStore
  import opened UpdateManager
  import opened Pipeline
  import opened PipelineManager
  import opened PipelineFlow

  /** What a run may do next: nothing but the guard is assumed of the action. */
  ghost predicate Goes(s: System, a: Action, s': System, threshold: nat) {
    Can(s, a) && (Ready(s, a) ==> s' == Act(s, a, threshold))
  }

  /** Any interleaving of submitters, worker, merges and compaction on an opened database. */
  ghost predicate SystemRun(states: seq<System>, actions: seq<Action>, threshold: nat) {
    && |states| == |actions| + 1 && FreshlyOpened(states[0], threshold)
    && forall i :: 0 <= i < |actions| ==> Goes(states[i], actions[i], states[i+1], threshold)
  }

  /** Commit order along the chains is never an extra assumption. */
  lemma CanIsReady(s: System, a: Action, threshold: nat)
    requires Can(s, a) && SystemInv(s, threshold)
    ensures Ready(s, a)
  {
    hide Inv, Fifo, FlushRange, AllUniform, SubmissionOk, Held, Conserved, AllIn, FlowInv, Visible, PendingNewest;
    hide Within;
    if a.Send? {
      SendReady(s, a.t, a.persistent, threshold);
    }
    hide Can;
  }

  lemma OpenedInv(s: System, threshold: nat)
    requires FreshlyOpened(s, threshold)
    ensures SystemInv(s, threshold)
  {
    hide Inv;
    GatherEmpty(s.mgr.buffers);
    OpenedManager(s, threshold);
    hide ManagerInv;
  }

  lemma OpenedManager(s: System, threshold: nat)
    requires FreshlyOpened(s, threshold) && Gather(s.mgr.buffers) == multiset{}
    ensures ManagerInv(s)
  {
    hide Inv, Gather;
  }

  lemma {:induction false} GatherEmpty(bs: seq<Buffer>)
    requires forall b :: 0 <= b < |bs| ==> bs[b].records == []
    ensures Gather(bs) == multiset{}
  {
    if bs != [] {
      GatherEmpty(bs[..|bs|-1]);
    }
  }

  lemma ActKeeps(s: System, a: Action, threshold: nat)
    requires Ready(s, a) && threshold > 0 && SystemInv(s, threshold)
    ensures SystemInv(Act(s, a, threshold), threshold)
  {
    hide SystemInv, Act, Ready;
    match a {
      case Internal(e) => InternalKeeps(s, e, threshold);
      case NewTable(t, origin) => NewTableKeeps(s, t, origin, threshold);
      case Start(us) => StartKeeps(s, us, threshold);
      case PublishOne => PublishOneKeeps(s, threshold);
      case Acknowledge => AcknowledgeKeeps(s, threshold);
      case RotateBuffer => RotateKeeps(s, threshold);
      case Rescan => RescanKeeps(s, threshold);
      case TakeBuffer => TakeKeeps(s, threshold);
      case OpenGroup(t) => OpenGroupKeeps(s, t, threshold);
      case Send(t, persistent) => SendKeeps(s, t, persistent, threshold);
      case Attached => AttachedKeeps(s, threshold);
      case RetireOne => RetireKeeps(s, threshold);
      case Done(ok) => DoneKeeps(s, ok, threshold);
      case Compact(t, origin, moved) => CompactKeeps(s, t, origin, moved, threshold);
    }
  }

  /** Every reachable state satisfies the invariant, and every action a run takes is the modelled one. */
  lemma {:induction false} ReachableSystem(states: seq<System>, actions: seq<Action>, threshold: nat, i: nat)
    requires SystemRun(states, actions, threshold) && threshold > 0 && i < |states|
    ensures SystemInv(states[i], threshold)
    ensures i < |actions| ==> Ready(states[i], actions[i]) && states[i+1] == Act(states[i], actions[i], threshold)
  {
    hide SystemInv, Act, Ready, Can;
    if i == 0 {
      OpenedInv(states[0], threshold);
    } else {
      ReachableSystem(states, actions, threshold, i - 1);
      ActKeeps(states[i-1], actions[i-1], threshold);
    }
    if i < |actions| {
      assert Goes(states[i], actions[i], states[i+1], threshold);
      CanIsReady(states[i], actions[i], threshold);
    }
  }

  // ---- What never goes back ----

  lemma LogsGrow(s: System, a: Action, threshold: nat)
    requires Ready(s, a)
    ensures AllIn(s.log, Act(s, a, threshold).log) && AllIn(s.issued, Act(s, a, threshold).issued)
    ensures s.home.Keys <= Act(s, a, threshold).home.Keys
  {
    hide Step, Can, Publish, Retire, GroupBy, ShowFile, Rotate, Activate;
    if a.Compact? {
      assert s.home.Keys <= MoveHome(s.home, a.t, a.moved).Keys;
    } else if a.NewTable? {
      assert s.home.Keys <= AddHome(s.home, a.t, a.origin).Keys;
    }
  }

  /** What a column shows for a key never becomes older. */
  lemma ShownStays(s: System, a: Action, threshold: nat, t: Target, k: Key, c: nat)
    requires Ready(s, a) && ShownAt(s.shown, t, k, c) && SystemInv(s, threshold)
    ensures ShownAt(Act(s, a, threshold).shown, t, k, c)
  {
    if a.Attached? {
      hide SystemInv, Can;
      AttachedStays(s, threshold, t, k, c);
    } else if a.Compact? {
      MovedStays(s, a.t, a.origin, a.moved, threshold, t, k, c);
    } else {
      hide SystemInv, Can, ShownAt;
      ShownSame(s, a, threshold);
    }
  }

  lemma ShownSame(s: System, a: Action, threshold: nat)
    requires Ready(s, a) && !a.Attached? && !a.Compact?
    ensures Act(s, a, threshold).shown == s.shown
  {
    hide Can, Step, Rotate, Activate, Take, Finish, Append, Publish, Retire, GroupBy;
  }

  lemma MovedStays(s: System, t': Target, origin: Column, moved: set<Key>, threshold: nat, t: Target, k: Key, c: nat)
    requires Ready(s, Compact(t', origin, moved)) && ShownAt(s.shown, t, k, c) && SystemInv(s, threshold)
    ensures ShownAt(Act(s, Compact(t', origin, moved), threshold).shown, t, k, c)
  {
    hide Inv, Visible, ManagerInv, Flow, HomeOk, SendingOk, ChainsBelow, ChainWaits, ShownWaits, Read;
    assert t in s.store.cols && t != t';
  }

  lemma AttachedStays(s: System, threshold: nat, t: Target, k: Key, c: nat)
    requires Ready(s, Attached) && ShownAt(s.shown, t, k, c) && SystemInv(s, threshold)
    ensures ShownAt(Act(s, Attached, threshold).shown, t, k, c)
  {
    hide Inv, Visible, ManagerInv, Flow, ShownWaits, ShownBelow, HomeOk, ChainsBelow, ChainWaits, ShownReads;
    hide ShownIssued, ShownAt, SendingOk, Step, ShowFile;
    assert Act(s, Attached, threshold).shown ==
        ShowFile(s.shown, s.store.attaching.value, AttachPhase(s.store).file.records);
    hide Act;
    FlushFacts(s);
    hide Within, Uniform, AllIn;
    SentRecords(s.store, s.worker);
    ShownGrows(s.worker, FlushRecords(s), s.home, s.store.attaching.value, s.shown, s.floor);
  }

  lemma SentRecords(store: Store, w: Worker)
    requires SendingOk(store, w) && AttachPhase(store).Committed?
    ensures AttachPhase(store).file.records == DeltaBatch.FileRecords(w.sending)
  {}

  /** Relocation carries along what was shown. */
  lemma ShownFollows(s: System, a: Action, threshold: nat, x: Slot, c: nat)
    requires Ready(s, a) && x in s.home && ShownAt(s.shown, PlaceOf(s.home, x), x.key, c) && SystemInv(s, threshold)
    ensures ShownAt(Act(s, a, threshold).shown, PlaceOf(Act(s, a, threshold).home, x), x.key, c)
  {
    if a.Compact? {
      CompactFollows(s, a.t, a.origin, a.moved, threshold, x, c);
    } else {
      ShownStays(s, a, threshold, PlaceOf(s.home, x), x.key, c);
      hide SystemInv, ShownAt;
      if a.NewTable? {
        GrownHome(s.home, a.t, a.origin, x);
      }
      hide Can, PlaceOf;
    }
  }

  lemma CompactFollows(s: System, t: Target, origin: Column, moved: set<Key>, threshold: nat, x: Slot, c: nat)
    requires Ready(s, Compact(t, origin, moved)) && x in s.home && ShownAt(s.shown, PlaceOf(s.home, x), x.key, c)
    requires SystemInv(s, threshold)
    ensures ShownAt(Act(s, Compact(t, origin, moved), threshold).shown, PlaceOf(MoveHome(s.home, t, moved), x), x.key,
        c)
  {
    hide Inv, Visible, ManagerInv, Flow, ShownWaits, ChainsBelow, ChainWaits, ShownIssued, SendingOk, Read;
    assert PlaceOf(s.home, x) in s.store.cols;
    MovedShown(s.shown, s.home, t, moved, x);
  }

  lemma {:induction false} LogKept(states: seq<System>, actions: seq<Action>, threshold: nat, i: nat, j: nat)
    requires SystemRun(states, actions, threshold) && threshold > 0 && i <= j < |states|
    ensures AllIn(states[i].log, states[j].log) && AllIn(states[i].issued, states[j].issued)
    decreases j
  {
    hide SystemInv, Act, Ready, SystemRun;
    if i < j {
      LogKept(states, actions, threshold, i, j - 1);
      RunFacts(states, actions, threshold, j - 1);
      LogsGrow(states[j-1], actions[j-1], threshold);
    }
  }

  lemma RunFacts(states: seq<System>, actions: seq<Action>, threshold: nat, i: nat)
    requires SystemRun(states, actions, threshold) && threshold > 0 && i + 1 < |states|
    ensures i < |actions| && Ready(states[i], actions[i]) && states[i+1] == Act(states[i], actions[i], threshold)
    ensures SystemInv(states[i], threshold) && SystemInv(states[i+1], threshold)
  {
    hide SystemInv, Act, Ready, Goes;
    ReachableSystem(states, actions, threshold, i);
    ReachableSystem(states, actions, threshold, i + 1);
  }

  lemma {:induction false} ShownKept(states: seq<System>, actions: seq<Action>, threshold: nat, i: nat, j: nat,
                                     t: Target, k: Key, c: nat)
    requires SystemRun(states, actions, threshold) && threshold > 0 && i <= j < |states|
    requires ShownAt(states[i].shown, t, k, c)
    ensures ShownAt(states[j].shown, t, k, c)
    decreases j
  {
    hide SystemInv, Act, Ready, SystemRun, ShownAt;
    if i < j {
      ShownKept(states, actions, threshold, i, j - 1, t, k, c);
      RunFacts(states, actions, threshold, j - 1);
      ShownStays(states[j-1], actions[j-1], threshold, t, k, c);
    }
  }

  lemma {:induction false} ShownCarried(states: seq<System>, actions: seq<Action>, threshold: nat, i: nat, j: nat,
                                        x: Slot, c: nat)
    requires SystemRun(states, actions, threshold) && threshold > 0 && i <= j < |states|
    requires x in states[i].home && ShownAt(states[i].shown, PlaceOf(states[i].home, x), x.key, c)
    ensures x in states[j].home && ShownAt(states[j].shown, PlaceOf(states[j].home, x), x.key, c)
    decreases j
  {
    hide SystemInv, Act, Ready, SystemRun, ShownAt, PlaceOf;
    if i < j {
      ShownCarried(states, actions, threshold, i, j - 1, x, c);
      RunFacts(states, actions, threshold, j - 1);
      LogsGrow(states[j-1], actions[j-1], threshold);
      ShownFollows(states[j-1], actions[j-1], threshold, x, c);
    }
  }

  // ---- Visibility ----

  /**
   What a read returns that consulted the pending map, then located the record,
   then read the column through its delta view, each at its own moment.
   */
  function Observed(pending: PendingMap, home: Home, store: Store, x: Slot): Option<Bytes> {
    match LookupExact(pending, x)
    case Some(v) => Some(v.value)
    case None => if PlaceOf(home, x) in store.cols then Read(store.cols[PlaceOf(home, x)], x.key) else None
  }

  /** The value of some update of `x` that is at least as new as `commit`. */
  ghost predicate AsNewAs(issued: seq<Update>, x: Slot, commit: nat, value: Option<Bytes>) {
    exists w :: w in issued && SlotOf(w) == x && w.record.commit >= commit && value == Some(w.record.value)
  }

  /** An entry the reader finds is of this record and newer than anything acknowledged. */
  lemma PendingIsNew(s: System, threshold: nat, u: Update)
    requires SystemInv(s, threshold) && u in s.log && Alone(s.issued, SlotOf(u)) && KeyOf(u) in s.mgr.pending
    ensures LookupExact(s.mgr.pending, SlotOf(u)).Some?
    ensures AsNewAs(s.issued, SlotOf(u), u.record.commit, Some(s.mgr.pending[KeyOf(u)].value))
  {
    hide Inv, FlowInv, Visible, BuffersOk, Fifo, FlushRange, AllUniform, SubmissionOk, Within;
    var k, x := KeyOf(u), SlotOf(u);
    var v := s.mgr.pending[k];
    assert v.commit >= u.record.commit;
    assert HeldBy(s.mgr.buffers, BufferOf(s.worker), s.retired, s.submission, k, v);
    var w := HolderIssued(s, k, v);
    assert SlotOf(w) == x;
  }

  lemma HolderIssued(s: System, k: PendingKey, v: PendingValue) returns (w: Update)
    requires ManagerInv(s) && HeldBy(s.mgr.buffers, BufferOf(s.worker), s.retired, s.submission, k, v)
    ensures w in s.issued && Explains(w, k, v)
  {
    hide BuffersOk, Fifo, FlushRange, AllUniform, SubmissionOk, Within, Held, PendingNewest, Explains;
    if u :| u in Announced(s.submission) && Explains(u, k, v) {
      w := u;
      assert w in Sent(s.submission);
    } else {
      var b, u :| 0 <= b < |s.mgr.buffers| && u in Kept(s.mgr.buffers, BufferOf(s.worker), s.retired, b) &&
        Explains(u, k, v);
      w := u;
      assert w in s.mgr.buffers[b].records;
      BufferedIsLogged(s.log, s.done, s.mgr.buffers, b);
    }
  }

  /** In every run, what a reader finds pending was submitted for the very record it asks for. */
  lemma PendingReadIsOwn(states: seq<System>, actions: seq<Action>, threshold: nat, j: nat, x: Slot)
    requires SystemRun(states, actions, threshold) && threshold > 0 && j < |states|
    requires LookupExact(states[j].mgr.pending, x).Some?
    ensures var v := LookupExact(states[j].mgr.pending, x).value; IssuedAs(states[j].issued, x, v.commit, v.value)
  {
    hide SystemInv, SystemRun;
    SystemAt(states, actions, threshold, j);
    OwnEntry(states[j], threshold, x);
  }

  lemma OwnEntry(s: System, threshold: nat, x: Slot)
    requires SystemInv(s, threshold) && LookupExact(s.mgr.pending, x).Some?
    ensures var v := LookupExact(s.mgr.pending, x).value; IssuedAs(s.issued, x, v.commit, v.value)
  {
    hide Inv, FlowInv, Visible, BuffersOk, Fifo, FlushRange, AllUniform, SubmissionOk, Within;
    var k, v := PendingKeyOf(x), s.mgr.pending[PendingKeyOf(x)];
    assert HeldBy(s.mgr.buffers, BufferOf(s.worker), s.retired, s.submission, k, v);
    var w := HolderIssued(s, k, v);
    assert SlotOf(w) == x;
  }

  /** What a column shows is what its readers get, and someone submitted it. */
  lemma ShownIsRead(s: System, threshold: nat, t: Target, x: Slot, c: nat)
    requires SystemInv(s, threshold) && ShownAt(s.shown, t, x.key, c) && SlotIn(t, x.key) == x
    ensures t in s.store.cols && AsNewAs(s.issued, x, c, Read(s.store.cols[t], x.key))
  {
    hide Inv, ManagerInv, Visible, Flow, HomeOk, SendingOk, ChainsBelow, ShownBelow, ChainWaits, ShownWaits, Read;
    var p := (t, x.key);
    assert IssuedAs(s.issued, SlotIn(p.0, p.1), s.shown[p].commit, s.shown[p].value);
    var w :| w in s.issued && SlotOf(w) == x && w.record.commit == s.shown[p].commit &&
      w.record.value == s.shown[p].value;
  }

  /**
   The central promise. In every interleaving of submissions, flushes with
   rebinding, attachments, merges and compactions: take any update `u` that was
   acknowledged by moment `i`, and any read that consults the pending map at a
   later moment `j`, locates the record at `m` and reads the column at `l`. If no
   other topology record shares the pending entry, the read returns the value of
   an update of that record at least as new as `u`.
   */
  lemma AcknowledgedIsVisible(states: seq<System>, actions: seq<Action>, threshold: nat, i: nat, j: nat, m: nat,
                              l: nat, u: Update)
    requires SystemRun(states, actions, threshold) && threshold > 0
    requires i <= j <= m <= l < |states| && u in states[i].log && Alone(states[l].issued, SlotOf(u))
    ensures AsNewAs(states[l].issued, SlotOf(u), u.record.commit,
                    Observed(states[j].mgr.pending, states[m].home, states[l].store, SlotOf(u)))
  {
    hide SystemInv, SystemRun, ShownAt, Alone, Read;
    var x, sj, sl := SlotOf(u), states[j], states[l];
    LogKept(states, actions, threshold, i, j);
    LogKept(states, actions, threshold, j, l);
    assert Alone(sj.issued, x) by { AloneBefore(sj.issued, sl.issued, x); }
    SystemAt(states, actions, threshold, j);
    SystemAt(states, actions, threshold, l);
    if KeyOf(u) in sj.mgr.pending {
      PendingIsNew(sj, threshold, u);
      LaterIssued(sj.issued, sl.issued, x, u.record.commit, Some(sj.mgr.pending[KeyOf(u)].value));
    } else {
      ShownOrPending(sj, threshold, u);
      ShownCarried(states, actions, threshold, j, m, x, u.record.commit);
      var t := PlaceOf(states[m].home, x);
      ShownKept(states, actions, threshold, m, l, t, x.key, u.record.commit);
      ShownIsRead(sl, threshold, t, x, u.record.commit);
    }
  }

  lemma SystemAt(states: seq<System>, actions: seq<Action>, threshold: nat, i: nat)
    requires SystemRun(states, actions, threshold) && threshold > 0 && i < |states|
    ensures SystemInv(states[i], threshold)
  {
    hide SystemInv, SystemRun, Ready, Act;
    ReachableSystem(states, actions, threshold, i);
  }

  lemma AloneBefore(issued: seq<Update>, issued': seq<Update>, x: Slot)
    requires AllIn(issued, issued') && Alone(issued', x)
    ensures Alone(issued, x)
  {}

  lemma LaterIssued(issued: seq<Update>, issued': seq<Update>, x: Slot, c: nat, v: Option<Bytes>)
    requires AllIn(issued, issued') && AsNewAs(issued, x, c, v)
    ensures AsNewAs(issued', x, c, v)
  {}

  lemma ShownOrPending(s: System, threshold: nat, u: Update)
    requires SystemInv(s, threshold) && u in s.log && Alone(s.issued, SlotOf(u)) && KeyOf(u) !in s.mgr.pending
    ensures SlotOf(u) in s.home && ShownAt(s.shown, PlaceOf(s.home, SlotOf(u)), u.record.key, u.record.commit)
  {
    hide Inv, Flow, SendingOk, ChainsBelow, ShownBelow, ChainWaits, ShownWaits, ShownReads, ShownIssued, ManagerInv;
    hide ShownAt, Alone, PlaceOf;
    KnownSlots(s);
  }

  // ---- First in, first out ----

  lemma FloorGrows(s: System, a: Action, threshold: nat)
    requires Ready(s, a) && SystemInv(s, threshold)
    ensures s.floor <= Act(s, a, threshold).floor
  {
    if a.TakeBuffer? {
      TakenRange(s, threshold);
    } else {
      hide SystemInv, Can;
    }
  }

  lemma TakenRange(s: System, threshold: nat)
    requires Ready(s, TakeBuffer) && SystemInv(s, threshold)
    ensures var us := s.mgr.buffers[s.mgr.queue[0]].records;
            && Within(us, s.floor, NewFloor(s.floor, us)) && s.floor <= NewFloor(s.floor, us)
            && Act(s, TakeBuffer, threshold).floor == NewFloor(s.floor, us)
  {
    hide Inv, Visible, FlowInv, Held, Conserved, AllUniform, AllIn, PendingNewest, SubmissionOk;
    TakeOk(s.mgr.buffers, s.mgr.queue, s.mgr.active, s.floor, Top(s));
    NewFloorInRange(s.mgr.buffers[s.mgr.queue[0]].records, s.floor, Top(s));
  }

  lemma {:induction false} FloorKept(states: seq<System>, actions: seq<Action>, threshold: nat, i: nat, j: nat)
    requires SystemRun(states, actions, threshold) && threshold > 0 && i <= j < |states|
    ensures states[i].floor <= states[j].floor
    decreases j
  {
    hide SystemInv, Act, Ready, SystemRun;
    if i < j {
      FloorKept(states, actions, threshold, i, j - 1);
      RunFacts(states, actions, threshold, j - 1);
      FloorGrows(states[j-1], actions[j-1], threshold);
    }
  }

  lemma TakenRecords(s: System, threshold: nat)
    requires Ready(s, TakeBuffer) && SystemInv(s, threshold)
    ensures Within(FlushRecords(Act(s, TakeBuffer, threshold)), s.floor, Act(s, TakeBuffer, threshold).floor)
  {
    TakenRange(s, threshold);
    hide SystemInv, Within, NewFloor, GroupBy;
  }

  lemma BeforeByFloor(us: seq<Update>, vs: seq<Update>, a: nat, b: nat, c: nat, d: nat)
    requires Within(us, a, b) && Within(vs, c, d) && b <= c
    ensures Before(us, vs)
  {}

  /** Buffers reach the worker in commit order: everything in an earlier one is older. */
  lemma FlushedInCommitOrder(states: seq<System>, actions: seq<Action>, threshold: nat, i: nat, j: nat)
    requires SystemRun(states, actions, threshold) && threshold > 0 && i < j < |actions|
    requires actions[i].TakeBuffer? && actions[j].TakeBuffer?
    ensures Before(FlushRecords(states[i+1]), FlushRecords(states[j+1]))
  {
    assert |states| == |actions| + 1;
    hide SystemRun, SystemInv, Ready, Act, Within;
    RunFacts(states, actions, threshold, i);
    RunFacts(states, actions, threshold, j);
    FloorKept(states, actions, threshold, i + 1, j);
    TakenRecords(states[i], threshold);
    TakenRecords(states[j], threshold);
    BeforeByFloor(FlushRecords(states[i+1]), FlushRecords(states[j+1]), states[i].floor, states[i+1].floor,
      states[j].floor, states[j+1].floor);
  }

  /** In every reachable state each acknowledged update is in exactly one buffer or flushed, exactly once. */
  lemma AcknowledgedIsConserved(states: seq<System>, actions: seq<Action>, threshold: nat, i: nat)
    requires SystemRun(states, actions, threshold) && threshold > 0 && i < |states|
    ensures multiset(states[i].log) == multiset(states[i].done) + Gather(states[i].mgr.buffers)
  {
    hide SystemRun, Inv, FlowInv, Visible, Gather;
    SystemAt(states, actions, threshold, i);
  }

  lemma NotHeld(p: PendingMap, bs: seq<Buffer>, retired: nat, k: PendingKey)
    requires Held(p, bs, None, retired, NoSubmission) && forall b :: 0 <= b < |bs| ==> bs[b].records == []
    ensures k !in p
  {}
}
