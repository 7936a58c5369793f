/** Steps of submitters and of the flush worker that touch only the manager keep its invariant. */
module PipelineManager {
  import opened Records
  import opened ColumnChain
  import opened DeltaStore
  import opened UpdateManager
  import opened Pipeline

  // ---- Submitting ----

  lemma StampUniform(a: seq<Update>, us: seq<Update>, commit: u64)
    requires Uniform(a + us)
    ensures Uniform(a + Stamp(us, commit))
  {
    var before, after := a + us, a + Stamp(us, commit);
    forall i | 0 <= i < |after| ensures SlotOf(after[i]) == SlotOf(before[i]) && after[i].target == before[i].target {}
  }

  lemma StampMembers(us: seq<Update>, commit: u64, home: Home)
    requires Known(home, us)
    ensures Within(Stamp(us, commit), commit, commit + 1) && Known(home, Stamp(us, commit))
  {
    forall i | 0 <= i < |us| ensures SlotOf(Stamp(us, commit)[i]) == SlotOf(us[i]) {}
  }

  lemma MoreIssued(s: System, more: seq<Update>)
    requires AllIn(s.log, s.issued) && HomeOk(s.home, s.store.cols.Keys, s.issued) && ShownIssued(s.shown, s.issued)
    requires Visible(s.log, s.issued, s.mgr.pending, s.shown, s.home) && Known(s.home, more)
    ensures AllIn(s.log, s.issued + more) && AllIn(more, s.issued + more)
    ensures HomeOk(s.home, s.store.cols.Keys, s.issued + more)
    ensures ShownIssued(s.shown, s.issued + more)
    ensures Visible(s.log, s.issued + more, s.mgr.pending, s.shown, s.home)
  {
    forall p | p in s.shown ensures IssuedAs(s.issued + more, SlotIn(p.0, p.1), s.shown[p].commit, s.shown[p].value) {
      var u :| u in s.issued && SlotOf(u) == SlotIn(p.0, p.1) && u.record.commit == s.shown[p].commit &&
        u.record.value == s.shown[p].value;
      assert u in s.issued + more;
    }
    forall u | u in s.log && Alone(s.issued + more, SlotOf(u)) ensures Alone(s.issued, SlotOf(u)) {
      assert forall v :: v in s.issued ==> v in s.issued + more;
    }
  }

  lemma StartKeeps(s: System, us: seq<Update>, threshold: nat)
    requires SystemInv(s, threshold) && Ready(s, Start(us))
    ensures SystemInv(Act(s, Start(us), threshold), threshold)
  {
    hide BuffersOk, Fifo, AllUniform, Conserved, HomeOk, Flow, ChainsBelow, ShownBelow, ChainWaits, ShownWaits;
    hide ShownReads, ShownIssued, Visible, Inv, AllIn, Within, Uniform, Stamp, Known, SendingOk, FlushRange;
    var stamped := Stamp(us, s.mgr.next);
    StampUniform(ActiveRecords(s.mgr), us, s.mgr.next);
    StampMembers(us, s.mgr.next, s.home);
    MoreIssued(s, stamped);
    HeldSame(s, Submitting(stamped, 0));
  }

  lemma HeldSame(s: System, sub: Submission)
    requires Held(s.mgr.pending, s.mgr.buffers, BufferOf(s.worker), s.retired, s.submission)
    requires Announced(s.submission) == [] && Announced(sub) == []
    ensures Held(s.mgr.pending, s.mgr.buffers, BufferOf(s.worker), s.retired, sub)
  {}

  lemma PublishHeld(p: PendingMap, bs: seq<Buffer>, flushing: Option<nat>, retired: nat, sub: Submission)
    requires Held(p, bs, flushing, retired, sub) && sub.Submitting? && sub.published < |sub.updates|
    ensures Held(Publish(p, sub.updates[sub.published]), bs, flushing, retired, sub.(published := sub.published + 1))
  {
    var u, sub' := sub.updates[sub.published], sub.(published := sub.published + 1);
    var p' := Publish(p, u);
    assert Announced(sub') == Announced(sub) + [u];
    assert u in Announced(sub');
    forall k | k in p' ensures HeldBy(bs, flushing, retired, sub', k, p'[k]) {
      if k in p && p'[k] == p[k] {
        assert HeldBy(bs, flushing, retired, sub, k, p[k]);
      } else {
        assert Explains(u, k, p'[k]);
      }
    }
  }

  /** Publishing never lowers a pending commit. */
  lemma PublishMonotone(p: PendingMap, u: Update)
    ensures forall k, c: nat :: PendingAt(p, k, c) ==> PendingAt(Publish(p, u), k, c)
    ensures PendingAt(Publish(p, u), KeyOf(u), u.record.commit)
  {}

  lemma PublishNewest(log: seq<Update>, p: PendingMap, u: Update, top: nat)
    requires PendingNewest(log, p) && Within(log, 0, top) && u.record.commit >= top
    ensures PendingNewest(log, Publish(p, u))
  {}

  lemma PublishOneKeeps(s: System, threshold: nat)
    requires SystemInv(s, threshold) && Ready(s, PublishOne)
    ensures SystemInv(Act(s, PublishOne, threshold), threshold)
  {
    hide BuffersOk, Fifo, AllUniform, Conserved, FlowInv, Inv, AllIn, Uniform, FlushRange, Held, PendingAt, Publish;
    hide Alone, ShownAt, PendingNewest;
    assert s.submission.updates[s.submission.published] in s.submission.updates;
    assert s.submission.updates[s.submission.published].record.commit >= Top(s);
    hide Within;
    PublishHeld(s.mgr.pending, s.mgr.buffers, BufferOf(s.worker), s.retired, s.submission);
    PublishMonotone(s.mgr.pending, s.submission.updates[s.submission.published]);
    PublishNewest(s.log, s.mgr.pending, s.submission.updates[s.submission.published], Top(s));
    SameFlow(s, Act(s, PublishOne, threshold));
  }

  // ---- Gathering ----

  lemma AddBoth(a: multiset<Update>, x: multiset<Update>, b: multiset<Update>, y: multiset<Update>, l: multiset<Update>)
    requires a + x == b + y
    ensures (a + l) + x == (b + l) + y
  {
    assert (a + l) + x == (a + x) + l;
    assert (b + l) + y == (b + y) + l;
  }

  lemma {:induction false} GatherUpdate(bs: seq<Buffer>, i: nat, b: Buffer)
    requires i < |bs|
    ensures Gather(bs[i := b]) + multiset(bs[i].records) == Gather(bs) + multiset(b.records)
  {
    var n := |bs| - 1;
    if i == n {
      assert bs[i := b][..n] == bs[..n];
    } else {
      GatherUpdate(bs[..n], i, b);
      assert bs[i := b][..n] == bs[..n][i := b];
      assert bs[i := b][n] == bs[n] && bs[..n][i] == bs[i];
      AddBoth(Gather(bs[..n][i := b]), multiset(bs[i].records), Gather(bs[..n]), multiset(b.records),
        multiset(bs[n].records));
    }
  }

  lemma {:induction false} GatherMember(bs: seq<Buffer>, b: nat, u: Update)
    requires b < |bs| && u in bs[b].records
    ensures u in Gather(bs)
  {
    if b < |bs| - 1 {
      GatherMember(bs[..|bs|-1], b, u);
    }
  }

  /** Whatever a buffer holds was acknowledged. */
  lemma BufferedIsLogged(log: seq<Update>, done: seq<Update>, bs: seq<Buffer>, b: nat)
    requires Conserved(log, done, bs) && b < |bs|
    ensures AllIn(bs[b].records, log)
  {
    forall u | u in bs[b].records ensures u in log {
      GatherMember(bs, b, u);
      assert u in multiset(log);
    }
  }

  // ---- Acknowledging ----

  lemma AppendConserves(log: seq<Update>, done: seq<Update>, bs: seq<Buffer>, a: nat, us: seq<Update>)
    requires Conserved(log, done, bs) && a < |bs|
    ensures Conserved(log + us, done, bs[a := bs[a].(records := bs[a].records + us)])
  {
    var b := bs[a].(records := bs[a].records + us);
    GatherUpdate(bs, a, b);
    assert multiset(b.records) == multiset(bs[a].records) + multiset(us);
    assert Gather(bs[a := b]) == Gather(bs) + multiset(us) by {
      assert (Gather(bs[a := b]) + multiset(bs[a].records)) - multiset(bs[a].records) == Gather(bs[a := b]);
      assert (Gather(bs) + multiset(us) + multiset(bs[a].records)) - multiset(bs[a].records) ==
          Gather(bs) + multiset(us);
    }
  }

  lemma AppendHeld(p: PendingMap, bs: seq<Buffer>, flushing: Option<nat>, retired: nat, sub: Submission, a: nat)
    requires Held(p, bs, flushing, retired, sub) && sub.Submitting? && a < |bs| && flushing != Some(a)
    ensures Held(p, bs[a := bs[a].(records := bs[a].records + sub.updates)], flushing, retired, NoSubmission)
  {
    var bs' := bs[a := bs[a].(records := bs[a].records + sub.updates)];
    forall k | k in p ensures HeldBy(bs', flushing, retired, NoSubmission, k, p[k]) {
      assert HeldBy(bs, flushing, retired, sub, k, p[k]);
      if u :| u in Announced(sub) && Explains(u, k, p[k]) {
        assert u in sub.updates;
        assert u in Kept(bs', flushing, retired, a);
      } else {
        var b, u :| 0 <= b < |bs| && u in Kept(bs, flushing, retired, b) && Explains(u, k, p[k]);
        assert u in Kept(bs', flushing, retired, b);
      }
    }
  }

  lemma AppendFifo(bs: seq<Buffer>, queue: seq<nat>, a: nat, floor: nat, next: nat, us: seq<Update>,
                   flushing: Option<nat>)
    requires BuffersOk(bs, queue, Some(a), flushing) && next > 0 && Fifo(bs, queue, Some(a), floor, next - 1)
    requires Within(us, next - 1, next)
    ensures Fifo(bs[a := bs[a].(records := bs[a].records + us)], queue, Some(a), floor, next)
    ensures BuffersOk(bs[a := bs[a].(records := bs[a].records + us)], queue, Some(a), flushing)
  {}

  lemma AcknowledgedVisible(s: System)
    requires s.submission.Submitting? && s.submission.published == |s.submission.updates|
    requires SubmissionOk(s.submission, s.mgr.pending, s.mgr.next, ActiveRecords(s.mgr))
    requires Visible(s.log, s.issued, s.mgr.pending, s.shown, s.home)
    ensures Visible(s.log + s.submission.updates, s.issued, s.mgr.pending, s.shown, s.home)
  {
    hide Alone, PendingAt, ShownAt, Within, Uniform;
  }

  lemma AppendUniform(bs: seq<Buffer>, a: nat, us: seq<Update>)
    requires AllUniform(bs) && a < |bs| && Uniform(bs[a].records + us)
    ensures AllUniform(bs[a := bs[a].(records := bs[a].records + us)])
  {
    hide Uniform;
  }

  lemma AcknowledgedNewest(s: System)
    requires s.submission.Submitting? && s.submission.published == |s.submission.updates|
    requires SubmissionOk(s.submission, s.mgr.pending, s.mgr.next, ActiveRecords(s.mgr))
    requires PendingNewest(s.log, s.mgr.pending) && Within(s.log, 0, Top(s))
    ensures PendingNewest(s.log + s.submission.updates, s.mgr.pending)
    ensures Within(s.log + s.submission.updates, 0, s.mgr.next)
  {
    hide Uniform;
    forall u | u in s.log + s.submission.updates && KeyOf(u) in s.mgr.pending
      ensures s.mgr.pending[KeyOf(u)].commit >= u.record.commit {
      if u !in s.log {
        var i :| 0 <= i < |s.submission.updates| && s.submission.updates[i] == u;
        assert PendingAt(s.mgr.pending, KeyOf(s.submission.updates[i]), u.record.commit);
      }
    }
  }

  lemma AcknowledgeKeeps(s: System, threshold: nat)
    requires SystemInv(s, threshold) && Ready(s, Acknowledge)
    ensures SystemInv(Act(s, Acknowledge, threshold), threshold)
  {
    hide FlowInv, Inv, Uniform, AllUniform, Held, PendingAt, Fifo, Conserved, Within, Visible, PendingNewest;
    var a, us := s.mgr.active.value, s.submission.updates;
    assert BufferOf(s.worker) != Some(a);
    AppendConserves(s.log, s.done, s.mgr.buffers, a, us);
    AppendHeld(s.mgr.pending, s.mgr.buffers, BufferOf(s.worker), s.retired, s.submission, a);
    AppendFifo(s.mgr.buffers, s.mgr.queue, a, s.floor, s.mgr.next, us, BufferOf(s.worker));
    AppendUniform(s.mgr.buffers, a, us);
    AcknowledgedVisible(s);
    AcknowledgedNewest(s);
    hide BuffersOk;
    var s' := Act(s, Acknowledge, threshold);
    assert FlushRecords(s') == FlushRecords(s);
    SameFlow(s, s');
  }

  /** The flow of updates into the store looks at the manager only through the flushed buffer. */
  lemma SameFlow(s: System, s': System)
    requires FlowInv(s) && FlushRecords(s') == FlushRecords(s)
    requires s'.store == s.store && s'.home == s.home && s'.worker == s.worker && s'.shown == s.shown
    requires s'.floor == s.floor && s'.issued == s.issued
    ensures FlowInv(s')
  {
    hide HomeOk, Flow, SendingOk, ChainsBelow, ShownBelow, ChainWaits, ShownWaits, ShownReads, ShownIssued;
  }

  // ---- Rotating ----

  ghost predicate SameRecords(bs: seq<Buffer>, bs': seq<Buffer>) {
    |bs'| == |bs| && forall b :: 0 <= b < |bs| ==> bs'[b].records == bs[b].records
  }

  lemma {:induction false} GatherSame(bs: seq<Buffer>, bs': seq<Buffer>)
    requires SameRecords(bs, bs')
    ensures Gather(bs') == Gather(bs)
  {
    if bs != [] {
      GatherSame(bs[..|bs|-1], bs'[..|bs|-1]);
    }
  }

  /** Changing buffer states moves no update. */
  lemma StatesOnly(s: System, bs': seq<Buffer>)
    requires SameRecords(s.mgr.buffers, bs') && ManagerInv(s)
    ensures Held(s.mgr.pending, bs', BufferOf(s.worker), s.retired, s.submission)
    ensures Conserved(s.log, s.done, bs') && AllUniform(bs')
    ensures s.worker.Flush? ==> s.worker.buf < |bs'| && bs'[s.worker.buf].records == FlushRecords(s)
  {
    hide Uniform, Fifo, FlushRange, SubmissionOk, AllIn, Within, Held, Conserved;
    FlushInRange(s);
    hide BuffersOk;
    GatherSame(s.mgr.buffers, bs');
    assert Conserved(s.log, s.done, bs') by { SameConserved(s.log, s.done, s.mgr.buffers, bs'); }
    HeldStates(s.mgr.pending, s.mgr.buffers, bs', BufferOf(s.worker), s.retired, s.submission);
  }

  lemma SameConserved(log: seq<Update>, done: seq<Update>, bs: seq<Buffer>, bs': seq<Buffer>)
    requires Conserved(log, done, bs) && Gather(bs') == Gather(bs)
    ensures Conserved(log, done, bs')
  {}

  lemma HeldStates(p: PendingMap, bs: seq<Buffer>, bs': seq<Buffer>, flushing: Option<nat>, retired: nat,
                   sub: Submission)
    requires Held(p, bs, flushing, retired, sub) && SameRecords(bs, bs')
    ensures Held(p, bs', flushing, retired, sub)
  {
    assert forall b :: 0 <= b < |bs| ==> Kept(bs', flushing, retired, b) == Kept(bs, flushing, retired, b);
    hide Kept, Explains;
    forall k | k in p ensures HeldBy(bs', flushing, retired, sub, k, p[k]) {
      assert HeldBy(bs, flushing, retired, sub, k, p[k]);
    }
  }

  lemma FlushInRange(s: System)
    requires ManagerInv(s)
    ensures s.worker.Flush? ==> s.worker.buf < |s.mgr.buffers| && s.mgr.buffers[s.worker.buf].state.Flushing?
  {}

  lemma ActivateBuffers(m: Manager, flushing: Option<nat>)
    requires BuffersOk(m.buffers, m.queue, m.active, flushing)
    ensures BuffersOk(Activate(m).buffers, m.queue, Activate(m).active, flushing)
  {}

  lemma ActivateOk(m: Manager, flushing: Option<nat>, floor: nat, top: nat)
    requires BuffersOk(m.buffers, m.queue, m.active, flushing) && Fifo(m.buffers, m.queue, m.active, floor, top)
    ensures BuffersOk(Activate(m).buffers, m.queue, Activate(m).active, flushing)
    ensures Fifo(Activate(m).buffers, m.queue, Activate(m).active, floor, top)
    ensures SameRecords(m.buffers, Activate(m).buffers)
  {
    ActivateBuffers(m, flushing);
    if i :| FirstFree(m.buffers, 0) == Some(i) {
      assert m.buffers[i].records == [];
    }
    hide BuffersOk, Before;
  }

  lemma QueueOk(bs: seq<Buffer>, queue: seq<nat>, a: nat, flushing: Option<nat>, floor: nat, top: nat)
    requires BuffersOk(bs, queue, Some(a), flushing) && Fifo(bs, queue, Some(a), floor, top)
    ensures BuffersOk(bs[a := bs[a].(state := Queued)], queue + [a], None, flushing)
    ensures Fifo(bs[a := bs[a].(state := Queued)], queue + [a], None, floor, top)
  {
    hide Within, Before;
  }

  lemma ActivateRest(m: Manager)
    ensures Activate(m).queue == m.queue && Activate(m).pending == m.pending && Activate(m).next == m.next
    ensures Activate(m).fatal == m.fatal
  {}

  lemma RotateOk(m: Manager, flushing: Option<nat>, floor: nat, top: nat)
    requires BuffersOk(m.buffers, m.queue, m.active, flushing) && Fifo(m.buffers, m.queue, m.active, floor, top)
    ensures BuffersOk(Rotate(m).buffers, Rotate(m).queue, Rotate(m).active, flushing)
    ensures Fifo(Rotate(m).buffers, Rotate(m).queue, Rotate(m).active, floor, top)
    ensures SameRecords(m.buffers, Rotate(m).buffers) && Rotate(m).pending == m.pending && Rotate(m).next == m.next
  {
    if m.active.Some? && m.buffers[m.active.value].records != [] {
      var a := m.active.value;
      QueueOk(m.buffers, m.queue, a, flushing, floor, top);
      var m1 := m.(buffers := m.buffers[a := m.buffers[a].(state := Queued)], queue := m.queue + [a], active := None);
      hide Fifo, BuffersOk;
      ActivateOk(m1, flushing, floor, top);
      assert SameRecords(m.buffers, m1.buffers);
      hide Activate;
      assert Rotate(m) == Activate(m1);
      ActivateRest(m1);
    }
  }

  /** A step that changes only buffer states, the queue and the active index. */
  lemma RearrangedKeeps(s: System, m: Manager, threshold: nat)
    requires SystemInv(s, threshold) && LockFree(s)
    requires BuffersOk(m.buffers, m.queue, m.active, BufferOf(s.worker))
    requires Fifo(m.buffers, m.queue, m.active, s.floor, Top(s))
    requires SameRecords(s.mgr.buffers, m.buffers) && m.pending == s.mgr.pending && m.next == s.mgr.next
    ensures SystemInv(s.(mgr := m), threshold)
  {
    StatesOnly(s, m.buffers);
    hide Inv, FlowInv, BuffersOk, Fifo, Held, Conserved, AllUniform, Visible, AllIn, Within;
    SameFlow(s, s.(mgr := m));
  }

  lemma RotateKeeps(s: System, threshold: nat)
    requires SystemInv(s, threshold) && Ready(s, RotateBuffer)
    ensures SystemInv(Act(s, RotateBuffer, threshold), threshold)
  {
    hide Inv, FlowInv, BuffersOk, Fifo, Held, Conserved, AllUniform, Visible, AllIn, Within, SameRecords, Rotate;
    RotateOk(s.mgr, BufferOf(s.worker), s.floor, Top(s));
    RearrangedKeeps(s, Rotate(s.mgr), threshold);
  }

  lemma RescanKeeps(s: System, threshold: nat)
    requires SystemInv(s, threshold) && Ready(s, Rescan)
    ensures SystemInv(Act(s, Rescan, threshold), threshold)
  {
    hide Inv, FlowInv, BuffersOk, Fifo, Held, Conserved, AllUniform, Visible, AllIn, Within, SameRecords;
    ActivateOk(s.mgr, BufferOf(s.worker), s.floor, Top(s));
    RearrangedKeeps(s, Activate(s.mgr), threshold);
  }

  // ---- Taking a buffer ----

  lemma {:induction false} MaxCommitBounds(us: seq<Update>)
    ensures forall u :: u in us ==> u.record.commit <= MaxCommit(us)
    ensures us != [] ==> exists u :: u in us && u.record.commit == MaxCommit(us)
  {
    if us != [] {
      var vs, u := us[..|us|-1], us[|us|-1];
      MaxCommitBounds(vs);
      assert us == vs + [u];
      if MaxCommit(us) == u.record.commit {
        assert u in us;
      } else {
        assert vs != [];
        var v :| v in vs && v.record.commit == MaxCommit(vs);
        assert v in us;
      }
    }
  }

  lemma TakeOk(bs: seq<Buffer>, queue: seq<nat>, active: Option<nat>, floor: nat, top: nat)
    requires BuffersOk(bs, queue, active, None) && Fifo(bs, queue, active, floor, top) && queue != []
    ensures var us := bs[queue[0]].records; var bs' := bs[queue[0] := bs[queue[0]].(state := Flushing)];
            && BuffersOk(bs', queue[1..], active, Some(queue[0])) &&
              Fifo(bs', queue[1..], active, NewFloor(floor, us), top)
            && Within(us, floor, NewFloor(floor, us)) && SameRecords(bs, bs')
  {
    TakeBuffers(bs, queue, active);
    hide BuffersOk;
    TakeFifo(bs, queue, active, floor, top);
    NewFloorInRange(bs[queue[0]].records, floor, top);
    hide Fifo, NewFloor, Within;
  }

  lemma TakeBuffers(bs: seq<Buffer>, queue: seq<nat>, active: Option<nat>)
    requires BuffersOk(bs, queue, active, None) && queue != []
    ensures BuffersOk(bs[queue[0] := bs[queue[0]].(state := Flushing)], queue[1..], active, Some(queue[0]))
    ensures forall i :: 0 <= i < |queue| ==> queue[i] < |bs|
    ensures active.Some? ==> active.value < |bs|
  {
    forall b | 0 <= b < |bs| && b != queue[0] && bs[b].state.Queued? ensures b in queue[1..] {
      var i :| 0 <= i < |queue| && queue[i] == b;
      assert queue[1..][i-1] == b;
    }
  }

  lemma RaiseFloor(us: seq<Update>, vs: seq<Update>, floor: nat, top: nat)
    requires Before(us, vs) && Within(vs, floor, top)
    ensures Within(vs, NewFloor(floor, us), top)
  {
    if us != [] {
      MaxCommitBounds(us);
      var m :| m in us && m.record.commit == MaxCommit(us);
    }
  }

  lemma NewFloorInRange(us: seq<Update>, floor: nat, top: nat)
    requires Within(us, floor, top) && floor <= top
    ensures floor <= NewFloor(floor, us) <= top && Within(us, floor, NewFloor(floor, us))
  {
    MaxCommitBounds(us);
    if us != [] {
      var m :| m in us && m.record.commit == MaxCommit(us);
    }
  }

  lemma TakeFifo(bs: seq<Buffer>, queue: seq<nat>, active: Option<nat>, floor: nat, top: nat)
    requires Fifo(bs, queue, active, floor, top) && queue != []
    requires forall i :: 0 <= i < |queue| ==> queue[i] < |bs|
    requires active.Some? ==> active.value < |bs|
    ensures var us := bs[queue[0]].records;
            Fifo(bs[queue[0] := bs[queue[0]].(state := Flushing)], queue[1..], active, NewFloor(floor, us), top)
  {
    var us, bs' := bs[queue[0]].records, bs[queue[0] := bs[queue[0]].(state := Flushing)];
    forall vs: seq<Update> | Before(us, vs) && Within(vs, floor, top) ensures Within(vs, NewFloor(floor, us), top) {
      RaiseFloor(us, vs, floor, top);
    }
    NewFloorInRange(us, floor, top);
    assert forall b :: 0 <= b < |bs| ==> bs'[b].records == bs[b].records;
    hide Within, Before, NewFloor;
  }

  lemma TakeFlow(us: seq<Update>, home: Home, shown: map<(Target, Key), Record>, cols: map<Target, Col>, floor: nat,
                 b: nat)
    requires ChainsBelow(cols, floor) && ShownBelow(shown, floor)
    ensures var w := Flush(b, floor, GroupBy(ByTarget(us)), map[], []);
            Flow(w, us, home, None, shown) && ChainWaits(w, us, home, cols) && ShownWaits(w, us, home, None, shown)
  {
    var w := Flush(b, floor, GroupBy(ByTarget(us)), map[], []);
    forall t, r | t in w.groups && r in w.groups[t] ensures FromGroup(us, t, r) {
      GroupMembers(ByTarget(us), t, r);
      var i :| 0 <= i < |us| && ByTarget(us)[i] == Addressed(t, r);
      assert us[i] in us && us[i].target == t && us[i].record == r;
    }
    forall u | u in us ensures u.target in w.groups && u.record in w.groups[u.target] {
      var i :| 0 <= i < |us| && us[i] == u;
      assert ByTarget(us)[i] == Addressed(u.target, u.record);
      GroupMembers(ByTarget(us), u.target, u.record);
    }
  }

  function TakenBy(s: System): Worker
    requires s.mgr.queue != [] && s.mgr.queue[0] < |s.mgr.buffers|
  {
    Flush(s.mgr.queue[0], s.floor, GroupBy(ByTarget(s.mgr.buffers[s.mgr.queue[0]].records)), map[], [])
  }

  lemma TakeManager(s: System, s': System)
    requires ManagerInv(s) && s.worker.Resting? && LockFree(s) && s.mgr.queue != [] && s.mgr.queue[0] < |s.mgr.buffers|
    requires s'.mgr == Take(s.mgr) && s'.worker == TakenBy(s) && s'.retired == 0 && s'.submission == s.submission
    requires s'.floor == NewFloor(s.floor, s.mgr.buffers[s.mgr.queue[0]].records)
    requires s'.log == s.log && s'.done == s.done && s'.issued == s.issued
    ensures ManagerInv(s')
  {
    hide Held, Conserved, AllUniform, AllIn, Within, BuffersOk, Fifo, SameRecords, GroupBy, NewFloor;
    var b := s.mgr.queue[0];
    TakeOk(s.mgr.buffers, s.mgr.queue, s.mgr.active, s.floor, Top(s));
    StatesOnly(s, s'.mgr.buffers);
    TakeHeld(s.mgr.pending, s'.mgr.buffers, s.retired, b);
  }

  lemma TakeFlowInv(s: System, s': System)
    requires ManagerInv(s) && FlowInv(s) && s.worker.Resting? && s.mgr.queue != [] && s.mgr.queue[0] < |s.mgr.buffers|
    requires s'.mgr == Take(s.mgr) && s'.worker == TakenBy(s)
    requires s'.floor == NewFloor(s.floor, s.mgr.buffers[s.mgr.queue[0]].records)
    requires s'.store == s.store && s'.home == s.home && s'.shown == s.shown && s'.issued == s.issued
    ensures FlowInv(s')
  {
    hide Held, Conserved, AllUniform, AllIn, BuffersOk, GroupBy;
    hide HomeOk, Flow, ChainWaits, ShownWaits, ShownReads, ShownIssued;
    var b := s.mgr.queue[0];
    TakeFlow(s.mgr.buffers[b].records, s.home, s.shown, s.store.cols, s.floor, b);
    assert Within(s.mgr.buffers[b].records, s.floor, Top(s));
    NewFloorInRange(s.mgr.buffers[b].records, s.floor, Top(s));
    hide NewFloor, Within, Fifo;
    BelowMonotone(s.store.cols, s.shown, s.floor, s'.floor);
    hide ChainsBelow, ShownBelow;
    assert FlushRecords(s') == s.mgr.buffers[b].records;
    assert s.store.attaching.None?;
  }

  lemma BelowMonotone(cols: map<Target, Col>, shown: map<(Target, Key), Record>, floor: nat, floor': nat)
    requires ChainsBelow(cols, floor) && ShownBelow(shown, floor) && floor <= floor'
    ensures ChainsBelow(cols, floor') && ShownBelow(shown, floor')
  {}

  lemma TakeKeeps(s: System, threshold: nat)
    requires SystemInv(s, threshold) && Ready(s, TakeBuffer)
    ensures SystemInv(Act(s, TakeBuffer, threshold), threshold)
  {
    hide Inv, Visible, ManagerInv, FlowInv, GroupBy, NewFloor;
    var s' := Act(s, TakeBuffer, threshold);
    assert s'.mgr == Take(s.mgr) && s'.store == s.store && s'.home == s.home && s'.shown == s.shown &&
        s'.issued == s.issued;
    assert s'.submission == s.submission && s'.log == s.log && s'.done == s.done && s'.retired == 0;
    assert s'.worker == TakenBy(s) && s'.floor == NewFloor(s.floor, s.mgr.buffers[s.mgr.queue[0]].records);
    hide Act;
    TakeManager(s, s');
    TakeFlowInv(s, s');
  }

  lemma TakeHeld(p: PendingMap, bs: seq<Buffer>, retired: nat, b: nat)
    requires Held(p, bs, None, retired, NoSubmission) && b < |bs|
    ensures Held(p, bs, Some(b), 0, NoSubmission)
  {
    forall k | k in p ensures HeldBy(bs, Some(b), 0, NoSubmission, k, p[k]) {
      assert HeldBy(bs, None, retired, NoSubmission, k, p[k]);
      var c, u :| 0 <= c < |bs| && u in Kept(bs, None, retired, c) && Explains(u, k, p[k]);
      assert bs[c].records[0..] == bs[c].records;
      assert u in Kept(bs, Some(b), 0, c);
    }
  }

  // ---- Retiring ----

  lemma RetireHeld(p: PendingMap, bs: seq<Buffer>, b: nat, retired: nat, sub: Submission)
    requires b < |bs| && retired < |bs[b].records| && Held(p, bs, Some(b), retired, sub)
    ensures Held(Retire(p, bs[b].records[retired]), bs, Some(b), retired + 1, sub)
  {
    var gone := bs[b].records[retired];
    var p' := Retire(p, gone);
    assert bs[b].records[retired..] == [gone] + bs[b].records[retired+1..];
    forall k | k in p' ensures HeldBy(bs, Some(b), retired + 1, sub, k, p'[k]) {
      assert k in p && p'[k] == p[k];
      assert HeldBy(bs, Some(b), retired, sub, k, p[k]);
      if c, u :| 0 <= c < |bs| && u in Kept(bs, Some(b), retired, c) && Explains(u, k, p[k]) {
        assert u != gone;
        assert u in Kept(bs, Some(b), retired + 1, c);
      }
    }
  }

  /** Erasing an entry is safe once its update is shown by its column. */
  lemma RetireVisible(s: System, gone: Update)
    requires Visible(s.log, s.issued, s.mgr.pending, s.shown, s.home) && AllIn(s.log, s.issued) && gone in s.log
    requires ShownAt(s.shown, PlaceOf(s.home, SlotOf(gone)), gone.record.key, gone.record.commit)
    ensures Visible(s.log, s.issued, Retire(s.mgr.pending, gone), s.shown, s.home)
  {
    hide PlaceOf;
    var p' := Retire(s.mgr.pending, gone);
    forall u | u in s.log && Alone(s.issued, SlotOf(u))
      ensures PendingAt(p', KeyOf(u), u.record.commit) ||
          ShownAt(s.shown, PlaceOf(s.home, SlotOf(u)), u.record.key, u.record.commit)
    {
      if PendingAt(s.mgr.pending, KeyOf(u), u.record.commit) && KeyOf(u) !in p' {
        assert KeyOf(u) == KeyOf(gone) && gone in s.issued;
        assert SlotOf(gone) == SlotOf(u);
      }
    }
  }

  lemma RetireSubmission(sub: Submission, p: PendingMap, next: nat, active: seq<Update>, gone: Update)
    requires SubmissionOk(sub, p, next, active) && (sub.Submitting? ==> gone.record.commit < next - 1)
    ensures SubmissionOk(sub, Retire(p, gone), next, active)
  {
    hide Uniform;
    if sub.Submitting? {
      forall i | 0 <= i < sub.published
        ensures PendingAt(Retire(p, gone), KeyOf(sub.updates[i]), sub.updates[i].record.commit) {
        assert sub.updates[i] in sub.updates;
        assert PendingAt(p, KeyOf(sub.updates[i]), sub.updates[i].record.commit);
      }
    }
  }

  lemma FlushedIsShown(w: Worker, us: seq<Update>, home: Home, attaching: Option<Target>, shown: map<(Target, Key),
                       Record>, u: Update)
    requires Flow(w, us, home, attaching, shown) && w.Flush? && w.groups == map[] && w.parts == map[]
    requires w.sending == [] && u in us
    ensures ShownAt(shown, PlaceOf(home, SlotOf(u)), u.record.key, u.record.commit)
  {
    hide FromGroup, FromPlace;
  }

  /** Commits of the buffer being flushed are below every waiting one. */
  lemma GoneIsBelow(w: Worker, us: seq<Update>, floor: nat, bs: seq<Buffer>, queue: seq<nat>, active: Option<nat>,
                    top: nat, gone: Update)
    requires FlushRange(w, us, floor) && w.Flush? && Fifo(bs, queue, active, floor, top) && gone in us
    ensures gone.record.commit < floor <= top
  {}

  lemma RetireManager(s: System)
    requires ManagerInv(s) && s.worker.Flush? && s.retired < |FlushRecords(s)|
    ensures ManagerInv(s.(mgr := s.mgr.(pending := Retire(s.mgr.pending, FlushRecords(s)[s.retired])),
        retired := s.retired + 1))
  {
    hide Fifo, FlushRange, AllUniform, Conserved, AllIn, Within;
    var gone := FlushRecords(s)[s.retired];
    GoneIsBelow(s.worker, FlushRecords(s), s.floor, s.mgr.buffers, s.mgr.queue, s.mgr.active, Top(s), gone);
    RetireSubmission(s.submission, s.mgr.pending, s.mgr.next, ActiveRecords(s.mgr), gone);
    RetireHeld(s.mgr.pending, s.mgr.buffers, s.worker.buf, s.retired, s.submission);
    hide SubmissionOk, Held, BuffersOk, Retire;
  }

  lemma RetiredFacts(s: System, gone: Update)
    requires ManagerInv(s) && FlowInv(s) && gone in FlushRecords(s) && s.worker.Flush?
    requires s.worker.groups == map[] && s.worker.parts == map[] && s.worker.sending == []
    ensures gone in s.log && AllIn(s.log, s.issued)
    ensures ShownAt(s.shown, PlaceOf(s.home, SlotOf(gone)), gone.record.key, gone.record.commit)
  {
    hide Flow, Fifo, FlushRange, AllUniform, Conserved, Held, SubmissionOk;
    BufferedIsLogged(s.log, s.done, s.mgr.buffers, s.worker.buf);
    hide BuffersOk;
    FlushedIsShown(s.worker, FlushRecords(s), s.home, s.store.attaching, s.shown, gone);
  }

  lemma RetireKeeps(s: System, threshold: nat)
    requires SystemInv(s, threshold) && Ready(s, RetireOne)
    ensures SystemInv(Act(s, RetireOne, threshold), threshold)
  {
    hide Retire, Inv, ManagerInv, FlowInv, Visible;
    var s' := Act(s, RetireOne, threshold);
    var gone := FlushRecords(s)[s.retired];
    assert s' == s.(mgr := s.mgr.(pending := Retire(s.mgr.pending, gone)), retired := s.retired + 1);
    hide Act;
    RetireManager(s);
    RetiredFacts(s, gone);
    RetireVisible(s, gone);
    SameFlow(s, s');
  }

  // ---- Finishing a buffer ----

  lemma FinishOk(m: Manager, b: nat, ok: bool, floor: nat, top: nat)
    requires BuffersOk(m.buffers, m.queue, m.active, Some(b)) && Fifo(m.buffers, m.queue, m.active, floor, top)
    ensures BuffersOk(Finish(m, b, ok).buffers, m.queue, Finish(m, b, ok).active, None)
    ensures Fifo(Finish(m, b, ok).buffers, m.queue, Finish(m, b, ok).active, floor, top)
    ensures Finish(m, b, ok).queue == m.queue && Finish(m, b, ok).pending == m.pending
    ensures Finish(m, b, ok).next == m.next
  {
    var m' := Finish(m, b, ok);
    FinishBuffers(m, b, ok);
    assert b !in m.queue && m.active != Some(b);
    assert forall i :: 0 <= i < |m.queue| ==> m'.buffers[m.queue[i]].records == m.buffers[m.queue[i]].records;
    hide BuffersOk, Before;
  }

  lemma FinishBuffers(m: Manager, b: nat, ok: bool)
    requires BuffersOk(m.buffers, m.queue, m.active, Some(b))
    ensures BuffersOk(Finish(m, b, ok).buffers, m.queue, Finish(m, b, ok).active, None)
  {}

  lemma FinishHeld(p: PendingMap, bs: seq<Buffer>, b: nat, retired: nat, b': Buffer)
    requires b < |bs| && Held(p, bs, Some(b), retired, NoSubmission)
    requires b'.records == bs[b].records || (b'.records == [] && retired == |bs[b].records|)
    ensures Held(p, bs[b := b'], None, retired, NoSubmission)
  {
    forall k | k in p ensures HeldBy(bs[b := b'], None, retired, NoSubmission, k, p[k]) {
      assert HeldBy(bs, Some(b), retired, NoSubmission, k, p[k]);
      var c, u :| 0 <= c < |bs| && u in Kept(bs, Some(b), retired, c) && Explains(u, k, p[k]);
      assert u in bs[c].records;
      assert u in Kept(bs[b := b'], None, retired, c);
    }
  }

  lemma FinishConserves(log: seq<Update>, done: seq<Update>, bs: seq<Buffer>, b: nat, b': Buffer)
    requires Conserved(log, done, bs) && b < |bs| && b'.records == []
    ensures Conserved(log, done + bs[b].records, bs[b := b'])
  {
    GatherUpdate(bs, b, b');
    assert Gather(bs) == Gather(bs[b := b']) + multiset(bs[b].records);
    assert multiset(done + bs[b].records) == multiset(done) + multiset(bs[b].records);
  }

  lemma FinishUniform(bs: seq<Buffer>, b: nat, b': Buffer)
    requires AllUniform(bs) && b < |bs| && (b'.records == [] || b'.records == bs[b].records)
    ensures AllUniform(bs[b := b'])
  {
    assert Uniform([]);
    hide Uniform;
  }

  lemma RestingFlow(s: System, s': System)
    requires FlowInv(s) && s.worker.Flush? && s.worker.sending == [] && s'.worker.Resting?
    requires s'.store == s.store && s'.home == s.home && s'.shown == s.shown && s'.floor == s.floor
    requires s'.issued == s.issued
    ensures FlowInv(s')
  {
    hide HomeOk, ChainsBelow, ShownBelow, ShownReads, ShownIssued, FromGroup, FromPlace, ShownAt;
  }

  lemma FinishRest(m: Manager, b: nat, ok: bool)
    requires b < |m.buffers|
    ensures Finish(m, b, ok).pending == m.pending
  {}

  lemma DoneManager(s: System, s': System, ok: bool)
    requires ManagerInv(s) && s.worker.Flush? && LockFree(s) && s.worker.buf < |s.mgr.buffers|
    requires ok ==> s.retired == |s.mgr.buffers[s.worker.buf].records|
    requires s' == s.(mgr := Finish(s.mgr, s.worker.buf, ok), worker := Resting, done := s'.done)
    requires s'.done == if ok then s.done + s.mgr.buffers[s.worker.buf].records else s.done
    ensures ManagerInv(s')
  {
    var b := s.worker.buf;
    var b' := s'.mgr.buffers[b];
    assert s'.mgr.buffers == s.mgr.buffers[b := b'];
    hide AllIn, Within, Fifo, FlushRange, BuffersOk;
    FinishHeld(s.mgr.pending, s.mgr.buffers, b, s.retired, b');
    FinishUniform(s.mgr.buffers, b, b');
    if ok {
      FinishConserves(s.log, s.done, s.mgr.buffers, b, b');
    } else {
      GatherSame(s.mgr.buffers, s'.mgr.buffers);
    }
    FinishOk(s.mgr, b, ok, s.floor, Top(s));
    hide Held, Conserved, AllUniform;
  }

  lemma DoneKeeps(s: System, ok: bool, threshold: nat)
    requires SystemInv(s, threshold) && Ready(s, Done(ok))
    ensures SystemInv(Act(s, Done(ok), threshold), threshold)
  {
    hide Inv, Visible, FlowInv, ManagerInv;
    var s', b := Act(s, Done(ok), threshold), s.worker.buf;
    assert s' == s.(mgr := Finish(s.mgr, b, ok), worker := Resting, done := s'.done);
    assert s'.done == if ok then s.done + s.mgr.buffers[b].records else s.done;
    hide Act, Finish;
    DoneManager(s, s', ok);
    RestingFlow(s, s');
    FinishRest(s.mgr, b, ok);
  }
}
