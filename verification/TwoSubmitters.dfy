/**
 Runs of the whole program that reach what one submitting thread rules out: two
 submitters and two buffers suffice to strand an acknowledged update and to fill a
 buffer beyond its capacity, and even one submitter can lose an empty buffer.
 */
module TwoSubmitters {
  import opened Records
  import opened DeltaBatch
  import opened ColumnChain
  import opened DeltaStore
  import opened StoreRuns
  import opened UpdateManager
  import opened BufferObject
  import opened Pipeline
  import opened PipelineManager
  import opened Visibility
  import opened Submitters
  import opened LostBuffers

  // ---- Building runs ----

  ghost predicate Reached(p: Program, l: Limits, threshold: nat) {
    exists ps, ms :: ProgramRun(ps, ms, l, threshold) && ps[|ms|] == p
  }

  lemma ReachedNext(p: Program, mv: Move, p': Program, l: Limits, threshold: nat)
    requires Reached(p, l, threshold) && Moves(p, mv, p', l, threshold)
    ensures Reached(p', l, threshold)
  {
    hide Moves, FreshlyOpened;
    var ps, ms :| ProgramRun(ps, ms, l, threshold) && ps[|ms|] == p;
    var ps', ms' := ps + [p'], ms + [mv];
    forall i | 0 <= i < |ms'| ensures Moves(ps'[i], ms'[i], ps'[i+1], l, threshold) {
      if i < |ms| {
        assert ps'[i+1] == ps[i+1];
      }
    }
    assert ProgramRun(ps', ms', l, threshold) && ps'[|ms'|] == p';
  }

  lemma ReachedInv(p: Program, l: Limits, threshold: nat)
    requires Reached(p, l, threshold) && threshold > 0
    ensures SystemInv(p.sys, threshold)
  {
    hide Moves, FreshlyOpened, SystemInv;
    var ps, ms :| ProgramRun(ps, ms, l, threshold) && ps[|ms|] == p;
    ProgramSystem(ps, ms, l, threshold, |ms|);
  }

  /** A move without a step of the pipeline. */
  lemma Turn(p: Program, mv: Move, l: Limits, threshold: nat) returns (p': Program)
    requires Reached(p, l, threshold) && threshold > 0 && !mv.Other? && Allowed(p, mv, l) && ActionOf(p, mv, l).None?
    ensures Reached(p', l, threshold) && p' == p.(pcs := p.pcs[mv.i := PcAfter(p, mv, l)])
  {
    p' := p.(pcs := p.pcs[mv.i := PcAfter(p, mv, l)]);
    hide Reached;
    ReachedNext(p, mv, p', l, threshold);
  }

  lemma Do(p: Program, mv: Move, a: Action, l: Limits, threshold: nat) returns (p': Program)
    requires Reached(p, l, threshold) && threshold > 0 && Allowed(p, mv, l) && ActionOf(p, mv, l) == Some(a)
    requires Can(p.sys, a)
    ensures Reached(p', l, threshold) && p'.pcs == if mv.Other? then p.pcs else p.pcs[mv.i := PcAfter(p, mv, l)]
    ensures Ready(p.sys, a) && p'.sys == Act(p.sys, a, threshold)
  {
    hide Reached, SystemInv, Can, Act, ActionOf, PcAfter, Ready;
    ReachedInv(p, l, threshold);
    CanIsReady(p.sys, a, threshold);
    p' := Program(Act(p.sys, a, threshold), if mv.Other? then p.pcs else p.pcs[mv.i := PcAfter(p, mv, l)]);
    ReachedNext(p, mv, p', l, threshold);
  }

  // ---- One flush ----

  /** Nothing is under way, and one column holds the one record that is updated. */
  predicate Calm(s: System, t: Target, k: Key) {
    && s.store.up && !s.store.barrier && s.store.attaching.None? && t in s.store.cols && t.generation == t.file
    && SlotIn(t, k) in s.home && s.home[SlotIn(t, k)] == t.file
    && s.worker.Resting? && s.submission.NoSubmission? && !s.mgr.fatal
  }

  predicate Updates(u: Update, t: Target, k: Key) {
    u.target == t && u.record.key == k
  }

  /** The manager without what readers and commit numbers add. */
  function Shape(m: Manager): Manager {
    m.(pending := map[], next := 0)
  }

  lemma GroupOfOne(t: Target, r: Record)
    ensures GroupBy([Addressed(t, r)]) == map[t := [r]]
  {
    var xs := [Addressed(t, r)];
    assert xs[..|xs|-1] == [] && GroupBy(xs[..|xs|-1]) == map[];
    assert AddTo(map[], xs[0]) == map[t := [] + [r]] && [] + [r] == [r];
  }

  lemma TakeOne(p: Program, l: Limits, threshold: nat, t: Target, k: Key, u: Update) returns (p': Program)
    requires Reached(p, l, threshold) && threshold > 0 && Calm(p.sys, t, k) && Updates(u, t, k) && Unlocked(p.pcs)
    requires p.sys.mgr.queue != [] && p.sys.mgr.queue[0] < |p.sys.mgr.buffers|
    requires p.sys.mgr.buffers[p.sys.mgr.queue[0]].records == [u]
    ensures Reached(p', l, threshold) && p'.pcs == p.pcs && p'.sys.mgr == Take(p.sys.mgr)
    ensures Calm(p'.sys.(worker := Resting), t, k) && p'.sys.retired == 0
    ensures p'.sys.worker.Flush? && p'.sys.worker.buf == p.sys.mgr.queue[0]
    ensures p'.sys.worker.groups == map[] && p'.sys.worker.parts == map[t := [u.record]] && p'.sys.worker.sending == []
  {
    hide Reached, NewFloor, GroupBy;
    var q := Do(p, Other(TakeBuffer), TakeBuffer, l, threshold);
    assert ByTarget([u]) == [Addressed(t, u.record)];
    GroupOfOne(t, u.record);
    p' := Do(q, Other(OpenGroup(t)), OpenGroup(t), l, threshold);
    assert Rebound(q.sys.home, t, [u.record]) == [Addressed(t, u.record)];
  }

  /** What holds between handing a part to the store and publishing it. */
  predicate Attaching(s: System, t: Target, k: Key) {
    s.store.attaching == Some(t) && Calm(s.(worker := Resting, store := s.store.(attaching := None)), t, k)
  }

  /** Handing the worker's part to the store. */
  lemma SendOne(p: Program, l: Limits, threshold: nat, t: Target, k: Key, r: Record) returns (p': Program)
    requires Reached(p, l, threshold) && threshold > 0 && Calm(p.sys.(worker := Resting), t, k)
    requires p.sys.worker.Flush? && p.sys.worker.groups == map[] && p.sys.worker.parts == map[t := [r]]
    requires p.sys.worker.sending == []
    ensures Reached(p', l, threshold) && p'.pcs == p.pcs && p'.sys.mgr == p.sys.mgr && p'.sys.retired == p.sys.retired
    ensures p'.sys.worker == p.sys.worker.(parts := map[], sending := [r])
    ensures Attaching(p'.sys, t, k) && AttachPhase(p'.sys.store).Opened?
  {
    hide Reached, FileRecords, Follows;
    p' := Do(p, Other(Send(t, false)), Send(t, false), l, threshold);
  }

  /** Writing its delta file. */
  lemma WriteOne(p: Program, l: Limits, threshold: nat, t: Target, k: Key) returns (p': Program)
    requires Reached(p, l, threshold) && threshold > 0 && Attaching(p.sys, t, k) && AttachPhase(p.sys.store).Opened?
    ensures Reached(p', l, threshold) && p'.pcs == p.pcs && p'.sys == p.sys.(store := p'.sys.store)
    ensures Attaching(p'.sys, t, k) && AttachPhase(p'.sys.store).Created?
  {
    hide Reached, FileRecords, Follows;
    p' := Do(p, Other(Internal(WriteDelta)), Internal(WriteDelta), l, threshold);
  }

  /** Logging the file in the manifest and publishing it. */
  lemma AttachOne(p: Program, l: Limits, threshold: nat, t: Target, k: Key, r: Record) returns (p': Program)
    requires Reached(p, l, threshold) && threshold > 0 && Attaching(p.sys, t, k)
    requires p.sys.worker.Flush? && p.sys.worker.groups == map[] && p.sys.worker.parts == map[]
    requires p.sys.worker.sending == [r]
    requires AttachPhase(p.sys.store).Created?
    ensures Reached(p', l, threshold) && p'.pcs == p.pcs && p'.sys.mgr == p.sys.mgr && p'.sys.retired == p.sys.retired
    ensures Calm(p'.sys.(worker := Resting), t, k)
    ensures p'.sys.worker == p.sys.worker.(sending := [])
  {
    hide Reached, ShowFile, FileRecords, Follows;
    var c := Do(p, Other(Internal(CommitDelta)), Internal(CommitDelta), l, threshold);
    assert AttachPhase(c.sys.store).Committed?;
    p' := Do(c, Other(Attached), Attached, l, threshold);
  }

  lemma RestOne(p: Program, l: Limits, threshold: nat, t: Target, k: Key, b: nat, u: Update) returns (p': Program)
    requires Reached(p, l, threshold) && threshold > 0 && Calm(p.sys.(worker := Resting), t, k) && Unlocked(p.pcs)
    requires p.sys.worker.Flush? && p.sys.worker.groups == map[] && p.sys.worker.parts == map[]
    requires p.sys.worker.sending == []
    requires p.sys.retired == 0 && p.sys.worker.buf == b && b < |p.sys.mgr.buffers|
    requires p.sys.mgr.buffers[b].records == [u]
    ensures Reached(p', l, threshold) && p'.pcs == p.pcs && Calm(p'.sys, t, k)
    ensures Shape(p'.sys.mgr) == Shape(Finish(p.sys.mgr, b, true)) && p'.sys.mgr.next == p.sys.mgr.next
  {
    hide Reached, Retire;
    var q := Do(p, Other(RetireOne), RetireOne, l, threshold);
    p' := Do(q, Other(Done(true)), Done(true), l, threshold);
  }

  /** The worker can always complete the flush of a queued buffer with one update. */
  lemma FlushOne(p: Program, l: Limits, threshold: nat, t: Target, k: Key, u: Update) returns (p': Program)
    requires Reached(p, l, threshold) && threshold > 0 && Calm(p.sys, t, k) && Updates(u, t, k) && Unlocked(p.pcs)
    requires p.sys.mgr.queue != [] && p.sys.mgr.queue[0] < |p.sys.mgr.buffers|
    requires p.sys.mgr.buffers[p.sys.mgr.queue[0]].records == [u]
    ensures Reached(p', l, threshold) && p'.pcs == p.pcs && Calm(p'.sys, t, k)
    ensures Shape(p'.sys.mgr) == Shape(Finish(Take(p.sys.mgr), p.sys.mgr.queue[0], true))
    ensures p'.sys.mgr.next == p.sys.mgr.next
  {
    hide Reached, Calm;
    var q := TakeOne(p, l, threshold, t, k, u);
    q := SendOne(q, l, threshold, t, k, u.record);
    var c := WriteOne(q, l, threshold, t, k);
    var w := AttachOne(c, l, threshold, t, k, u.record);
    p' := RestOne(w, l, threshold, t, k, p.sys.mgr.queue[0], u);
  }

  // ---- One submission ----

  function Stamped(u: Update, commit: u64): Update {
    u.(record := u.record.(commit := commit))
  }

  predicate Ours(us: seq<Update>, t: Target) {
    forall u :: u in us ==> u.target == t
  }

  /** The manager after a batch of one update was placed in its active buffer. */
  function Filled(l: Limits, m: Manager, u: Update): Manager
    requires HasActive(m)
  {
    RotateIfFull(l, Append(m, [u]))
  }

  lemma EnterOne(p: Program, l: Limits, i: nat, u: Update, threshold: nat) returns (p': Program)
    requires Reached(p, l, threshold) && threshold > 0 && i < |p.pcs| && p.pcs[i].Outside? && Unlocked(p.pcs)
    requires Admissible(l, [u])
    ensures Reached(p', l, threshold) && p' == p.(pcs := p.pcs[i := Checking([u], false)])
  {
    hide Reached, Admissible;
    p' := Turn(p, Enter(i, [u]), l, threshold);
  }

  /** Taking a commit number and publishing the update to readers. */
  lemma CommitOne(p: Program, l: Limits, threshold: nat, t: Target, k: Key, i: nat, u: Update, handed: bool)
      returns (p': Program)
    requires Reached(p, l, threshold) && threshold > 0 && Calm(p.sys, t, k) && Updates(u, t, k)
    requires i < |p.pcs| && p.pcs[i] == Checking([u], handed) && HasActive(p.sys.mgr) && p.sys.mgr.next < LATEST
    requires (handed || !Overflows(l, ActiveRecords(p.sys.mgr), [u])) && Ours(ActiveRecords(p.sys.mgr), t)
    ensures Reached(p', l, threshold) && p'.pcs == p.pcs[i := Placing([u])]
    ensures Calm(p'.sys.(submission := NoSubmission), t, k)
    ensures p'.sys.submission == Submitting([Stamped(u, p.sys.mgr.next)], 1)
    ensures p'.sys.mgr == p.sys.mgr.(next := p.sys.mgr.next + 1, pending := p'.sys.mgr.pending)
  {
    hide Reached, Publish, Overflows;
    var c := Do(p, Commit(i), Start([u]), l, threshold);
    assert c.sys.submission.updates == [Stamped(u, p.sys.mgr.next)];
    p' := Do(c, Announce(i), PublishOne, l, threshold);
  }

  /** The acknowledgement, and the hand-over of a full buffer. */
  lemma LeaveOne(p: Program, l: Limits, threshold: nat, t: Target, k: Key, i: nat, u: Update) returns (p': Program)
    requires Reached(p, l, threshold) && threshold > 0 && Calm(p.sys.(submission := NoSubmission), t, k)
    requires i < |p.pcs| && p.pcs[i].Placing? && p.sys.submission == Submitting([u], 1) && HasActive(p.sys.mgr)
    ensures Reached(p', l, threshold) && p'.pcs == p.pcs[i := Outside] && Calm(p'.sys, t, k)
    ensures p'.sys.mgr == Filled(l, p.sys.mgr, u)
  {
    hide Reached, Full, Rotate;
    var w := Do(p, Settle(i), Acknowledge, l, threshold);
    if Full(l, ActiveRecords(w.sys.mgr)) {
      RotateRest(w.sys.mgr);
      p' := Do(w, Leave(i), RotateBuffer, l, threshold);
    } else {
      p' := Turn(w, Leave(i), l, threshold);
    }
  }

  lemma RotateRest(m: Manager)
    requires HasActive(m)
    ensures Rotate(m).fatal == m.fatal
    ensures forall p, c :: Rotate(m.(pending := p, next := c)) == Rotate(m).(pending := p, next := c)
  {}

  lemma FilledShape(l: Limits, m: Manager, m': Manager, u: Update)
    requires HasActive(m) && m' == m.(pending := m'.pending, next := m'.next)
    ensures Shape(Filled(l, m', u)) == Shape(Filled(l, m, u)) && Filled(l, m', u).next == m'.next
  {
    hide TotalCost;
  }

  /** From the commit number to the acknowledgement and the hand-over of a full buffer. */
  lemma FinishOne(p: Program, l: Limits, threshold: nat, t: Target, k: Key, i: nat, u: Update, handed: bool)
      returns (p': Program)
    requires Reached(p, l, threshold) && threshold > 0 && Calm(p.sys, t, k) && Updates(u, t, k)
    requires i < |p.pcs| && p.pcs[i] == Checking([u], handed) && HasActive(p.sys.mgr) && p.sys.mgr.next < LATEST
    requires (handed || !Overflows(l, ActiveRecords(p.sys.mgr), [u])) && Ours(ActiveRecords(p.sys.mgr), t)
    ensures Reached(p', l, threshold) && p'.pcs == p.pcs[i := Outside] && Calm(p'.sys, t, k)
    ensures Shape(p'.sys.mgr) == Shape(Filled(l, p.sys.mgr, Stamped(u, p.sys.mgr.next)))
    ensures p'.sys.mgr.next == p.sys.mgr.next + 1
  {
    hide Reached, Calm, Overflows, Filled, Shape;
    var c := CommitOne(p, l, threshold, t, k, i, u, handed);
    p' := LeaveOne(c, l, threshold, t, k, i, Stamped(u, p.sys.mgr.next));
    FilledShape(l, p.sys.mgr, c.sys.mgr, Stamped(u, p.sys.mgr.next));
    assert p'.pcs == p.pcs[i := Outside];
  }

  lemma SubmitOne(p: Program, l: Limits, threshold: nat, t: Target, k: Key, i: nat, u: Update) returns (p': Program)
    requires Reached(p, l, threshold) && threshold > 0 && Calm(p.sys, t, k) && Updates(u, t, k) && Admissible(l, [u])
    requires i < |p.pcs| && p.pcs[i].Outside? && Unlocked(p.pcs) && HasActive(p.sys.mgr) && p.sys.mgr.next < LATEST
    requires !Overflows(l, ActiveRecords(p.sys.mgr), [u]) && Ours(ActiveRecords(p.sys.mgr), t)
    ensures Reached(p', l, threshold) && p'.pcs == p.pcs && Calm(p'.sys, t, k)
    ensures Shape(p'.sys.mgr) == Shape(Filled(l, p.sys.mgr, Stamped(u, p.sys.mgr.next)))
    ensures p'.sys.mgr.next == p.sys.mgr.next + 1
  {
    hide Reached, Calm, Overflows, Filled;
    var q := EnterOne(p, l, i, u, threshold);
    p' := FinishOne(q, l, threshold, t, k, i, u, false);
    assert p'.pcs == p.pcs;
  }

  // ---- Two buffers, one column, one record ----

  const COLUMN := Target(Kind.Edge, 0, 1, 1, 0)
  const RECORD := Key(0, 0, true, 0, 0)
  const LIMITS := Limits(2, 2, 1)

  /** One big update fills a buffer; a small one does not. */
  const BIG := Update(COLUMN, Record(RECORD, 0, [1]), false)
  const SMALL := Update(COLUMN, Record(RECORD, 0, []), false)

  predicate Big(u: Update) {
    Updates(u, COLUMN, RECORD) && |u.record.value| == 1
  }

  predicate Small(u: Update) {
    Updates(u, COLUMN, RECORD) && |u.record.value| == 0
  }

  function Two(first: Buffer, second: Buffer, queue: seq<nat>, active: Option<nat>): Manager {
    Manager([first, second], queue, active, map[], 0, false)
  }

  lemma CostOne(u: Update)
    ensures TotalCost(LIMITS, [u]) == 1 + |u.record.value|
    ensures Big(u) || Small(u) ==> Admissible(LIMITS, [u]) && !Overflows(LIMITS, [], [u])
  {
    assert [u][..0] == [];
  }

  lemma FillFirst(x: Update)
    requires Big(x)
    ensures Filled(LIMITS, Two(Buffer(Active, []), Buffer(Free, []), [], Some(0)), x)
         == Two(Buffer(Queued, [x]), Buffer(Active, []), [0], Some(1))
  {
    CostOne(x);
    var m := Append(Two(Buffer(Active, []), Buffer(Free, []), [], Some(0)), [x]);
    assert m.buffers[0].records == [x];
    var q := m.(buffers := m.buffers[0 := Buffer(Queued, [x])], queue := [0], active := None);
    assert FirstFree(q.buffers, 0) == Some(1);
    assert Activate(q).buffers == [Buffer(Queued, [x]), Buffer(Active, [])];
  }

  lemma FillSecond(b: Buffer, x: Update)
    requires Big(x) && b.state.Queued?
    ensures Filled(LIMITS, Two(b, Buffer(Active, []), [0], Some(1)), x) == Two(b, Buffer(Queued, [x]), [0, 1], None)
  {
    CostOne(x);
    var m := Append(Two(b, Buffer(Active, []), [0], Some(1)), [x]);
    assert m.buffers[1].records == [x];
    var q := m.(buffers := m.buffers[1 := Buffer(Queued, [x])], queue := [0, 1], active := None);
    assert FirstFree(q.buffers, 0) == None;
    assert q.buffers == [b, Buffer(Queued, [x])];
  }

  lemma FillSome(first: Buffer, second: Buffer, queue: seq<nat>, a: nat, x: Update)
    requires Small(x) && a < 2 && [first, second][a] == Buffer(Active, [])
    ensures Filled(LIMITS, Two(first, second, queue, Some(a)), x) ==
              Two(if a == 0 then Buffer(Active, [x]) else first, if a == 1 then Buffer(Active, [x])
                else second, queue, Some(a))
  {
    CostOne(x);
    var m := Append(Two(first, second, queue, Some(a)), [x]);
    assert m.buffers[a].records == [x];
  }

  lemma FilledAs(m: Manager, m0: Manager, u: Update)
    requires HasActive(m0) && Shape(m) == Shape(m0)
    ensures HasActive(m) && Shape(Filled(LIMITS, m, u)) == Shape(Filled(LIMITS, m0, u))
    ensures ActiveRecords(m) == ActiveRecords(m0)
  {
    FilledShape(LIMITS, m0, m, u);
  }

  /** The worker flushes the first queued buffer. */
  lemma FlushFirst(m: Manager, x: Update, second: Buffer, queue: seq<nat>, active: Option<nat>)
    requires Shape(m) == Two(Buffer(Queued, [x]), second, [0] + queue, active)
    ensures m.queue != [] && m.queue[0] == 0
    ensures Shape(Finish(Take(m), 0, true)) ==
              if active.None? then Two(Buffer(Active, []), second, queue, Some(0))
                else Two(Buffer(Free, []), second, queue, active)
  {
    assert m.buffers == [Buffer(Queued, [x]), second] && m.queue == [0] + queue;
    var r := Finish(Take(m), 0, true);
    assert r.queue == queue;
    assert r.buffers == [if active.None? then Buffer(Active, []) else Buffer(Free, []), second];
  }

  lemma FlushSecond(m: Manager, x: Update, first: Buffer, active: Option<nat>)
    requires Shape(m) == Two(first, Buffer(Queued, [x]), [1], active)
    ensures m.queue != [] && m.queue[0] == 1
    ensures Shape(Finish(Take(m), 1, true)) ==
              if active.None? then Two(first, Buffer(Active, []), [], Some(1))
                else Two(first, Buffer(Free, []), [], active)
  {
    var r := Finish(Take(m), 1, true);
    assert r.queue == [];
    assert r.buffers == [first, if active.None? then Buffer(Active, []) else Buffer(Free, [])];
  }

  // ---- Opening ----

  const OPENED := Manager([Buffer(Active, []), Buffer(Free, [])], [], Some(0), map[], 1, false)

  function OpenedSystem(): System {
    System(EMPTY, OPENED, map[], Resting, 0, NoSubmission, map[], [], [], [], 1)
  }

  lemma OpenTwo(n: nat, threshold: nat) returns (p: Program)
    requires threshold > 0
    ensures Reached(p, LIMITS, threshold) && Calm(p.sys, COLUMN, RECORD) && p.sys.mgr == OPENED
    ensures |p.pcs| == n && forall i :: 0 <= i < n ==> p.pcs[i].Outside?
  {
    hide DeltaStore.Inv;
    EmptyInv(threshold);
    var p0 := Program(OpenedSystem(), seq(n, i => Outside));
    assert FreshlyOpened(p0.sys, threshold);
    assert ProgramRun([p0], [], LIMITS, threshold);
    hide Reached, FreshlyOpened;
    assert Reached(p0, LIMITS, threshold) by { ReachedStart(p0, threshold); }
    var origin: Column := map[RECORD := []];
    p := Do(p0, Other(NewTable(COLUMN, origin)), NewTable(COLUMN, origin), LIMITS, threshold);
    assert SlotIn(COLUMN, RECORD) in AddHome(map[], COLUMN, origin);
  }

  lemma ReachedStart(p: Program, threshold: nat)
    requires ProgramRun([p], [], LIMITS, threshold)
    ensures Reached(p, LIMITS, threshold)
  {
    hide FreshlyOpened;
    var none: seq<Move> := [];
    assert [p][|none|] == p;
  }

  /** Where the scenes below stand: a reached state with these two buffers and few commits taken. */
  ghost predicate Scene(p: Program, threshold: nat, m: Manager) {
    && Reached(p, LIMITS, threshold) && Calm(p.sys, COLUMN, RECORD)
    && Shape(p.sys.mgr) == m && p.sys.mgr.next <= 9
  }

  lemma SceneSubmit(p: Program, threshold: nat, m: Manager, i: nat, u: Update) returns (p': Program, x: Update)
    requires threshold > 0 && Scene(p, threshold, m) && p.sys.mgr.next < 9 && (Big(u) || Small(u)) && HasActive(m)
    requires ActiveRecords(m) == [] && i < |p.pcs| && p.pcs[i].Outside? && Unlocked(p.pcs)
    ensures (Big(u) ==> Big(x)) && (Small(u) ==> Small(x))
    ensures Scene(p', threshold, Shape(Filled(LIMITS, m, x))) && p'.pcs == p.pcs
    ensures p'.sys.mgr.next == p.sys.mgr.next + 1
  {
    hide Reached, Calm, Filled, Admissible, Overflows;
    x := Stamped(u, p.sys.mgr.next);
    CostOne(u);
    FilledAs(p.sys.mgr, m, x);
    p' := SubmitOne(p, LIMITS, threshold, COLUMN, RECORD, i, u);
  }

  lemma SceneFlush(p: Program, threshold: nat, m: Manager, x: Update) returns (p': Program)
    requires threshold > 0 && Scene(p, threshold, m) && Updates(x, COLUMN, RECORD) && Unlocked(p.pcs)
    requires m.queue != [] && m.queue[0] < |m.buffers| && m.buffers[m.queue[0]].records == [x]
    ensures Scene(p', threshold, Shape(Finish(Take(m), m.queue[0], true))) && p'.pcs == p.pcs
    ensures p'.sys.mgr.next == p.sys.mgr.next
  {
    hide Reached, Calm;
    p' := FlushOne(p, LIMITS, threshold, COLUMN, RECORD, x);
  }

  /** A thread that finds no active buffer goes to sleep. */
  lemma SceneSleep(p: Program, threshold: nat, m: Manager, i: nat, u: Update) returns (p': Program)
    requires threshold > 0 && Scene(p, threshold, m) && (Big(u) || Small(u)) && m.active.None?
    requires i < |p.pcs| && p.pcs[i].Outside? && Unlocked(p.pcs)
    ensures Scene(p', threshold, m) && p'.sys == p.sys && p'.pcs == p.pcs[i := Waiting([u], false)]
  {
    hide Reached, Admissible;
    CostOne(u);
    var q := EnterOne(p, LIMITS, i, u, threshold);
    p' := Turn(q, Sleep(i), LIMITS, threshold);
    assert p'.pcs == p.pcs[i := Waiting([u], false)];
  }

  lemma SceneWake(p: Program, threshold: nat, m: Manager, i: nat) returns (p': Program)
    requires threshold > 0 && Scene(p, threshold, m) && i < |p.pcs| && p.pcs[i].Waiting? && Unlocked(p.pcs)
    ensures Scene(p', threshold, Activate(m)) && p'.pcs == p.pcs[i := Checking(p.pcs[i].us, p.pcs[i].handed)]
    ensures p'.sys.mgr.next == p.sys.mgr.next
  {
    hide Reached;
    p' := Do(p, Wake(i), Rescan, LIMITS, threshold);
  }

  /** Thread 0 fills both buffers before the worker flushes any. */
  lemma BothFull(n: nat, threshold: nat) returns (p: Program, x: Update, y: Update)
    requires threshold > 0 && n > 0
    ensures Big(x) && Big(y) && Scene(p, threshold, Two(Buffer(Queued, [x]), Buffer(Queued, [y]), [0, 1], None))
    ensures |p.pcs| == n && p.sys.mgr.next == 3 && forall i :: 0 <= i < n ==> p.pcs[i].Outside?
  {
    hide Reached, Calm, Filled;
    var p0 := OpenTwo(n, threshold);
    p, x := SceneSubmit(p0, threshold, Shape(OPENED), 0, BIG);
    FillFirst(x);
    p, y := SceneSubmit(p, threshold, Two(Buffer(Queued, [x]), Buffer(Active, []), [0], Some(1)), 0, BIG);
    FillSecond(Buffer(Queued, [x]), y);
  }

  /**
   Two submitters strand an acknowledged update: the second sleeps while both
   buffers are full; the first buffer is flushed and reused by the first thread
   before the second wakes up, by then beside a free buffer.
   */
  lemma TwoSubmittersStrand(threshold: nat) returns (p: Program, u: Update)
    requires threshold > 0
    ensures Reached(p, LIMITS, threshold) && |p.pcs| == 2 && |p.sys.mgr.buffers| == 2
    ensures u in p.sys.log && p.sys.mgr.buffers[0] == Buffer(Active, [u]) && p.sys.mgr.active == Some(1)
    ensures !Unstranded(p.sys.mgr.buffers, p.sys.mgr.active)
  {
    hide Reached, Calm, Filled, Activate;
    var q, x, y := BothFull(2, threshold);
    q := SceneSleep(q, threshold, Two(Buffer(Queued, [x]), Buffer(Queued, [y]), [0, 1], None), 1, SMALL);
    var z: Update;
    q, z := FirstReused(q, threshold, x, y, 0);
    var m := Two(Buffer(Active, [z]), Buffer(Queued, [y]), [1], Some(0));
    q := SceneFlush(q, threshold, m, y);
    FlushSecond(m, y, Buffer(Active, [z]), Some(0));
    q := SceneWake(q, threshold, Two(Buffer(Active, [z]), Buffer(Free, []), [], Some(0)), 1);
    SecondActive(Buffer(Active, [z]), []);
    p, u := q, z;
    StrandedLogged(p, threshold, u);
  }

  /** The worker flushes the first buffer and thread `i` puts a small update into it. */
  lemma FirstReused(p: Program, threshold: nat, x: Update, y: Update, i: nat) returns (p': Program, z: Update)
    requires threshold > 0 && Scene(p, threshold, Two(Buffer(Queued, [x]), Buffer(Queued, [y]), [0, 1], None)) && Big(x)
    requires i < |p.pcs| && p.pcs[i].Outside? && Unlocked(p.pcs) && p.sys.mgr.next < 8
    ensures p'.sys.mgr.next < 9 && Small(z)
    ensures Scene(p', threshold, Two(Buffer(Active, [z]), Buffer(Queued, [y]), [1], Some(0))) && p'.pcs == p.pcs
  {
    hide Reached, Calm, Filled;
    var m := Two(Buffer(Queued, [x]), Buffer(Queued, [y]), [0, 1], None);
    var q := SceneFlush(p, threshold, m, x);
    assert [0] + [1] == [0, 1];
    FlushFirst(m, x, Buffer(Queued, [y]), [1], None);
    p', z := SceneSubmit(q, threshold, Two(Buffer(Active, []), Buffer(Queued, [y]), [1], Some(0)), i, SMALL);
    FillSome(Buffer(Active, []), Buffer(Queued, [y]), [1], 0, z);
  }

  lemma SecondActive(first: Buffer, queue: seq<nat>)
    requires first.state.Active?
    ensures Activate(Two(first, Buffer(Free, []), queue, Some(0))) == Two(first, Buffer(Active, []), queue, Some(1))
  {
    assert FirstFree([first, Buffer(Free, [])], 0) == Some(1);
    assert [first, Buffer(Free, [])][1 := Buffer(Active, [])] == [first, Buffer(Active, [])];
  }

  lemma StrandedLogged(p: Program, threshold: nat, u: Update)
    requires Reached(p, LIMITS, threshold) && threshold > 0 && |p.sys.mgr.buffers| > 0
    requires p.sys.mgr.buffers[0] == Buffer(Active, [u])
    ensures u in p.sys.log
  {
    ReachedInv(p, LIMITS, threshold);
    hide Reached, DeltaStore.Inv, FlowInv, Visible, BuffersOk, Fifo, FlushRange, AllUniform, SubmissionOk, Held;
    hide PendingNewest, Within;
    BufferedIsLogged(p.sys.log, p.sys.done, p.sys.mgr.buffers, 0);
  }

  /** A single submitter loses an empty buffer when both were flushed before it wakes up. */
  lemma OneSubmitterLosesBuffer(threshold: nat) returns (p: Program)
    requires threshold > 0
    ensures Reached(p, LIMITS, threshold) && |p.pcs| == 1 && |p.sys.mgr.buffers| == 2
    ensures Lost(p.sys.mgr.buffers, p.sys.mgr.active) == {0}
  {
    hide Reached, Calm, Activate;
    var q, x, y := BothFull(1, threshold);
    var m := Two(Buffer(Queued, [x]), Buffer(Queued, [y]), [0, 1], None);
    q := SceneSleep(q, threshold, m, 0, SMALL);
    q := SceneFlush(q, threshold, m, x);
    assert [0] + [1] == [0, 1];
    FlushFirst(m, x, Buffer(Queued, [y]), [1], None);
    m := Two(Buffer(Active, []), Buffer(Queued, [y]), [1], Some(0));
    q := SceneFlush(q, threshold, m, y);
    FlushSecond(m, y, Buffer(Active, []), Some(0));
    p := SceneWake(q, threshold, Two(Buffer(Active, []), Buffer(Free, []), [], Some(0)), 0);
    SecondActive(Buffer(Active, []), []);
  }

  // ---- Beyond capacity ----

  lemma CostTwo(s: Update, b: Update)
    requires Small(s) && Big(b)
    ensures TotalCost(LIMITS, [s, b]) == 3 && Overflows(LIMITS, [s], [b])
  {
    CostOne(s);
    CostOne(b);
    assert [s, b][..1] == [s];
  }

  lemma RotateSecond(first: Buffer, s: Update)
    requires first.state.Queued?
    ensures Rotate(Two(first, Buffer(Active, [s]), [0], Some(1))) == Two(first, Buffer(Queued, [s]), [0, 1], None)
  {
    var m := Two(first, Buffer(Active, [s]), [0], Some(1));
    var q := m.(buffers := m.buffers[1 := Buffer(Queued, [s])], queue := [0, 1], active := None);
    assert FirstFree(q.buffers, 0) == None;
    assert q.buffers == [first, Buffer(Queued, [s])];
  }

  /** Thread 0 has handed over a half-full buffer for a big update and sleeps; no buffer is active. */
  lemma HandedAndAsleep(threshold: nat) returns (p: Program, x: Update, s: Update)
    requires threshold > 0
    ensures Big(x) && Small(s) && Scene(p, threshold, Two(Buffer(Queued, [x]), Buffer(Queued, [s]), [0, 1], None))
    ensures p.pcs == [Waiting([BIG], true), Outside] && p.sys.mgr.next == 3
  {
    hide Reached, Filled, Admissible, Overflows, Rotate;
    var q := OpenTwo(2, threshold);
    q, x := SceneSubmit(q, threshold, Shape(OPENED), 0, BIG);
    FillFirst(x);
    q, s := SceneSubmit(q, threshold, Two(Buffer(Queued, [x]), Buffer(Active, []), [0], Some(1)), 0, SMALL);
    FillSome(Buffer(Queued, [x]), Buffer(Active, []), [0], 1, s);
    var m := Two(Buffer(Queued, [x]), Buffer(Active, [s]), [0], Some(1));
    CostOne(BIG);
    CostTwo(s, BIG);
    q := EnterOne(q, LIMITS, 0, BIG, threshold);
    RotateRest(m);
    RotateSecond(Buffer(Queued, [x]), s);
    q := Do(q, HandOver(0), RotateBuffer, LIMITS, threshold);
    p := Turn(q, Sleep(0), LIMITS, threshold);
    assert p.pcs == [Waiting([BIG], true), Outside];
  }

  lemma NoneFree(first: Buffer, second: Buffer, queue: seq<nat>)
    requires !first.state.Free? && !second.state.Free?
    ensures Activate(Two(first, second, queue, Some(0))) == Two(first, second, queue, Some(0))
  {
    assert FirstFree([first, second], 0) == None;
  }

  lemma OverfilledFirst(s: Update, b: Update, second: Buffer)
    requires Small(s) && Big(b)
    ensures var bs := Filled(LIMITS, Two(Buffer(Active, [s]), second, [1], Some(0)), b).buffers;
            |bs| == 2 && !WithinCapacity(LIMITS, bs)
  {
    CostTwo(s, b);
    var m := Append(Two(Buffer(Active, [s]), second, [1], Some(0)), [b]);
    assert m.buffers[0].records == [s, b];
    assert RotateIfFull(LIMITS, m).buffers[0].records == [s, b];
  }

  /**
   Two submitters fill a buffer beyond its capacity: the first hands over its
   half-full buffer and sleeps; the second uses the buffer the worker emptied; the
   first wakes up, finds it active, and adds its batch without a second check.
   */
  lemma TwoSubmittersOverfill(threshold: nat) returns (p: Program)
    requires threshold > 0
    ensures Reached(p, LIMITS, threshold) && |p.pcs| == 2 && |p.sys.mgr.buffers| == 2
    ensures !WithinCapacity(LIMITS, p.sys.mgr.buffers)
  {
    hide Reached, Calm, Filled, Activate, Overflows, WithinCapacity;
    var q, x, s := HandedAndAsleep(threshold);
    var z: Update;
    q, z := FirstReused(q, threshold, x, s, 1);
    var m := Two(Buffer(Active, [z]), Buffer(Queued, [s]), [1], Some(0));
    q := SceneWake(q, threshold, m, 0);
    NoneFree(Buffer(Active, [z]), Buffer(Queued, [s]), [1]);
    assert Ours(ActiveRecords(q.sys.mgr), COLUMN);
    var b := Stamped(BIG, q.sys.mgr.next);
    FilledAs(q.sys.mgr, m, b);
    OverfilledFirst(z, b, Buffer(Queued, [s]));
    p := FinishOne(q, LIMITS, threshold, COLUMN, RECORD, 0, BIG, true);
    SameCapacity(p.sys.mgr, Filled(LIMITS, m, b));
  }

  lemma SameCapacity(m: Manager, m0: Manager)
    requires Shape(m) == Shape(m0)
    ensures m.buffers == m0.buffers
  {}
}
