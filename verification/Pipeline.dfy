/**
 The whole property-update pipeline as one transition system: submitters, the
 flush worker with its rebinding, the delta store with its merges, compaction
 that relocates topology records, and readers. Proves that an acknowledged update
 is visible in at least one layer in every interleaving.
 */
module Pipeline {
  import opened Records
  import opened DeltaBatch
  import opened ColumnChain
  import opened DeltaStore
  import opened StoreRuns
  import opened UpdateManager

  /** Where the flush worker stands in one buffer. */
  datatype Worker =
    | Resting
    | Flush(
        buf: nat,
        base: nat,                          // every commit below it was attached before this buffer
        groups: map<Target, seq<Record>>,   // groups not opened yet, by submitted target
        parts: map<Target, seq<Record>>,    // of the open group, by current home
        sending: seq<Record>)               // the part being attached

  /** A submission between taking its commit and being acknowledged. */
  datatype Submission = NoSubmission | Submitting(updates: seq<Update>, published: nat)

  type Home = map<Slot, u32>

  datatype System = System(
    store: Store,
    mgr: Manager,
    home: Home,                          // the file that holds each topology record
    worker: Worker,
    retired: nat,                        // updates of the flushed buffer already retired
    submission: Submission,
    shown: map<(Target, Key), Record>,   // the newest record each column shows, per key
    issued: seq<Update>,
    log: seq<Update>,                    // acknowledged updates
    done: seq<Update>,                   // those whose buffer was flushed
    floor: nat)                          // attached commits are below, waiting ones are not

  datatype Action =
    | Internal(e: Event)
    | NewTable(t: Target, origin: Column)
    | Start(updates: seq<Update>)
    | PublishOne
    | Acknowledge
    | RotateBuffer
    | Rescan
    | TakeBuffer
    | OpenGroup(t: Target)
    | Send(t: Target, persistent: bool)
    | Attached
    | RetireOne
    | Done(ok: bool)
    | Compact(t: Target, origin: Column, moved: set<Key>)

  function TargetAt(x: Slot, file: u32): Target {
    Target(x.kind, x.shard, file, file, x.property)
  }

  /** The column an update belongs to now. */
  function PlaceOf(home: Home, x: Slot): Target {
    TargetAt(x, if x in home then home[x] else 0)
  }

  function SlotIn(t: Target, k: Key): Slot {
    Slot(t.kind, t.shard, t.property, k)
  }

  /** Every record of a group is located again before it is attached. */
  function Rebound(home: Home, t: Target, rs: seq<Record>): (xs: seq<Addressed>)
    ensures |xs| == |rs|
    ensures forall i :: 0 <= i < |rs| ==> xs[i] == Addressed(PlaceOf(home, SlotIn(t, rs[i].key)), rs[i])
  {
    seq(|rs|, i requires 0 <= i < |rs| => Addressed(PlaceOf(home, SlotIn(t, rs[i].key)), rs[i]))
  }

  /** Updates of one topology record in one buffer were located at one target. */
  ghost predicate Uniform(us: seq<Update>) {
    forall i, j :: 0 <= i < |us| && 0 <= j < |us| && SlotOf(us[i]) == SlotOf(us[j]) ==> us[i].target == us[j].target
  }

  ghost predicate Known(home: Home, us: seq<Update>) {
    forall i :: 0 <= i < |us| ==> SlotOf(us[i]) in home
  }

  /** Steps of the store that the pipeline takes as they are. */
  predicate IsInternal(e: Event) {
    Silent(e) && !e.BeginAttach?
  }

  predicate LockFree(s: System) {
    s.submission.NoSubmission?
  }

  /** The worker holds the shared compaction lock while a group is open. */
  predicate GroupOpen(w: Worker) {
    w.Flush? && (w.parts != map[] || w.sending != [])
  }

  function ActiveRecords(m: Manager): seq<Update> {
    if m.active.Some? && m.active.value < |m.buffers| then m.buffers[m.active.value].records else []
  }

  /** Compaction runs behind the barrier, on drained chains, and copies the values readers see. */
  ghost predicate CanCompact(s: System, t: Target, origin: Column, moved: set<Key>) {
    && s.store.up && s.store.barrier && s.store.caller.None? && !GroupOpen(s.worker)
    && t !in s.store.cols && t.generation == t.file
    && forall k :: k in moved ==>
         var x := SlotIn(t, k);
         && x in s.home && PlaceOf(s.home, x) in s.store.cols
         && Deltas(s.store.cols[PlaceOf(s.home, x)]) == []
         && Cell(origin, k) == Read(s.store.cols[PlaceOf(s.home, x)], k)
  }

  ghost predicate Can(s: System, a: Action) {
    match a
    case Internal(e) => IsInternal(e) && Enabled(s.store, e) && (e.RaiseBarrier? ==> !GroupOpen(s.worker))
    case NewTable(t, origin) =>
      Enabled(s.store, AddColumn(t, origin)) && t.generation == t.file
      && forall k :: k in origin ==> SlotIn(t, k) !in s.home
    case Start(us) =>
      && LockFree(s) && !s.mgr.fatal && s.mgr.active.Some? && us != [] && s.mgr.next < LATEST
      && Known(s.home, us) && Uniform(ActiveRecords(s.mgr) + us)
    case PublishOne => s.submission.Submitting? && s.submission.published < |s.submission.updates|
    case Acknowledge => s.submission.Submitting? && s.submission.published == |s.submission.updates| &&
      s.mgr.active.Some?
    case RotateBuffer => LockFree(s)
    case Rescan => LockFree(s)
    case TakeBuffer => LockFree(s) && s.worker.Resting? && s.mgr.queue != []
    case OpenGroup(t) => s.worker.Flush? && !GroupOpen(s.worker) && t in s.worker.groups && !s.store.barrier
    case Send(t, persistent) =>
      && s.worker.Flush? && s.worker.sending == [] && t in s.worker.parts && t in s.store.cols
      && s.store.up && s.store.attaching.None? && !s.store.barrier && (persistent ==> t.file in s.store.tables)
    case Attached => Enabled(s.store, PublishDelta) && s.worker.Flush? && s.worker.sending != []
    case RetireOne =>
      && s.worker.Flush? && s.worker.groups == map[] && !GroupOpen(s.worker)
      && s.worker.buf < |s.mgr.buffers| && s.retired < |s.mgr.buffers[s.worker.buf].records|
    case Done(ok) =>
      && LockFree(s) && s.worker.Flush? && s.worker.buf < |s.mgr.buffers| && s.worker.sending == []
      && (ok ==> s.worker.groups == map[] && s.worker.parts == map[])
      && (ok ==> s.retired == |s.mgr.buffers[s.worker.buf].records|)
    case Compact(t, origin, moved) => CanCompact(s, t, origin, moved)
  }

  function MaxCommit(us: seq<Update>): nat {
    if us == [] then 0
    else
      var m := MaxCommit(us[..|us|-1]);
      if us[|us|-1].record.commit > m then us[|us|-1].record.commit else m
  }

  /** The bound on attached commits once a buffer is being flushed. */
  function NewFloor(floor: nat, us: seq<Update>): nat {
    if us == [] then floor else MaxCommit(us) + 1
  }

  /** What a column shows after the records of a file were published to it. */
  function ShowFile(shown: map<(Target, Key), Record>, t: Target, rs: seq<Record>): map<(Target, Key), Record> {
    if rs == [] then shown else ShowFile(shown, t, rs[..|rs|-1])[(t, rs[|rs|-1].key) := rs[|rs|-1]]
  }

  function ShowMoved(shown: map<(Target, Key), Record>, home: Home, t: Target, moved: set<Key>): map<(Target,
                     Key), Record> {
    shown + map k | k in moved &&
      (PlaceOf(home, SlotIn(t, k)), k) in shown :: (t, k) := shown[(PlaceOf(home, SlotIn(t, k)), k)]
  }

  function MoveHome(home: Home, t: Target, moved: set<Key>): Home {
    home + map k | k in moved :: SlotIn(t, k) := t.file
  }

  function AddHome(home: Home, t: Target, origin: Column): Home {
    home + map k | k in origin :: SlotIn(t, k) := t.file
  }

  /** The attachment the worker asks for is one the store accepts in commit order. */
  ghost predicate Ready(s: System, a: Action) {
    && Can(s, a)
    && (s.mgr.active.Some? ==> s.mgr.active.value < |s.mgr.buffers|)
    && (a.TakeBuffer? ==> s.mgr.queue[0] < |s.mgr.buffers|)
    && (a.Send? ==> Enabled(s.store, BeginAttach(a.t, s.worker.parts[a.t], a.persistent)))
  }

  function Act(s: System, a: Action, threshold: nat): System
    requires Ready(s, a)
  {
    match a
    case Internal(e) => s.(store := Step(s.store, e, threshold))
    case NewTable(t, origin) =>
      s.(store := Step(s.store, AddColumn(t, origin), threshold), home := AddHome(s.home, t, origin))
    case Start(us) =>
      var stamped := Stamp(us, s.mgr.next);
      s.(mgr := s.mgr.(next := s.mgr.next + 1), submission := Submitting(stamped, 0), issued := s.issued + stamped)
    case PublishOne =>
      var i := s.submission.published;
      s.(mgr := s.mgr.(pending := Publish(s.mgr.pending, s.submission.updates[i])),
        submission := s.submission.(published := i + 1))
    case Acknowledge =>
      s.(mgr := Append(s.mgr, s.submission.updates), submission := NoSubmission, log := s.log + s.submission.updates)
    case RotateBuffer => s.(mgr := Rotate(s.mgr))
    case Rescan => s.(mgr := Activate(s.mgr))
    case TakeBuffer =>
      var b := s.mgr.queue[0];
      var us := s.mgr.buffers[b].records;
      s.(mgr := Take(s.mgr),
         worker := Flush(b, s.floor, GroupBy(ByTarget(us)), map[], []),
         retired := 0,
         floor := NewFloor(s.floor, us))
    case OpenGroup(t) =>
      var w := s.worker;
      s.(worker := w.(groups := w.groups - {t}, parts := GroupBy(Rebound(s.home, t, w.groups[t]))))
    case Send(t, persistent) =>
      var w := s.worker;
      s.(store := Step(s.store, BeginAttach(t, w.parts[t], persistent), threshold),
         worker := w.(parts := w.parts - {t}, sending := w.parts[t]))
    case Attached =>
      s.(store := Step(s.store, PublishDelta, threshold),
         worker := s.worker.(sending := []),
         shown := ShowFile(s.shown, s.store.attaching.value, AttachPhase(s.store).file.records))
    case RetireOne =>
      var w := s.worker;
      s.(mgr := s.mgr.(pending := Retire(s.mgr.pending, s.mgr.buffers[w.buf].records[s.retired])),
         retired := s.retired + 1)
    case Done(ok) =>
      s.(mgr := Finish(s.mgr, s.worker.buf, ok), worker := Resting,
         done := if ok then s.done + s.mgr.buffers[s.worker.buf].records else s.done)
    case Compact(t, origin, moved) =>
      s.(store := Step(s.store, AddColumn(t, origin), threshold),
         home := MoveHome(s.home, t, moved),
         shown := ShowMoved(s.shown, s.home, t, moved))
  }

  // ---- The invariant, in parts that each look at few components ----

  function FlushRecords(s: System): seq<Update> {
    if s.worker.Flush? && s.worker.buf < |s.mgr.buffers| then s.mgr.buffers[s.worker.buf].records else []
  }

  function BufferOf(w: Worker): Option<nat> {
    if w.Flush? then Some(w.buf) else None
  }

  /** Buffer states, the queue and the active index agree. */
  ghost predicate BuffersOk(bs: seq<Buffer>, queue: seq<nat>, active: Option<nat>, flushing: Option<nat>) {
    && (active.Some? ==> active.value < |bs| && bs[active.value].state.Active?)
    && (flushing.Some? ==> flushing.value < |bs|)
    && (forall i :: 0 <= i < |queue| ==> queue[i] < |bs| && bs[queue[i]].state.Queued?)
    && (forall i, j :: 0 <= i < j < |queue| ==> queue[i] != queue[j])
    && (forall b :: 0 <= b < |bs| && bs[b].state.Queued? ==> b in queue)
    && (forall b :: 0 <= b < |bs| && bs[b].state.Free? ==> bs[b].records == [])
    && (forall b :: 0 <= b < |bs| ==> (bs[b].state.Flushing? <==> flushing == Some(b)))
  }

  ghost predicate Within(us: seq<Update>, low: nat, high: nat) {
    forall u :: u in us ==> low <= u.record.commit < high
  }

  /** Every commit of the one is below every commit of the other. */
  ghost predicate Before(a: seq<Update>, b: seq<Update>) {
    forall x, y :: x in a && y in b ==> x.record.commit < y.record.commit
  }

  function Top(s: System): nat {
    if s.submission.Submitting? && s.mgr.next > 0 then s.mgr.next - 1 else s.mgr.next
  }

  /** First in, first out: what is queued earlier has the smaller commits. */
  ghost predicate Fifo(bs: seq<Buffer>, queue: seq<nat>, active: Option<nat>, floor: nat, top: nat) {
    && floor <= top
    && (forall i :: 0 <= i < |queue| && queue[i] < |bs| ==> Within(bs[queue[i]].records, floor, top))
    && (forall i, j :: 0 <= i < j < |queue| && queue[i] < |bs| && queue[j] < |bs| ==>
      Before(bs[queue[i]].records, bs[queue[j]].records))
    && (active.Some? && active.value < |bs| ==>
          && Within(bs[active.value].records, floor, top)
          && forall i :: 0 <= i < |queue| && queue[i] < |bs| ==> Before(bs[queue[i]].records, bs[active.value].records))
  }

  ghost predicate FlushRange(w: Worker, us: seq<Update>, floor: nat) {
    w.Flush? ==> Within(us, w.base, floor)
  }

  ghost predicate HomeOk(home: Home, targets: set<Target>, issued: seq<Update>) {
    && (forall x :: x in home ==> PlaceOf(home, x) in targets)
    && Known(home, issued)
  }

  ghost predicate AllUniform(bs: seq<Buffer>) {
    forall b :: 0 <= b < |bs| ==> Uniform(bs[b].records)
  }

  ghost predicate ShownAt(shown: map<(Target, Key), Record>, t: Target, k: Key, commit: nat) {
    (t, k) in shown && shown[(t, k)].commit >= commit
  }

  ghost predicate FromGroup(us: seq<Update>, t: Target, r: Record) {
    exists u :: u in us && u.target == t && u.record == r
  }

  ghost predicate FromPlace(us: seq<Update>, home: Home, groups: map<Target, seq<Record>>, t: Target, r: Record) {
    exists u :: u in us && PlaceOf(home, SlotOf(u)) == t && u.record == r && u.target !in groups
  }

  /** Not handed to the store yet. */
  predicate Unsent(w: Worker, home: Home, u: Update) {
    w.Flush? && (
      || u.target in w.groups
      || (PlaceOf(home, SlotOf(u)) in w.parts && u.record in w.parts[PlaceOf(home, SlotOf(u))]))
  }

  predicate InFlight(w: Worker, home: Home, attaching: Option<Target>, u: Update) {
    w.Flush? && attaching == Some(PlaceOf(home, SlotOf(u))) && u.record in w.sending
  }

  /** Groups, parts and the part being attached come from the buffer; none of its updates is lost. */
  ghost predicate Flow(w: Worker, us: seq<Update>, home: Home, attaching: Option<Target>, shown: map<(Target, Key),
                       Record>) {
    w.Flush? ==>
      && (forall t, r :: t in w.groups && r in w.groups[t] ==> FromGroup(us, t, r))
      && (forall t :: t in w.parts ==> w.parts[t] != [])
      && (forall t, r :: t in w.parts && r in w.parts[t] ==> FromPlace(us, home, w.groups, t, r))
      && (forall r :: r in w.sending ==> attaching.Some? && FromPlace(us, home, w.groups, attaching.value, r))
      && (attaching.Some? ==> attaching.value !in w.parts)
      && (forall u :: u in us ==>
            Unsent(w, home, u) || InFlight(w, home, attaching, u)
            || ShownAt(shown, PlaceOf(home, SlotOf(u)), u.record.key, u.record.commit))
      && (forall u :: u in us && u.target in w.groups ==> u.record in w.groups[u.target])
  }

  /** The store attaches exactly what the worker is sending. */
  ghost predicate SendingOk(store: Store, w: Worker) {
    && (store.attaching.Some? <==> w.Flush? && w.sending != [])
    && (store.attaching.Some? ==>
          store.attaching.value in store.cols &&
            NewRecords(store.cols[store.attaching.value].attach) == FileRecords(w.sending))
  }

  predicate InChain(cols: map<Target, Col>, t: Target, r: Record) {
    t in cols && r in Flat(Deltas(cols[t]))
  }

  ghost predicate ChainsBelow(cols: map<Target, Col>, floor: nat) {
    forall t, r :: InChain(cols, t, r) ==> r.commit < floor
  }

  ghost predicate ShownBelow(shown: map<(Target, Key), Record>, floor: nat) {
    forall p :: p in shown ==> shown[p].commit < floor
  }

  /** Nothing of this buffer was attached for a record that still waits. */
  ghost predicate ChainWaits(w: Worker, us: seq<Update>, home: Home, cols: map<Target, Col>) {
    forall u, r ::
      u in us && Unsent(w, home, u) && InChain(cols, PlaceOf(home, SlotOf(u)), r) && r.key == u.record.key ==>
        r.commit < w.base
  }

  ghost predicate ShownWaits(w: Worker, us: seq<Update>, home: Home, attaching: Option<Target>,
                             shown: map<(Target, Key), Record>) {
    forall u :: u in us && (Unsent(w, home, u) || InFlight(w, home, attaching, u))
             ==> !ShownAt(shown, PlaceOf(home, SlotOf(u)), u.record.key, w.base)
  }

  /** What `shown` says is what a reader of the column gets. */
  ghost predicate ShownReads(shown: map<(Target, Key), Record>, cols: map<Target, Col>) {
    forall p :: p in shown ==> p.0 in cols && shown[p].key == p.1 && Read(cols[p.0], p.1) == Some(shown[p].value)
  }

  ghost predicate IssuedAs(issued: seq<Update>, x: Slot, commit: u64, value: Bytes) {
    exists u :: u in issued && SlotOf(u) == x && u.record.commit == commit && u.record.value == value
  }

  ghost predicate ShownIssued(shown: map<(Target, Key), Record>, issued: seq<Update>) {
    forall p :: p in shown ==> IssuedAs(issued, SlotIn(p.0, p.1), shown[p].commit, shown[p].value)
  }

  /** No other topology record shares the pending entry of `x`. */
  ghost predicate Alone(issued: seq<Update>, x: Slot) {
    forall u :: u in issued && KeyOf(u) == PendingKeyOf(x) ==> SlotOf(u) == x
  }

  ghost predicate PendingAt(p: PendingMap, k: PendingKey, commit: nat) {
    k in p && p[k].commit >= commit
  }

  /** Every acknowledged update, or a newer one, is pending or shown by the column it belongs to. */
  ghost predicate Visible(log: seq<Update>, issued: seq<Update>, p: PendingMap, shown: map<(Target, Key), Record>,
                          home: Home) {
    forall u :: u in log && Alone(issued, SlotOf(u)) ==>
      PendingAt(p, KeyOf(u), u.record.commit) || ShownAt(shown, PlaceOf(home, SlotOf(u)), u.record.key, u.record.commit)
  }

  /** The part of a buffer that was not retired yet. */
  function Kept(bs: seq<Buffer>, flushing: Option<nat>, retired: nat, b: nat): seq<Update>
    requires b < |bs|
  {
    if flushing == Some(b) && retired <= |bs[b].records| then bs[b].records[retired..] else bs[b].records
  }

  function Announced(sub: Submission): seq<Update> {
    if sub.Submitting? && sub.published <= |sub.updates| then sub.updates[..sub.published] else []
  }

  ghost predicate Explains(u: Update, k: PendingKey, v: PendingValue) {
    KeyOf(u) == k && v == PendingValue(u.record.key.base, u.record.commit, u.record.value)
  }

  ghost predicate HeldBy(bs: seq<Buffer>, flushing: Option<nat>, retired: nat, sub: Submission, k: PendingKey,
                         v: PendingValue) {
    || (exists b, u :: 0 <= b < |bs| && u in Kept(bs, flushing, retired, b) && Explains(u, k, v))
    || (exists u :: u in Announced(sub) && Explains(u, k, v))
  }

  /** A pending entry stands for an update that is still in a buffer. */
  ghost predicate Held(p: PendingMap, bs: seq<Buffer>, flushing: Option<nat>, retired: nat, sub: Submission) {
    forall k :: k in p ==> HeldBy(bs, flushing, retired, sub, k, p[k])
  }

  function Gather(bs: seq<Buffer>): multiset<Update> {
    if bs == [] then multiset{} else Gather(bs[..|bs|-1]) + multiset(bs[|bs|-1].records)
  }

  /** Each acknowledged update is in exactly one buffer until that buffer is flushed. */
  ghost predicate Conserved(log: seq<Update>, done: seq<Update>, bs: seq<Buffer>) {
    multiset(log) == multiset(done) + Gather(bs)
  }

  ghost predicate AllIn(us: seq<Update>, vs: seq<Update>) {
    forall u :: u in us ==> u in vs
  }

  ghost predicate SubmissionOk(sub: Submission, p: PendingMap, next: nat, activeRecords: seq<Update>) {
    sub.Submitting? ==>
      && next > 0 && sub.published <= |sub.updates|
      && Within(sub.updates, next - 1, next)
      && Uniform(activeRecords + sub.updates)
      && forall i :: 0 <= i < sub.published ==> PendingAt(p, KeyOf(sub.updates[i]), sub.updates[i].record.commit)
  }

  /** A pending value is always at least as new as every acknowledged update of its key. */
  ghost predicate PendingNewest(log: seq<Update>, p: PendingMap) {
    forall u :: u in log && KeyOf(u) in p ==> p[KeyOf(u)].commit >= u.record.commit
  }

  function Sent(sub: Submission): seq<Update> {
    if sub.Submitting? then sub.updates else []
  }

  ghost predicate ManagerInv(s: System) {
    && BuffersOk(s.mgr.buffers, s.mgr.queue, s.mgr.active, BufferOf(s.worker))
    && Fifo(s.mgr.buffers, s.mgr.queue, s.mgr.active, s.floor, Top(s))
    && FlushRange(s.worker, FlushRecords(s), s.floor)
    && (s.worker.Flush? ==> s.retired <= |FlushRecords(s)|)
    && AllUniform(s.mgr.buffers)
    && SubmissionOk(s.submission, s.mgr.pending, s.mgr.next, ActiveRecords(s.mgr))
    && Held(s.mgr.pending, s.mgr.buffers, BufferOf(s.worker), s.retired, s.submission)
    && Conserved(s.log, s.done, s.mgr.buffers)
    && AllIn(s.log, s.issued) && AllIn(Sent(s.submission), s.issued)
    && PendingNewest(s.log, s.mgr.pending) && Within(s.log, 0, Top(s))
  }

  ghost predicate FlowInv(s: System) {
    && HomeOk(s.home, s.store.cols.Keys, s.issued)
    && Flow(s.worker, FlushRecords(s), s.home, s.store.attaching, s.shown)
    && SendingOk(s.store, s.worker)
    && ChainsBelow(s.store.cols, s.floor)
    && ShownBelow(s.shown, s.floor)
    && ChainWaits(s.worker, FlushRecords(s), s.home, s.store.cols)
    && ShownWaits(s.worker, FlushRecords(s), s.home, s.store.attaching, s.shown)
    && ShownReads(s.shown, s.store.cols)
    && ShownIssued(s.shown, s.issued)
  }

  ghost predicate SystemInv(s: System, threshold: nat) {
    && s.store.up && Inv(s.store, threshold)
    && ManagerInv(s)
    && FlowInv(s)
    && Visible(s.log, s.issued, s.mgr.pending, s.shown, s.home)
  }

  /** A freshly opened database: a recovered store, empty buffers, commits above every recovered one. */
  ghost predicate FreshlyOpened(s: System, threshold: nat) {
    && s.store.up && Inv(s.store, threshold) && s.store.attaching.None?
    && |s.mgr.buffers| >= 2 && s.mgr.buffers[0] == Buffer(Active, [])
    && (forall b :: 0 < b < |s.mgr.buffers| ==> s.mgr.buffers[b] == Buffer(Free, []))
    && s.mgr.queue == [] && s.mgr.active == Some(0) && s.mgr.pending == map[] && !s.mgr.fatal
    && ChainsBelow(s.store.cols, s.mgr.next) && s.floor == s.mgr.next
    && (forall x :: x in s.home ==> PlaceOf(s.home, x) in s.store.cols)
    && s.worker.Resting? && s.submission.NoSubmission?
    && s.shown == map[] && s.issued == [] && s.log == [] && s.done == []
  }
}
