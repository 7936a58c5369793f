/**
 The delta store over all property columns: the registry of chains, the merge
 job queue with its worker, the synchronous merge behind the compaction barrier,
 crash and recovery. Every event is one atomic step; a run is any sequence of
 enabled events.
 */
module DeltaStore {
  import opened Records
  import opened DeltaBatch
  import opened ColumnChain

  datatype Store = Store(
    cols: map<Target, Col>,
    tables: set<u32>,           // base files that reached the disk
    marked: set<u32>,           // base files the process was told are durable
    nextGen: nat,
    up: bool,
    attaching: Option<Target>,  // the flush worker attaches one delta at a time
    handed: seq<Target>,        // merge ownership taken, job not queued yet
    jobs: seq<Target>,
    worker: Option<Target>,
    caller: Option<Target>,     // the synchronous merge
    barrier: bool)              // compaction excludes attachments

  const EMPTY := Store(map[], {}, {}, 1, true, None, [], [], None, None, false)

  datatype Event =
    | AddColumn(t: Target, origin: Column)
    | WriteTable(file: u32)
    | BeginAttach(t: Target, batch: seq<Record>, persistent: bool)
    | WriteDelta
    | CommitDelta
    | PublishDelta
    | Promote(t: Target, i: nat)
    | Mark(t: Target)
    | QueueJob(i: nat)
    | StartJob
    | RaiseBarrier
    | LowerBarrier
    | StartCaller(t: Target)
    | CaptureStep(who: Owner)
    | RenameStep(who: Owner)
    | DropStep(who: Owner)
    | PublishStep(who: Owner)
    | UnlinkStep(t: Target, gen: nat)
    | CrashStep
    | AbandonStep(t: Target)
    | ReopenStep

  function TargetOf(s: Store, who: Owner): Option<Target> {
    if who == Background then s.worker else s.caller
  }

  /** Where the flush worker stands; `NoAttach` when it is not attaching. */
  function AttachPhase(s: Store): (a: Attach)
    ensures !a.NoAttach? ==>
              s.up && s.attaching.Some? && s.attaching.value in s.cols
              && s.cols[s.attaching.value].chain.Some? && a == s.cols[s.attaching.value].attach
  {
    if s.up && s.attaching.Some? && s.attaching.value in s.cols && s.cols[s.attaching.value].chain.Some?
    then s.cols[s.attaching.value].attach else NoAttach
  }

  /** Where a merge owner stands; `Idle` when it is not merging. */
  function MergePhase(s: Store, who: Owner): (m: Merge)
    ensures !m.Idle? ==>
              s.up && TargetOf(s, who).Some? && TargetOf(s, who).value in s.cols
              && s.cols[TargetOf(s, who).value].chain.Some? && m == MergeOf(s.cols[TargetOf(s, who).value], who)
  {
    if s.up && TargetOf(s, who).Some? && TargetOf(s, who).value in s.cols && s.cols[TargetOf(s, who).value].chain.Some?
    then MergeOf(s.cols[TargetOf(s, who).value], who) else Idle
  }

  predicate AtStage(m: Merge, stage: Stage) {
    m.Running? && m.stage == stage
  }

  ghost predicate Enabled(s: Store, e: Event) {
    match e
    case AddColumn(t, _) => s.up && t !in s.cols
    case WriteTable(_) => s.up
    case BeginAttach(t, batch, persistent) =>
      && s.up && t in s.cols && s.attaching.None? && !s.barrier && batch != []
      && (persistent ==> t.file in s.tables)
      && Follows(Flat(Deltas(s.cols[t])), batch)
    case WriteDelta => AttachPhase(s).Opened?
    case CommitDelta => AttachPhase(s).Created?
    case PublishDelta => AttachPhase(s).Committed?
    case Promote(t, i) => t in s.cols && t.file in s.tables && i < |s.cols[t].active|
    case Mark(t) => s.up && t in s.cols && t.file in s.tables
    case QueueJob(i) => s.up && i < |s.handed|
    case StartJob => s.up && s.worker.None? && s.jobs != [] && s.jobs[0] in s.cols && s.cols[s.jobs[0]].chain.Some?
    case RaiseBarrier => s.up && !s.barrier && s.attaching.None?
    case LowerBarrier => s.up && s.barrier && s.caller.None?
    case StartCaller(t) =>
      s.up && s.barrier && s.caller.None? && t in s.cols && s.cols[t].chain.Some? && !Busy(s.cols[t])
    case CaptureStep(who) => MergePhase(s, who).Claimed?
    case RenameStep(who) => AtStage(MergePhase(s, who), Taken)
    case DropStep(who) => AtStage(MergePhase(s, who), Renamed)
    case PublishStep(who) => AtStage(MergePhase(s, who), Dropped)
    case UnlinkStep(t, gen) => s.up && t in s.cols && gen in s.cols[t].obsolete
    case CrashStep => s.up
    case AbandonStep(t) => !s.up && t in s.cols && t.file !in s.tables
    case ReopenStep => !s.up && forall t :: t in s.cols ==> t.file in s.tables && Openable(s.cols[t])
  }

  /** Recovery fails on a manifest entry whose file is gone. */
  predicate Openable(c: Col) {
    forall i :: 0 <= i < |c.active| ==> c.active[i].gen in c.files
  }

  function Put(s: Store, t: Target, c: Col): Store {
    s.(cols := s.cols[t := c])
  }

  function SetOwner(s: Store, who: Owner, t: Option<Target>): Store {
    if who == Background then s.(worker := t) else s.(caller := t)
  }

  function AsJob(yes: bool, t: Target): seq<Target> {
    if yes then [t] else []
  }

  /** Chains recovery finds already at the threshold; their jobs are handed over. */
  ghost predicate Overfull(s: Store, js: seq<Target>) {
    && (forall i, j :: 0 <= i < j < |js| ==> js[i] != js[j])
    && (forall t :: t in js <==> t in s.cols && Busy(s.cols[t]))
  }

  /** Recovery continues the generations after the greatest one the manifest names. */
  ghost predicate FollowsManifest(s: Store, nextGen: nat) {
    forall t, i :: t in s.cols && 0 <= i < |s.cols[t].active| ==> s.cols[t].active[i].gen < nextGen
  }

  /** The error return when a prefix check fails: the chain is released, nothing published. */
  function Abort(c: Col, who: Owner): (d: Col)
    requires MergeOf(c, who).Running?
    ensures SameHistory(c, d)
  {
    SetMerge(c.(chain := if c.chain.Some? then Some(c.chain.value.(busy := false)) else None), who, Idle)
  }

  /** The state after an event other than recovery. */
  function Step(s: Store, e: Event, threshold: nat): Store
    requires Enabled(s, e) && !e.ReopenStep?
  {
    match e
    case AddColumn(t, origin) => Put(s, t, Fresh(origin))
    case WriteTable(file) => s.(tables := s.tables + {file})
    case BeginAttach(t, batch, persistent) =>
      Put(s, t, OpenAttach(s.cols[t], batch, persistent || t.file in s.marked)).(attaching := Some(t))
    case WriteDelta =>
      var t := s.attaching.value;
      Put(s, t, CreateFile(s.cols[t], s.nextGen)).(nextGen := s.nextGen + 1)
    case CommitDelta =>
      var t := s.attaching.value;
      Put(s, t, CommitAdd(s.cols[t]))
    case PublishDelta =>
      var t := s.attaching.value;
      Put(s, t, PublishAdd(s.cols[t], threshold)).(
        attaching := None, handed := s.handed + AsJob(SchedulesOnAttach(s.cols[t], threshold), t))
    case Promote(t, i) => Put(s, t, PromoteEntry(s.cols[t], i))
    case Mark(t) =>
      Put(s, t, MarkPersistent(s.cols[t], threshold)).(
        marked := s.marked + {t.file}, handed := s.handed + AsJob(SchedulesOnMark(s.cols[t], threshold), t))
    case QueueJob(i) => s.(handed := s.handed[..i] + s.handed[i+1..], jobs := s.jobs + [s.handed[i]])
    case StartJob =>
      Put(s, s.jobs[0], Claim(s.cols[s.jobs[0]], Background, false)).(worker := Some(s.jobs[0]), jobs := s.jobs[1..])
    case RaiseBarrier => s.(barrier := true)
    case LowerBarrier => s.(barrier := false)
    case StartCaller(t) => Put(s, t, Claim(s.cols[t], Caller, true)).(caller := Some(t))
    case CaptureStep(who) =>
      var t := TargetOf(s, who).value;
      var c := Capture(s.cols[t], who, threshold);
      if MergeOf(c, who).Idle? then SetOwner(Put(s, t, c), who, None) else Put(s, t, c).(nextGen := s.nextGen + 1)
    case RenameStep(who) =>
      var t := TargetOf(s, who).value;
      Put(s, t, RenameBase(s.cols[t], who))
    case DropStep(who) =>
      var t := TargetOf(s, who).value;
      Put(s, t, DropPrefix(s.cols[t], who))
    case PublishStep(who) =>
      var t := TargetOf(s, who).value;
      if PrefixUnchanged(s.cols[t], who) then
        SetOwner(Put(s, t, PublishMerge(s.cols[t], who, threshold)), who, None).(
          handed := s.handed + AsJob(SchedulesNext(s.cols[t], who, threshold), t))
      else
        SetOwner(Put(s, t, Abort(s.cols[t], who)), who, None)
    case UnlinkStep(t, gen) => Put(s, t, Unlink(s.cols[t], gen))
    case CrashStep =>
      Store(map t | t in s.cols :: Crash(s.cols[t]), s.tables, {}, s.nextGen, false, None, [], [], None, None, false)
    case AbandonStep(t) => s.(cols := s.cols - {t})
  }

  /** Recovery may list the chains it finds overfull in any order. */
  ghost predicate Reopened(s: Store, s': Store, threshold: nat) {
    && Enabled(s, ReopenStep)
    && s' == s.(cols := map t | t in s.cols :: Reopen(s.cols[t], threshold), nextGen := s'.nextGen, up := true,
      handed := s'.handed)
    && Overfull(s', s'.handed)
    && s'.nextGen > 0 && FollowsManifest(s, s'.nextGen)
  }

  ghost predicate Next(s: Store, e: Event, s': Store, threshold: nat) {
    Enabled(s, e) && if e.ReopenStep? then Reopened(s, s', threshold) else s' == Step(s, e, threshold)
  }

  // ---- The invariant ----

  function Count(ts: seq<Target>, t: Target): nat {
    multiset(ts)[t]
  }

  function One(b: bool): nat {
    if b then 1 else 0
  }

  /** Everything that currently holds the right to merge `t`. */
  function Tokens(s: Store, t: Target): nat {
    Count(s.handed, t) + Count(s.jobs, t) + One(s.worker == Some(t)) + One(s.caller == Some(t))
  }

  /** What the store's threads do on one column. */
  datatype Hands = Hands(tokens: nat, worker: bool, caller: bool, attaching: bool)

  function HandsOn(s: Store, t: Target): Hands {
    Hands(Tokens(s, t), s.worker == Some(t), s.caller == Some(t), s.attaching == Some(t))
  }

  /** A chain is marked busy exactly while one thread or one job owns its merge. */
  ghost predicate Owned(c: Col, h: Hands) {
    && h.tokens == One(Busy(c))
    && (h.worker <==> !c.background.Idle?)
    && (h.caller <==> !c.caller.Idle?)
    && (h.attaching <==> !c.attach.NoAttach?)
    && (h.attaching ==> c.chain.Some?)
  }

  /** The worker merges a prefix; the synchronous merge always captured the whole chain. */
  ghost predicate Kinds(c: Col) {
    && (!c.background.Idle? ==> !c.background.all)
    && (!c.caller.Idle? ==> c.caller.all)
    && (c.caller.Running? ==> c.chain.Some? && c.caller.batch == c.chain.value.view.deltas)
  }

  /** A durable chain at the threshold is owned by someone, or is just being attached to. */
  ghost predicate Eager(c: Col, threshold: nat) {
    c.chain.Some? && c.chain.value.persistent && |c.chain.value.view.deltas| >= threshold
    ==> c.chain.value.busy || !c.attach.NoAttach?
  }

  ghost predicate Local(c: Col, h: Hands, up: bool, durable: bool, nextGen: nat, threshold: nat) {
    ColInv(c, up, durable, nextGen) && Owned(c, h) && Kinds(c) && Eager(c, threshold)
  }

  ghost predicate LocalAt(s: Store, t: Target, threshold: nat)
    requires t in s.cols
  {
    Local(s.cols[t], HandsOn(s, t), s.up, t.file in s.tables, s.nextGen, threshold)
  }

  const NO_HANDS := Hands(0, false, false, false)

  ghost predicate Locals(s: Store, threshold: nat) {
    && (forall t :: t in s.cols ==> LocalAt(s, t, threshold))
    && (forall t :: t !in s.cols ==> HandsOn(s, t) == NO_HANDS)
  }

  ghost predicate Global(s: Store) {
    && s.nextGen > 0
    && (s.barrier ==> s.attaching.None?)
    && (s.caller.Some? ==> s.barrier)
    && s.marked <= s.tables
    && (!s.up ==> s.attaching.None? && s.handed == [] && s.jobs == [] && s.worker.None? && s.caller.None? && !s.barrier)
  }

  ghost predicate Inv(s: Store, threshold: nat) {
    Global(s) && Locals(s, threshold)
  }

  // ---- One column changes, the others keep their hands ----

  lemma OthersLater(c: Col, h: Hands, up: bool, durable: bool, nextGen: nat, next': nat, threshold: nat)
    requires Local(c, h, up, durable, nextGen, threshold) && nextGen <= next'
    ensures Local(c, h, up, durable, next', threshold)
  {
    hide ColInv;
    LaterGenerations(c, up, durable, nextGen, next');
  }

  lemma PutKeeps(s: Store, t: Target, c: Col, s': Store, threshold: nat)
    requires Locals(s, threshold) && s'.cols == s.cols[t := c] && s'.up == s.up && s'.tables == s.tables
    requires s.nextGen <= s'.nextGen
    requires forall u :: u != t ==> HandsOn(s', u) == HandsOn(s, u)
    requires Local(c, HandsOn(s', t), s'.up, t.file in s'.tables, s'.nextGen, threshold)
    ensures Locals(s', threshold)
  {
    hide Local, HandsOn;
    forall u | u in s'.cols ensures LocalAt(s', u, threshold) {
      if u != t {
        assert LocalAt(s, u, threshold);
        OthersLater(s.cols[u], HandsOn(s, u), s.up, u.file in s.tables, s.nextGen, s'.nextGen, threshold);
      }
    }
  }

  lemma CountAppend(a: seq<Target>, b: seq<Target>, t: Target)
    ensures Count(a + b, t) == Count(a, t) + Count(b, t)
  {}

  lemma CountOne(x: Target, t: Target)
    ensures Count([x], t) == One(x == t) && Count([], t) == 0
  {}

  /** Adding one job for `t`, or none, changes only the hands on `t`. */
  lemma HandOver(s: Store, s': Store, t: Target, yes: bool)
    requires s'.handed == s.handed + AsJob(yes, t) && s'.jobs == s.jobs && s'.worker == s.worker
    requires s'.caller == s.caller
    requires forall u :: u != t ==> (s'.attaching == Some(u) <==> s.attaching == Some(u))
    ensures HandsOn(s', t) == HandsOn(s, t).(tokens := Tokens(s, t) + One(yes), attaching := s'.attaching == Some(t))
    ensures forall u :: u != t ==> HandsOn(s', u) == HandsOn(s, u)
  {
    forall u ensures Count(s'.handed, u) == Count(s.handed, u) + One(yes && u == t) {
      CountAppend(s.handed, AsJob(yes, t), u);
      CountOne(t, u);
    }
  }

  // ---- Attachment steps ----

  lemma BeginAttachKeeps(s: Store, t: Target, batch: seq<Record>, persistent: bool, threshold: nat)
    requires Inv(s, threshold) && Enabled(s, BeginAttach(t, batch, persistent))
    ensures Inv(Step(s, BeginAttach(t, batch, persistent), threshold), threshold)
  {
    hide ColInv, Flat, Overlay, FileRecords;
    var s' := Step(s, BeginAttach(t, batch, persistent), threshold);
    var durable := persistent || t.file in s.marked;
    assert LocalAt(s, t, threshold);
    OpenAttachKeeps(s.cols[t], batch, durable, t.file in s.tables, s.nextGen);
    PutKeeps(s, t, OpenAttach(s.cols[t], batch, durable), s', threshold);
  }

  lemma WriteDeltaKeeps(s: Store, threshold: nat)
    requires Inv(s, threshold) && Enabled(s, WriteDelta)
    ensures Inv(Step(s, WriteDelta, threshold), threshold)
  {
    hide ColInv, Flat, Overlay, FileRecords;
    var t := s.attaching.value;
    assert LocalAt(s, t, threshold);
    CreateFileKeeps(s.cols[t], t.file in s.tables, s.nextGen);
    PutKeeps(s, t, CreateFile(s.cols[t], s.nextGen), Step(s, WriteDelta, threshold), threshold);
  }

  lemma CommitDeltaKeeps(s: Store, threshold: nat)
    requires Inv(s, threshold) && Enabled(s, CommitDelta)
    ensures Inv(Step(s, CommitDelta, threshold), threshold)
  {
    hide ColInv, Flat, Overlay, FileRecords;
    var t := s.attaching.value;
    assert LocalAt(s, t, threshold);
    CommitAddKeeps(s.cols[t], t.file in s.tables, s.nextGen);
    PutKeeps(s, t, CommitAdd(s.cols[t]), Step(s, CommitDelta, threshold), threshold);
  }

  lemma PublishAddLocal(c: Col, h: Hands, durable: bool, nextGen: nat, threshold: nat)
    requires Local(c, h, true, durable, nextGen, threshold) && c.attach.Committed? && c.chain.Some? && !h.caller
    ensures Local(PublishAdd(c, threshold),
        Hands(h.tokens + One(SchedulesOnAttach(c, threshold)), h.worker, h.caller, false),
                  true, durable, nextGen, threshold)
  {
    hide ColInv;
    PublishAddKeeps(c, threshold, durable, nextGen);
  }

  lemma PublishDeltaKeeps(s: Store, threshold: nat)
    requires Inv(s, threshold) && Enabled(s, PublishDelta)
    ensures Inv(Step(s, PublishDelta, threshold), threshold)
  {
    hide Local, Tokens;
    var t, s' := s.attaching.value, Step(s, PublishDelta, threshold);
    assert LocalAt(s, t, threshold);
    PublishAddLocal(s.cols[t], HandsOn(s, t), t.file in s.tables, s.nextGen, threshold);
    HandOver(s, s', t, SchedulesOnAttach(s.cols[t], threshold));
    PutKeeps(s, t, PublishAdd(s.cols[t], threshold), s', threshold);
  }

  // ---- Durability steps ----

  lemma FreshOk(origin: Column, durable: bool, nextGen: nat)
    ensures ColInv(Fresh(origin), true, durable, nextGen)
  {}

  lemma AddColumnKeeps(s: Store, t: Target, origin: Column, threshold: nat)
    requires Inv(s, threshold) && Enabled(s, AddColumn(t, origin))
    ensures Inv(Step(s, AddColumn(t, origin), threshold), threshold)
  {
    hide ColInv, Tokens;
    var s' := Step(s, AddColumn(t, origin), threshold);
    FreshOk(origin, t.file in s.tables, s.nextGen);
    SameHands(s, s');
    assert HandsOn(s, t) == NO_HANDS;
    PutKeeps(s, t, Fresh(origin), s', threshold);
  }

  lemma SameHands(s: Store, s': Store)
    requires s'.handed == s.handed && s'.jobs == s.jobs && s'.worker == s.worker && s'.caller == s.caller
    requires s'.attaching == s.attaching
    ensures forall u :: HandsOn(s', u) == HandsOn(s, u)
  {}

  lemma PromoteKeeps(s: Store, t: Target, i: nat, threshold: nat)
    requires Inv(s, threshold) && Enabled(s, Promote(t, i))
    ensures Inv(Step(s, Promote(t, i), threshold), threshold)
  {
    hide ColInv, Tokens;
    var s' := Step(s, Promote(t, i), threshold);
    assert LocalAt(s, t, threshold);
    PromoteEntryKeeps(s.cols[t], i, s.up, s.nextGen);
    SameHands(s, s');
    PutKeeps(s, t, PromoteEntry(s.cols[t], i), s', threshold);
  }

  lemma MarkLocal(c: Col, h: Hands, nextGen: nat, threshold: nat)
    requires Local(c, h, true, true, nextGen, threshold)
    ensures Local(MarkPersistent(c, threshold), h.(tokens := h.tokens + One(SchedulesOnMark(c, threshold))), true,
        true, nextGen, threshold)
  {
    hide ColInv;
    MarkPersistentKeeps(c, threshold, nextGen);
  }

  lemma MarkKeeps(s: Store, t: Target, threshold: nat)
    requires Inv(s, threshold) && Enabled(s, Mark(t))
    ensures Inv(Step(s, Mark(t), threshold), threshold)
  {
    hide Local, Tokens;
    var s' := Step(s, Mark(t), threshold);
    assert LocalAt(s, t, threshold);
    MarkLocal(s.cols[t], HandsOn(s, t), s.nextGen, threshold);
    HandOver(s, s', t, SchedulesOnMark(s.cols[t], threshold));
    PutKeeps(s, t, MarkPersistent(s.cols[t], threshold), s', threshold);
  }

  lemma WriteTableKeeps(s: Store, file: u32, threshold: nat)
    requires Inv(s, threshold) && Enabled(s, WriteTable(file))
    ensures Inv(Step(s, WriteTable(file), threshold), threshold)
  {
    hide ColInv, Tokens;
    var s' := Step(s, WriteTable(file), threshold);
    SameHands(s, s');
    forall t | t in s'.cols ensures LocalAt(s', t, threshold) {
      assert LocalAt(s, t, threshold);
      if t.file == file {
        BecomesDurable(s.cols[t], s.up, t.file in s.tables, s.nextGen);
      }
    }
  }

  // ---- Merge steps ----

  lemma QueueJobKeeps(s: Store, i: nat, threshold: nat)
    requires Inv(s, threshold) && Enabled(s, QueueJob(i))
    ensures Inv(Step(s, QueueJob(i), threshold), threshold)
  {
    hide Local, Count;
    var s' := Step(s, QueueJob(i), threshold);
    forall t ensures HandsOn(s', t) == HandsOn(s, t) {
      MovedToken(s.handed, s.jobs, i, t);
    }
    hide HandsOn;
    forall t | t in s'.cols ensures LocalAt(s', t, threshold) {
      assert LocalAt(s, t, threshold);
    }
  }

  lemma MovedToken(handed: seq<Target>, jobs: seq<Target>, i: nat, t: Target)
    requires i < |handed|
    ensures Count(handed[..i] + handed[i+1..], t) + Count(jobs + [handed[i]], t) == Count(handed, t) + Count(jobs, t)
  {
    var a, x, b := handed[..i], handed[i], handed[i+1..];
    assert handed == (a + [x]) + b;
    CountAppend(a + [x], b, t);
    CountAppend(a, [x], t);
    CountAppend(a, b, t);
    CountAppend(jobs, [x], t);
  }

  lemma ClaimLocal(c: Col, who: Owner, h: Hands, durable: bool, nextGen: nat, threshold: nat)
    requires Local(c, h, true, durable, nextGen, threshold) && c.chain.Some? && !h.worker && !h.caller
    ensures Local(Claim(c, who, who == Caller), Hands(1, who == Background, who == Caller, h.attaching), true, durable,
        nextGen, threshold)
  {
    hide ColInv;
    ClaimKeeps(c, who, who == Caller, durable, nextGen);
  }

  /** Taking a queued job moves its token to the worker. */
  lemma JobTokens(s: Store, s': Store)
    requires s.jobs != [] && s.worker.None? && s'.jobs == s.jobs[1..] && s'.worker == Some(s.jobs[0])
    requires s'.handed == s.handed && s'.caller == s.caller
    ensures forall u :: Tokens(s', u) == Tokens(s, u)
    ensures Tokens(s, s.jobs[0]) >= 1
  {
    var t := s.jobs[0];
    assert s.jobs == [t] + s.jobs[1..];
    forall u ensures Tokens(s', u) == Tokens(s, u) {
      CountAppend([t], s.jobs[1..], u);
      CountOne(t, u);
    }
    CountAppend([t], s.jobs[1..], t);
    CountOne(t, t);
  }

  lemma TakenJob(s: Store, threshold: nat)
    requires Inv(s, threshold) && Enabled(s, StartJob)
    ensures forall u :: Tokens(Step(s, StartJob, threshold), u) == Tokens(s, u)
    ensures Tokens(s, s.jobs[0]) == 1 && s.caller != Some(s.jobs[0])
  {
    hide ColInv, Claim, Count;
    JobTokens(s, Step(s, StartJob, threshold));
    assert LocalAt(s, s.jobs[0], threshold);
  }

  lemma StartJobKeeps(s: Store, threshold: nat)
    requires Inv(s, threshold) && Enabled(s, StartJob)
    ensures Inv(Step(s, StartJob, threshold), threshold)
  {
    hide Local;
    var t, s' := s.jobs[0], Step(s, StartJob, threshold);
    assert LocalAt(s, t, threshold);
    TakenJob(s, threshold);
    hide Tokens;
    ClaimLocal(s.cols[t], Background, HandsOn(s, t), t.file in s.tables, s.nextGen, threshold);
    PutKeeps(s, t, Claim(s.cols[t], Background, false), s', threshold);
  }

  lemma StartCallerKeeps(s: Store, t: Target, threshold: nat)
    requires Inv(s, threshold) && Enabled(s, StartCaller(t))
    ensures Inv(Step(s, StartCaller(t), threshold), threshold)
  {
    hide ColInv;
    var s' := Step(s, StartCaller(t), threshold);
    assert LocalAt(s, t, threshold);
    assert Tokens(s, t) == 0;
    hide Local;
    ClaimLocal(s.cols[t], Caller, HandsOn(s, t), t.file in s.tables, s.nextGen, threshold);
    PutKeeps(s, t, Claim(s.cols[t], Caller, true), s', threshold);
  }

  /** Hands after `who` lets go of its merge. */
  function Released(h: Hands, who: Owner, tokens: nat): Hands {
    if who == Background then h.(tokens := tokens, worker := false) else h.(tokens := tokens, caller := false)
  }

  lemma CaptureLocal(c: Col, who: Owner, h: Hands, durable: bool, nextGen: nat, next': nat, threshold: nat)
    requires Local(c, h, true, durable, nextGen, threshold) && c.chain.Some? && MergeOf(c, who).Claimed?
    requires threshold > 0 && nextGen <= next' && (h.caller ==> !h.attaching)
    ensures h.tokens == 1
    ensures var d := Capture(c, who, threshold);
            Local(d, if MergeOf(d, who).Idle? then Released(h, who, 0) else h, true, durable, next', threshold)
  {
    hide ColInv;
    CaptureKeeps(c, who, threshold, durable, nextGen);
    LaterGenerations(Capture(c, who, threshold), true, durable, nextGen, next');
    OwnerIsBusy(c, who, durable, nextGen);
  }

  /** When the owner of `t` lets go, only the hands on `t` change. */
  lemma LetGo(s: Store, s': Store, who: Owner, t: Target, handed: bool)
    requires TargetOf(s, who) == Some(t) && Tokens(s, t) == 1
    requires s'.handed == s.handed + AsJob(handed, t) && s'.jobs == s.jobs && s'.attaching == s.attaching
    requires TargetOf(s', who).None? && (if who == Background then s'.caller == s.caller else s'.worker == s.worker)
    ensures HandsOn(s', t) == Released(HandsOn(s, t), who, One(handed))
    ensures forall u :: u != t ==> HandsOn(s', u) == HandsOn(s, u)
  {
    forall u ensures Count(s'.handed, u) == Count(s.handed, u) + One(handed && u == t) {
      CountAppend(s.handed, AsJob(handed, t), u);
      CountOne(t, u);
    }
  }

  lemma CaptureStepKeeps(s: Store, who: Owner, threshold: nat)
    requires Inv(s, threshold) && Enabled(s, CaptureStep(who)) && threshold > 0
    ensures Inv(Step(s, CaptureStep(who), threshold), threshold)
  {
    hide Local;
    var t, s' := TargetOf(s, who).value, Step(s, CaptureStep(who), threshold);
    var c := Capture(s.cols[t], who, threshold);
    assert LocalAt(s, t, threshold);
    CaptureLocal(s.cols[t], who, HandsOn(s, t), t.file in s.tables, s.nextGen, s'.nextGen, threshold);
    if MergeOf(c, who).Idle? {
      assert AsJob(false, t) == [] && s.handed + [] == s.handed;
      LetGo(s, s', who, t, false);
    } else {
      SameHands(s, s');
    }
    hide HandsOn;
    PutKeeps(s, t, c, s', threshold);
  }

  /** The owner of a merge is alone on a busy chain. */
  lemma OwnerIsBusy(c: Col, who: Owner, durable: bool, nextGen: nat)
    requires ColInv(c, true, durable, nextGen) && c.chain.Some? && !MergeOf(c, who).Idle?
    ensures Busy(c) && (c.background.Idle? || c.caller.Idle?)
  {}

  lemma RenameStepKeeps(s: Store, who: Owner, threshold: nat)
    requires Inv(s, threshold) && Enabled(s, RenameStep(who))
    ensures Inv(Step(s, RenameStep(who), threshold), threshold)
  {
    hide ColInv;
    var t, s' := TargetOf(s, who).value, Step(s, RenameStep(who), threshold);
    assert LocalAt(s, t, threshold);
    RenameBaseKeeps(s.cols[t], who, t.file in s.tables, s.nextGen);
    SameHands(s, s');
    hide Tokens;
    PutKeeps(s, t, RenameBase(s.cols[t], who), s', threshold);
  }

  lemma DropStepKeeps(s: Store, who: Owner, threshold: nat)
    requires Inv(s, threshold) && Enabled(s, DropStep(who))
    ensures Inv(Step(s, DropStep(who), threshold), threshold)
  {
    hide ColInv;
    var t, s' := TargetOf(s, who).value, Step(s, DropStep(who), threshold);
    assert LocalAt(s, t, threshold);
    DropPrefixKeeps(s.cols[t], who, t.file in s.tables, s.nextGen);
    SameHands(s, s');
    hide Tokens;
    PutKeeps(s, t, DropPrefix(s.cols[t], who), s', threshold);
  }

  lemma PublishLocal(c: Col, who: Owner, h: Hands, durable: bool, nextGen: nat, threshold: nat)
    requires Local(c, h, true, durable, nextGen, threshold) && c.chain.Some? && AtStage(MergeOf(c, who), Dropped)
    requires threshold > 0
    ensures h.tokens == 1 && PrefixUnchanged(c, who)
    ensures Local(PublishMerge(c, who, threshold), Released(h, who, One(SchedulesNext(c, who, threshold))), true,
        durable, nextGen, threshold)
  {
    hide ColInv;
    PublishMergeKeeps(c, who, threshold, durable, nextGen);
    OwnerIsBusy(c, who, durable, nextGen);
  }

  lemma PublishStepKeeps(s: Store, who: Owner, threshold: nat)
    requires Inv(s, threshold) && Enabled(s, PublishStep(who)) && threshold > 0
    ensures Inv(Step(s, PublishStep(who), threshold), threshold)
  {
    hide Local;
    var t, s' := TargetOf(s, who).value, Step(s, PublishStep(who), threshold);
    assert LocalAt(s, t, threshold);
    PublishLocal(s.cols[t], who, HandsOn(s, t), t.file in s.tables, s.nextGen, threshold);
    LetGo(s, s', who, t, SchedulesNext(s.cols[t], who, threshold));
    hide HandsOn;
    PutKeeps(s, t, PublishMerge(s.cols[t], who, threshold), s', threshold);
  }

  lemma UnlinkStepKeeps(s: Store, t: Target, gen: nat, threshold: nat)
    requires Inv(s, threshold) && Enabled(s, UnlinkStep(t, gen))
    ensures Inv(Step(s, UnlinkStep(t, gen), threshold), threshold)
  {
    hide ColInv, Tokens;
    var s' := Step(s, UnlinkStep(t, gen), threshold);
    assert LocalAt(s, t, threshold);
    UnlinkKeeps(s.cols[t], gen, t.file in s.tables, s.nextGen);
    SameHands(s, s');
    PutKeeps(s, t, Unlink(s.cols[t], gen), s', threshold);
  }

  // ---- Crash and recovery ----

  lemma CrashStepKeeps(s: Store, threshold: nat)
    requires Inv(s, threshold) && Enabled(s, CrashStep)
    ensures Inv(Step(s, CrashStep, threshold), threshold)
  {
    hide ColInv;
    var s' := Step(s, CrashStep, threshold);
    forall t ensures HandsOn(s', t) == NO_HANDS {
      CountOne(t, t);
    }
    hide Tokens;
    forall t | t in s'.cols ensures LocalAt(s', t, threshold) {
      assert LocalAt(s, t, threshold);
      CrashKeeps(s.cols[t], t.file in s.tables, s.nextGen);
    }
  }

  lemma AbandonStepKeeps(s: Store, t: Target, threshold: nat)
    requires Inv(s, threshold) && Enabled(s, AbandonStep(t))
    ensures Inv(Step(s, AbandonStep(t), threshold), threshold)
  {
    hide Local;
    var s' := Step(s, AbandonStep(t), threshold);
    forall u ensures HandsOn(s', u) == NO_HANDS {
      CountOne(u, u);
    }
    hide Tokens;
    SameHands(s, s');
    forall u | u in s'.cols ensures LocalAt(s', u, threshold) {
      assert LocalAt(s, u, threshold);
    }
  }

  lemma ReopenLocal(c: Col, threshold: nat, nextGen: nat, next': nat)
    requires Local(c, NO_HANDS, false, true, nextGen, threshold) && threshold > 0
    requires forall i :: 0 <= i < |c.active| ==> c.active[i].gen < next'
    ensures Local(Reopen(c, threshold), Hands(One(Busy(Reopen(c, threshold))), false, false, false), true, true, next',
        threshold)
  {
    ReopenedColumn(c, threshold, nextGen, next');
    hide ColInv;
  }

  lemma ReopenedHands(s: Store, s': Store, t: Target)
    requires Global(s) && !s.up && Overfull(s', s'.handed)
    requires s' == s.(cols := s'.cols, nextGen := s'.nextGen, up := true, handed := s'.handed)
    ensures HandsOn(s, t) == NO_HANDS
    ensures HandsOn(s', t) == Hands(One(t in s'.cols && Busy(s'.cols[t])), false, false, false)
  {
    CountOne(t, t);
    DistinctCount(s'.handed, t);
  }

  lemma ReopenStepKeeps(s: Store, s': Store, threshold: nat)
    requires Inv(s, threshold) && Reopened(s, s', threshold) && threshold > 0
    ensures Inv(s', threshold)
  {
    hide Local, HandsOn;
    forall t
      ensures HandsOn(s, t) == NO_HANDS
      ensures HandsOn(s', t) == Hands(One(t in s'.cols && Busy(s'.cols[t])), false, false, false) {
      ReopenedHands(s, s', t);
    }
    forall t | t in s'.cols ensures LocalAt(s', t, threshold) {
      assert LocalAt(s, t, threshold);
      ReopenLocal(s.cols[t], threshold, s.nextGen, s'.nextGen);
    }
  }

  lemma ReopenedColumn(c: Col, threshold: nat, nextGen: nat, next': nat)
    requires ColInv(c, false, true, nextGen) && threshold > 0
    requires forall i :: 0 <= i < |c.active| ==> c.active[i].gen < next'
    ensures ColInv(Reopen(c, threshold), true, true, next')
    ensures Kinds(Reopen(c, threshold)) && Eager(Reopen(c, threshold), threshold)
    ensures var d := Reopen(c, threshold); d.background.Idle? && d.caller.Idle? && d.attach.NoAttach?
  {
    ReopenKeeps(c, threshold, nextGen, next');
  }

  lemma {:induction false} DistinctCount(js: seq<Target>, t: Target)
    requires forall i, j :: 0 <= i < j < |js| ==> js[i] != js[j]
    ensures Count(js, t) == One(t in js)
  {
    if js != [] {
      var rest, x := js[..|js|-1], js[|js|-1];
      DistinctCount(rest, t);
      assert js == rest + [x];
      CountAppend(rest, [x], t);
      CountOne(x, t);
    }
  }

  // ---- Every reachable state ----

  /** Every event keeps the invariant. */
  lemma NextKeeps(s: Store, e: Event, s': Store, threshold: nat)
    requires Inv(s, threshold) && Next(s, e, s', threshold) && threshold > 0
    ensures Inv(s', threshold)
  {
    hide Inv;
    match e {
      case AddColumn(t, origin) => AddColumnKeeps(s, t, origin, threshold);
      case WriteTable(file) => WriteTableKeeps(s, file, threshold);
      case BeginAttach(t, batch, persistent) => BeginAttachKeeps(s, t, batch, persistent, threshold);
      case WriteDelta => WriteDeltaKeeps(s, threshold);
      case CommitDelta => CommitDeltaKeeps(s, threshold);
      case PublishDelta => PublishDeltaKeeps(s, threshold);
      case Promote(t, i) => PromoteKeeps(s, t, i, threshold);
      case Mark(t) => MarkKeeps(s, t, threshold);
      case QueueJob(i) => QueueJobKeeps(s, i, threshold);
      case StartJob => StartJobKeeps(s, threshold);
      case RaiseBarrier => BarrierKeeps(s, e, threshold);
      case LowerBarrier => BarrierKeeps(s, e, threshold);
      case StartCaller(t) => StartCallerKeeps(s, t, threshold);
      case CaptureStep(who) => CaptureStepKeeps(s, who, threshold);
      case RenameStep(who) => RenameStepKeeps(s, who, threshold);
      case DropStep(who) => DropStepKeeps(s, who, threshold);
      case PublishStep(who) => PublishStepKeeps(s, who, threshold);
      case UnlinkStep(t, gen) => UnlinkStepKeeps(s, t, gen, threshold);
      case CrashStep => CrashStepKeeps(s, threshold);
      case AbandonStep(t) => AbandonStepKeeps(s, t, threshold);
      case ReopenStep => ReopenStepKeeps(s, s', threshold);
    }
  }

  lemma BarrierKeeps(s: Store, e: Event, threshold: nat)
    requires Inv(s, threshold) && Enabled(s, e) && (e.RaiseBarrier? || e.LowerBarrier?)
    ensures Inv(Step(s, e, threshold), threshold)
  {
    hide Local, Tokens;
    var s' := Step(s, e, threshold);
    SameHands(s, s');
    forall t | t in s'.cols ensures LocalAt(s', t, threshold) {
      assert LocalAt(s, t, threshold);
    }
  }
}
