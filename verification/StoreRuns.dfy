/**
 What holds over whole runs of the delta store: reads are untouched by merging,
 a crash loses nothing that was committed, each chain has one merge owner.
 */
module StoreRuns {
  import opened Records
  import opened DeltaBatch
  import opened ColumnChain
  import opened DeltaStore

  /** Any interleaving of enabled events from the empty store. */
  ghost predicate Run(states: seq<Store>, events: seq<Event>, threshold: nat) {
    && |states| == |events| + 1
    && states[0] == EMPTY
    && forall i :: 0 <= i < |events| ==> Next(states[i], events[i], states[i+1], threshold)
  }

  lemma EmptyInv(threshold: nat)
    ensures Inv(EMPTY, threshold)
  {
    forall t ensures HandsOn(EMPTY, t) == NO_HANDS {
      CountOne(t, t);
    }
  }

  lemma {:induction false} ReachableInv(states: seq<Store>, events: seq<Event>, threshold: nat, i: nat)
    requires Run(states, events, threshold) && threshold > 0 && i < |states|
    ensures Inv(states[i], threshold)
  {
    hide Inv, Next;
    if i == 0 {
      EmptyInv(threshold);
    } else {
      ReachableInv(states, events, threshold, i - 1);
      NextKeeps(states[i-1], events[i-1], states[i], threshold);
    }
  }

  lemma ColumnOk(s: Store, t: Target, threshold: nat)
    requires Inv(s, threshold) && t in s.cols
    ensures ColInv(s.cols[t], s.up, t.file in s.tables, s.nextGen)
  {
    hide ColInv, HandsOn;
    assert LocalAt(s, t, threshold);
  }

  // ---- Merging never changes a read ----

  /** Everything but a publication, a new column, a crash and recovery. */
  predicate Silent(e: Event) {
    !(e.PublishDelta? || e.AddColumn? || e.CrashStep? || e.AbandonStep? || e.ReopenStep?)
  }

  /** Steps of a merge owner. */
  predicate Merges(e: Event) {
    e.StartJob? || e.StartCaller? || e.CaptureStep? || e.RenameStep? || e.DropStep? || e.PublishStep?
  }

  lemma SilentKeepsHistory(s: Store, e: Event, threshold: nat, t: Target)
    requires Enabled(s, e) && Silent(e) && t in s.cols
    ensures t in Step(s, e, threshold).cols
    ensures SameHistory(s.cols[t], Step(s, e, threshold).cols[t])
  {
    if Merges(e) {
      MergeKeepsHistory(s, e, threshold, t);
    } else {
      OthersKeepHistory(s, e, threshold, t);
    }
    hide Step, Enabled, SameHistory;
  }

  lemma MergeKeepsHistory(s: Store, e: Event, threshold: nat, t: Target)
    requires Enabled(s, e) && Merges(e) && t in s.cols
    ensures t in Step(s, e, threshold).cols
    ensures SameHistory(s.cols[t], Step(s, e, threshold).cols[t])
  {
    hide Claim, Capture, RenameBase, DropPrefix, PublishMerge, Abort, SchedulesNext, PrefixUnchanged, SameHistory;
    HistorySelf(s.cols[t]);
  }

  lemma HistorySelf(c: Col)
    ensures SameHistory(c, c)
  {}

  lemma OthersKeepHistory(s: Store, e: Event, threshold: nat, t: Target)
    requires Enabled(s, e) && Silent(e) && !Merges(e) && t in s.cols
    ensures t in Step(s, e, threshold).cols
    ensures SameHistory(s.cols[t], Step(s, e, threshold).cols[t])
  {
    hide OpenAttach, CreateFile, CommitAdd, PromoteEntry, MarkPersistent, Claim, Capture;
    hide RenameBase, DropPrefix, PublishMerge, Unlink, Abort, Follows, Flat;
  }

  /**
   In every reachable state, with deltas attached at any moment of a merge, no
   step of attaching, promoting, scheduling or merging changes what a reader of
   any column sees for any key; only publishing a delta does.
   */
  lemma MergingIsInvisible(s: Store, e: Event, s': Store, threshold: nat, t: Target, k: Key)
    requires Inv(s, threshold) && Next(s, e, s', threshold) && threshold > 0 && s.up
    requires Silent(e) && t in s.cols
    ensures t in s'.cols && Read(s'.cols[t], k) == Read(s.cols[t], k)
  {
    hide Inv, ColInv, Enabled, Step, Read;
    NextKeeps(s, e, s', threshold);
    SilentKeepsHistory(s, e, threshold, t);
    StaysUp(s, e, threshold);
    ColumnOk(s, t, threshold);
    ColumnOk(s', t, threshold);
    ReadIsPublished(s.cols[t], t.file in s.tables, s.nextGen, k);
    ReadIsPublished(s'.cols[t], t.file in s'.tables, s'.nextGen, k);
  }

  lemma StaysUp(s: Store, e: Event, threshold: nat)
    requires Enabled(s, e) && !e.ReopenStep? && !e.CrashStep?
    ensures Step(s, e, threshold).up == s.up
  {}

  lemma PublishedRead(c: Col, durable: bool, nextGen: nat, durable': bool, next': nat, threshold: nat, k: Key)
    requires ColInv(c, true, durable, nextGen) && c.attach.Committed? && c.chain.Some?
    requires ColInv(PublishAdd(c, threshold), true, durable', next')
    ensures Read(PublishAdd(c, threshold), k) ==
      if Last(c.attach.file.records, k).Some? then Some(Last(c.attach.file.records, k).value.value) else Read(c, k)
  {
    hide ColInv, Read, Overlay;
    var d := PublishAdd(c, threshold);
    ReadIsPublished(c, durable, nextGen, k);
    ReadIsPublished(d, durable', next', k);
    OverlayCell(c.origin, c.published, k);
    OverlayCell(c.origin, d.published, k);
    LastAppend(c.published, c.attach.file.records, k);
  }

  lemma PublishedColumn(s: Store, threshold: nat)
    requires Enabled(s, PublishDelta)
    ensures var s', t := Step(s, PublishDelta, threshold), s.attaching.value;
            t in s.cols && t in s'.cols && s'.cols[t] == PublishAdd(s.cols[t], threshold) && s'.up
  {
    hide PublishAdd;
  }

  /** Publishing a delta makes exactly its records visible: the last write of each key it holds. */
  lemma PublishingShowsTheBatch(s: Store, threshold: nat, k: Key)
    requires Inv(s, threshold) && threshold > 0 && Enabled(s, PublishDelta)
    ensures var c, file := s.cols[s.attaching.value], AttachPhase(s).file;
            Read(Step(s, PublishDelta, threshold).cols[s.attaching.value], k) ==
              if Last(file.records, k).Some? then Some(Last(file.records, k).value.value) else Read(c, k)
  {
    var t, s' := s.attaching.value, Step(s, PublishDelta, threshold);
    hide ColInv, Inv, Read, Step;
    var c := s.cols[t];
    PublishedColumn(s, threshold);
    NextKeeps(s, PublishDelta, s', threshold);
    ColumnOk(s, t, threshold);
    ColumnOk(s', t, threshold);
    PublishedRead(c, t.file in s.tables, s.nextGen, t.file in s'.tables, s'.nextGen, threshold, k);
  }

  // ---- A crash loses nothing committed ----

  /** Steps of a store that is down, up to the one that opens it again. */
  ghost predicate Path(path: seq<Store>, events: seq<Event>, threshold: nat) {
    && |path| == |events| + 1 && |events| > 0
    && (forall i :: 0 <= i < |events| ==> Next(path[i], events[i], path[i+1], threshold))
    && (forall i :: 0 <= i < |events| ==> !path[i].up)
    && path[|events|].up
  }

  /** From a crash through the repairs recovery makes, to the store open again. */
  ghost predicate Recovery(s: Store, path: seq<Store>, events: seq<Event>, threshold: nat) {
    s.up && Path(path, events, threshold) && path[0] == Step(s, CrashStep, threshold)
  }

  /** What survives of a durable column while the store is down. */
  ghost predicate Survives(s: Store, d: Store, t: Target)
    requires t in s.cols
  {
    t in d.cols && d.cols[t].origin == s.cols[t].origin && d.cols[t].committed == s.cols[t].committed
  }

  lemma {:induction false} DownPath(s: Store, path: seq<Store>, events: seq<Event>, threshold: nat, t: Target, i: nat)
    requires Inv(s, threshold) && threshold > 0 && Recovery(s, path, events, threshold)
    requires t in s.cols && t.file in s.tables && i < |path|
    ensures Inv(path[i], threshold) && path[i].tables == s.tables && Survives(s, path[i], t)
  {
    hide Inv, Next;
    if i == 0 {
      NextKeepsCrash(s, threshold);
      assert path[0].cols[t] == Crash(s.cols[t]);
    } else {
      DownPath(s, path, events, threshold, t, i - 1);
      assert Next(path[i-1], events[i-1], path[i], threshold);
      NextKeeps(path[i-1], events[i-1], path[i], threshold);
      DownStep(path[i-1], events[i-1], path[i], threshold, t);
    }
  }

  lemma NextKeepsCrash(s: Store, threshold: nat)
    requires Inv(s, threshold) && s.up
    ensures Inv(Step(s, CrashStep, threshold), threshold)
  {
    CrashStepKeeps(s, threshold);
  }

  lemma DownStep(s: Store, e: Event, s': Store, threshold: nat, t: Target)
    requires !s.up && Inv(s, threshold) && Next(s, e, s', threshold) && t in s.cols && t.file in s.tables
    ensures s'.tables == s.tables && Survives(s, s', t)
  {
    hide Flat, Overlay, Without, SortByGen, Locals;
    assert AttachPhase(s).NoAttach?;
    assert forall who :: MergePhase(s, who).Idle?;
    assert e.Promote? || e.AbandonStep? || e.ReopenStep?;
  }

  /**
   Crash after any step of any attachment or merge, then recover: every column
   of a durable table reads exactly what the deltas committed to the manifest
   give over the base column that was on disk, which is every committed record
   over the original values. A merge that had already replaced the base is
   replayed without effect.
   */
  lemma CrashLosesNothingCommitted(s: Store, path: seq<Store>, events: seq<Event>, threshold: nat, t: Target, k: Key)
    requires Inv(s, threshold) && threshold > 0 && Recovery(s, path, events, threshold)
    requires t in s.cols && t.file in s.tables
    ensures var c, r := s.cols[t], path[|events|];
            && Openable(c) && t in r.cols
            && Read(r.cols[t], k) == ViewRead(c.stored, Flat(Listed(c)), k)
            && Read(r.cols[t], k) == Cell(Overlay(c.origin, c.committed), k)
  {
    hide Read, Inv, Next, ColInv;
    var c, r, n := s.cols[t], path[|events|], |events|;
    DownPath(s, path, events, threshold, t, n);
    DownPath(s, path, events, threshold, t, n - 1);
    ReopenedPublished(path[n-1], events[n-1], r, threshold, t);
    ColumnOk(s, t, threshold);
    ColumnOk(r, t, threshold);
    ReadIsPublished(r.cols[t], t.file in r.tables, r.nextGen, k);
    DiskHoldsCommitted(c, true, s.nextGen);
    OrderedViewIsOverlay(c.stored, Flat(Listed(c)), k);
  }

  lemma ReopenedPublished(s: Store, e: Event, r: Store, threshold: nat, t: Target)
    requires Inv(s, threshold) && !s.up && r.up && Next(s, e, r, threshold) && t in s.cols && t in r.cols
    ensures r.cols[t].published == r.cols[t].committed == s.cols[t].committed
  {
    hide ColInv, HandsOn;
    if !e.ReopenStep? {
      StaysUp(s, e, threshold);
    }
    assert LocalAt(s, t, threshold);
    DownIsQuiet(s.cols[t], t.file in s.tables, s.nextGen);
  }

  lemma DownIsQuiet(c: Col, durable: bool, nextGen: nat)
    requires ColInv(c, false, durable, nextGen)
    ensures c.published == c.committed
  {}

  // ---- Recovery is always possible ----

  lemma DurableOpens(s: Store, t: Target, threshold: nat)
    requires Inv(s, threshold) && !s.up && t in s.cols
    ensures Openable(s.cols[t])
  {
    hide HandsOn, Flat, Overlay, Ordered;
    assert LocalAt(s, t, threshold);
  }

  /** Targets of a finite set, each once. */
  lemma {:induction false} ListOf(ts: set<Target>) returns (js: seq<Target>)
    ensures (forall i, j :: 0 <= i < j < |js| ==> js[i] != js[j]) && forall t :: t in js <==> t in ts
    decreases |ts|
  {
    if ts == {} {
      js := [];
    } else {
      var t :| t in ts;
      js := ListOf(ts - {t});
      js := js + [t];
    }
  }

  /** A generation above everything the manifest names. */
  lemma {:induction false} GenerationAbove(cols: map<Target, Col>, ts: set<Target>) returns (g: nat)
    requires ts <= cols.Keys
    ensures g > 0 && forall t, i :: t in ts && 0 <= i < |cols[t].active| ==> cols[t].active[i].gen < g
    decreases |ts|
  {
    if ts == {} {
      g := 1;
    } else {
      var t :| t in ts;
      var a := GenerationAbove(cols, ts - {t});
      var b := EntriesBelow(cols[t].active);
      g := if a < b then b else a;
    }
  }

  lemma {:induction false} EntriesBelow(es: seq<Entry>) returns (g: nat)
    ensures forall i :: 0 <= i < |es| ==> es[i].gen < g
  {
    if es == [] {
      g := 0;
    } else {
      var n := |es| - 1;
      g := EntriesBelow(es[..n]);
      if g <= es[n].gen {
        g := es[n].gen + 1;
      }
    }
  }

  /** With only durable tables left, the store opens. */
  lemma ReopenExists(s: Store, threshold: nat) returns (s': Store)
    requires Inv(s, threshold) && threshold > 0 && !s.up && forall t :: t in s.cols ==> t.file in s.tables
    ensures Reopened(s, s', threshold) && s'.up
  {
    hide Inv, Reopen;
    forall t | t in s.cols ensures Openable(s.cols[t]) {
      DurableOpens(s, t, threshold);
    }
    var cols := map t | t in s.cols :: Reopen(s.cols[t], threshold);
    var js := ListOf(set t | t in cols && Busy(cols[t]));
    var g := GenerationAbove(s.cols, s.cols.Keys);
    s' := s.(cols := cols, nextGen := g, up := true, handed := js);
  }

  /** Columns whose table never reached the disk; recovery drops them one by one. */
  function Doomed(s: Store): set<Target> {
    set t | t in s.cols && t.file !in s.tables
  }

  lemma {:induction false} DownReopens(s: Store, threshold: nat) returns (path: seq<Store>, events: seq<Event>)
    requires Inv(s, threshold) && threshold > 0 && !s.up
    ensures Path(path, events, threshold) && path[0] == s
    decreases |Doomed(s)|
  {
    hide Inv, Step;
    if t :| t in Doomed(s) {
      var s1 := Step(s, AbandonStep(t), threshold);
      AbandonStepKeeps(s, t, threshold);
      Abandoned(s, t, threshold);
      var path1, events1 := DownReopens(s1, threshold);
      path, events := [s] + path1, [AbandonStep(t)] + events1;
      hide Next;
      forall i | 0 <= i < |events| ensures Next(path[i], events[i], path[i+1], threshold) && !path[i].up {
        if i == 0 {
          assert path[1] == s1;
        } else {
          assert path[i] == path1[i-1] && path[i+1] == path1[i] && events[i] == events1[i-1];
        }
      }
    } else {
      forall u | u in s.cols ensures u.file in s.tables {
        assert u !in Doomed(s);
      }
      var s' := ReopenExists(s, threshold);
      path, events := [s, s'], [ReopenStep];
    }
  }

  lemma Abandoned(s: Store, t: Target, threshold: nat)
    requires !s.up && t in Doomed(s)
    ensures Next(s, AbandonStep(t), Step(s, AbandonStep(t), threshold), threshold)
    ensures !Step(s, AbandonStep(t), threshold).up
    ensures |Doomed(Step(s, AbandonStep(t), threshold))| < |Doomed(s)|
  {
    assert Doomed(Step(s, AbandonStep(t), threshold)) == Doomed(s) - {t};
  }

  /** After a crash at any moment there is a way to recover. */
  lemma RecoveryExists(s: Store, threshold: nat)
    requires Inv(s, threshold) && threshold > 0 && s.up
    ensures exists path, events :: Recovery(s, path, events, threshold)
  {
    hide Inv, Next;
    NextKeepsCrash(s, threshold);
    var d := Step(s, CrashStep, threshold);
    var path, events := DownReopens(d, threshold);
    assert Recovery(s, path, events, threshold);
  }

  // ---- One merge owner per chain ----

  /**
   In every reachable state at most one job or thread owns the merge of a chain,
   and a publisher always finds the prefix it captured, so neither prefix check fails.
   */
  lemma OneMergeOwner(states: seq<Store>, events: seq<Event>, threshold: nat, i: nat, t: Target)
    requires Run(states, events, threshold) && threshold > 0 && i < |states|
    ensures Tokens(states[i], t) <= 1
    ensures Tokens(states[i], t) == 1 <==> t in states[i].cols && Busy(states[i].cols[t])
    ensures forall who :: AtStage(MergePhase(states[i], who), Dropped) ==>
        PrefixUnchanged(states[i].cols[TargetOf(states[i], who).value], who)
  {
    var s := states[i];
    ReachableInv(states, events, threshold, i);
    hide ColInv;
    if t in s.cols {
      assert LocalAt(s, t, threshold);
      assert HandsOn(s, t).tokens == One(Busy(s.cols[t]));
    } else {
      assert HandsOn(s, t) == NO_HANDS;
    }
    forall who | AtStage(MergePhase(s, who), Dropped)
      ensures PrefixUnchanged(s.cols[TargetOf(s, who).value], who)
    {
      var u := TargetOf(s, who).value;
      assert LocalAt(s, u, threshold);
      PublishMergeKeeps(s.cols[u], who, threshold, u.file in s.tables, s.nextGen);
    }
  }

  /** No merge is queued or running and nobody is attaching. */
  predicate AllIdle(s: Store) {
    s.up && s.handed == [] && s.jobs == [] && s.worker.None? && s.caller.None? && s.attaching.None?
  }

  /** An idle store has fewer than threshold deltas on every chain of a durable table. */
  lemma PersistentBelow(states: seq<Store>, events: seq<Event>, threshold: nat, i: nat, t: Target)
    requires Run(states, events, threshold) && threshold > 0 && i < |states|
    requires AllIdle(states[i]) && t in states[i].cols
    requires states[i].cols[t].chain.Some? && states[i].cols[t].chain.value.persistent
    ensures |Deltas(states[i].cols[t])| < threshold
  {
    var s := states[i];
    ReachableInv(states, events, threshold, i);
    hide ColInv;
    assert LocalAt(s, t, threshold);
    CountOne(t, t);
    assert Tokens(s, t) == 0;
  }

  /**
   The synchronous merge runs behind the barrier that keeps attachments out, so what
   it captured is still the whole chain when it publishes, and the chain ends empty.
   */
  lemma SynchronousMergeEmptiesChain(states: seq<Store>, events: seq<Event>, threshold: nat, i: nat)
    requires Run(states, events, threshold) && threshold > 0 && i < |events| && events[i] == PublishStep(Caller)
    ensures states[i].caller.Some? && states[i].caller.value in states[i+1].cols
    ensures Deltas(states[i+1].cols[states[i].caller.value]) == []
  {
    hide ColInv, Flat, Overlay;
    var s := states[i];
    ReachableInv(states, events, threshold, i);
    assert Next(s, events[i], states[i+1], threshold);
    var t := s.caller.value;
    assert LocalAt(s, t, threshold);
    PublishMergeKeeps(s.cols[t], Caller, threshold, t.file in s.tables, s.nextGen);
  }

  // ---- What a silent step does to the chains ----

  lemma StepKeys(s: Store, e: Event, threshold: nat)
    requires Enabled(s, e) && Silent(e) && !e.BeginAttach?
    ensures Step(s, e, threshold).cols.Keys == s.cols.Keys && Step(s, e, threshold).attaching == s.attaching
  {
    hide OpenAttach, CreateFile, CommitAdd, PromoteEntry, MarkPersistent, Claim, Capture;
    hide RenameBase, DropPrefix, PublishMerge, Unlink, Abort, Follows, Flat;
  }

  /** Everything but publishing a merge leaves the deltas alone; that drops a prefix. */
  lemma SilentSettles(s: Store, e: Event, threshold: nat, t: Target)
    requires Enabled(s, e) && Silent(e) && !e.BeginAttach? && t in s.cols && t in Step(s, e, threshold).cols
    ensures Settles(s.cols[t], Step(s, e, threshold).cols[t])
  {
    var c := s.cols[t];
    if e.PublishStep? && TargetOf(s, e.who) == Some(t) {
      PublishMergeSettles(c, e.who, threshold);
      hide PublishMerge, Abort, Settles;
    } else {
      hide Settles, SameChain, Step, Enabled;
      OthersSettle(s, e, threshold, t);
      SettlesSame(c, Step(s, e, threshold).cols[t]);
    }
  }

  lemma SettlesSame(c: Col, d: Col)
    requires SameChain(c, d)
    ensures Settles(c, d)
  {}

  lemma PublishMergeSettles(c: Col, who: Owner, threshold: nat)
    requires MergeOf(c, who).Running?
    ensures PrefixUnchanged(c, who) ==> Settles(c, PublishMerge(c, who, threshold))
    ensures Settles(c, Abort(c, who))
  {
    hide Flat, Overlay, FileRecords;
  }

  predicate SameChain(c: Col, d: Col) {
    Deltas(d) == Deltas(c) && NewRecords(d.attach) == NewRecords(c.attach)
  }

  lemma AttachSame(c: Col, gen: nat)
    ensures c.attach.Opened? ==> SameChain(c, CreateFile(c, gen))
    ensures c.attach.Created? && c.chain.Some? ==> SameChain(c, CommitAdd(c))
  {
    hide FileRecords;
  }

  lemma MarksSame(c: Col, i: nat, gen: nat, threshold: nat)
    ensures i < |c.active| ==> SameChain(c, PromoteEntry(c, i))
    ensures SameChain(c, MarkPersistent(c, threshold)) && SameChain(c, Unlink(c, gen))
  {
    hide FileRecords;
  }

  lemma MergeSame(c: Col, who: Owner, all: bool, threshold: nat)
    ensures c.chain.Some? ==> SameChain(c, Claim(c, who, all))
    ensures c.chain.Some? && MergeOf(c, who).Claimed? ==> SameChain(c, Capture(c, who, threshold))
    ensures MergeOf(c, who).Running? ==> SameChain(c, RenameBase(c, who)) && SameChain(c, DropPrefix(c, who))
  {
    hide FileRecords, Flat, Overlay, Without;
  }

  lemma OthersSettle(s: Store, e: Event, threshold: nat, t: Target)
    requires Enabled(s, e) && Silent(e) && !e.BeginAttach? && t in s.cols && t in Step(s, e, threshold).cols
    requires !(e.PublishStep? && TargetOf(s, e.who) == Some(t))
    ensures SameChain(s.cols[t], Step(s, e, threshold).cols[t])
  {
    if Merges(e) {
      MergeSettles(s, e, threshold, t);
    } else {
      AttachSettles(s, e, threshold, t);
    }
    hide Step, Enabled, SameChain;
  }

  lemma MergeSettles(s: Store, e: Event, threshold: nat, t: Target)
    requires Enabled(s, e) && Merges(e) && t in s.cols && t in Step(s, e, threshold).cols
    requires !(e.PublishStep? && TargetOf(s, e.who) == Some(t))
    ensures SameChain(s.cols[t], Step(s, e, threshold).cols[t])
  {
    hide Claim, Capture, RenameBase, DropPrefix, PublishMerge, Abort, Flat, SameChain;
    var c := s.cols[t];
    ChainSelf(c);
    match e {
      case StartJob => MergeSame(c, Background, false, threshold);
      case StartCaller(_) => MergeSame(c, Caller, true, threshold);
      case CaptureStep(who) => MergeSame(c, who, true, threshold);
      case RenameStep(who) => MergeSame(c, who, true, threshold);
      case DropStep(who) => MergeSame(c, who, true, threshold);
      case _ =>
    }
  }

  lemma AttachSettles(s: Store, e: Event, threshold: nat, t: Target)
    requires Enabled(s, e) && Silent(e) && !Merges(e) && !e.BeginAttach?
    requires t in s.cols && t in Step(s, e, threshold).cols
    ensures SameChain(s.cols[t], Step(s, e, threshold).cols[t])
  {
    hide CreateFile, CommitAdd, PromoteEntry, MarkPersistent, Unlink, Follows, Flat, SameChain;
    var c := s.cols[t];
    ChainSelf(c);
    AttachSame(c, s.nextGen);
    match e {
      case Promote(_, i) => MarksSame(c, i, 0, threshold);
      case Mark(_) => MarksSame(c, 0, 0, threshold);
      case UnlinkStep(_, gen) => MarksSame(c, 0, gen, threshold);
      case _ =>
    }
  }

  lemma ChainSelf(c: Col)
    ensures SameChain(c, c)
  {}

  lemma {:induction false} SettledRecords(c: Col, d: Col, r: Record)
    requires Settles(c, d) && r in Flat(Deltas(d))
    ensures r in Flat(Deltas(c))
  {
    FlatSplit(Deltas(c), |Deltas(c)| - |Deltas(d)|);
  }
}
