/**
 Which chains may be merged: being told that a table is durable is remembered until
 the next crash, and whatever the store was told about is merged down in time. No
 delta file is left behind on disk that nothing refers to.
 */
module StoreMarks {
  import opened Records
  import opened DeltaBatch
  import opened ColumnChain
  import opened DeltaStore
  import opened StoreRuns

  predicate Persistent(s: Store, t: Target) {
    t in s.cols && s.cols[t].chain.Some? ==> s.cols[t].chain.value.persistent
  }

  /** The store was told that the base of `t` is durable. */
  predicate Tells(e: Event, s': Store, t: Target) {
    || e == Mark(t)
    || (e.BeginAttach? && e.t == t && e.persistent)
    || (e.ReopenStep? && t in s'.cols && s'.cols[t].chain.Some?)
  }

  /** It will not forget: either the file is remembered or the chain is there and marked. */
  predicate Remembers(s: Store, t: Target) {
    && t in s.cols && Persistent(s, t)
    && (t.file in s.marked || s.cols[t].chain.Some?)
  }

  lemma TellingMarks(s: Store, e: Event, s': Store, threshold: nat, t: Target)
    requires Next(s, e, s', threshold) && Tells(e, s', t)
    ensures Remembers(s', t)
  {
    hide Flat, Follows, SortByGen, Listed, Overlay;
  }

  /** No other step of one column takes the mark away or the chain. */
  predicate KeepsMark(c: Col, d: Col) {
    c.chain.Some? ==> d.chain.Some? && (c.chain.value.persistent ==> d.chain.value.persistent)
  }

  lemma AttachMarks(c: Col, batch: seq<Record>, persistent: bool, gen: nat, i: nat, threshold: nat)
    ensures KeepsMark(c, OpenAttach(c, batch, persistent)) && OpenAttach(c, batch, persistent).chain.Some?
    ensures persistent ==> OpenAttach(c, batch, persistent).chain.value.persistent
    ensures c.attach.Opened? ==> KeepsMark(c, CreateFile(c, gen)) && CreateFile(c, gen).chain == c.chain
    ensures c.attach.Created? && c.chain.Some? ==> KeepsMark(c, CommitAdd(c))
    ensures c.attach.Committed? && c.chain.Some? ==> KeepsMark(c, PublishAdd(c, threshold))
    ensures i < |c.active| ==> KeepsMark(c, PromoteEntry(c, i)) && PromoteEntry(c, i).chain == c.chain
    ensures KeepsMark(c, MarkPersistent(c, threshold)) && KeepsMark(c, Unlink(c, gen))
    ensures Unlink(c, gen).chain == c.chain
    ensures MarkPersistent(c, threshold).chain.None? <==> c.chain.None?
  {
    hide FileRecords;
  }

  lemma MergeMarks(c: Col, who: Owner, all: bool, threshold: nat)
    requires c.chain.Some?
    ensures KeepsMark(c, Claim(c, who, all))
    ensures MergeOf(c, who).Claimed? ==> KeepsMark(c, Capture(c, who, threshold))
    ensures MergeOf(c, who).Running? ==> KeepsMark(c, RenameBase(c, who)) && KeepsMark(c, DropPrefix(c, who))
    ensures MergeOf(c, who).Running? ==> KeepsMark(c, Abort(c, who))
    ensures MergeOf(c, who).Running? && PrefixUnchanged(c, who) ==> KeepsMark(c, PublishMerge(c, who, threshold))
  {
    hide Flat, Overlay, Without;
  }

  // ---- What an event does to its column ----

  /** The column an event works on. */
  function Subject(s: Store, e: Event): Option<Target> {
    match e
    case AddColumn(t, _) => Some(t)
    case WriteTable(_) => None
    case BeginAttach(t, _, _) => Some(t)
    case WriteDelta => s.attaching
    case CommitDelta => s.attaching
    case PublishDelta => s.attaching
    case Promote(t, _) => Some(t)
    case Mark(t) => Some(t)
    case QueueJob(_) => None
    case StartJob => if s.jobs == [] then None else Some(s.jobs[0])
    case RaiseBarrier => None
    case LowerBarrier => None
    case StartCaller(t) => Some(t)
    case CaptureStep(who) => TargetOf(s, who)
    case RenameStep(who) => TargetOf(s, who)
    case DropStep(who) => TargetOf(s, who)
    case PublishStep(who) => TargetOf(s, who)
    case UnlinkStep(t, _) => Some(t)
    case CrashStep => None
    case AbandonStep(t) => Some(t)
    case ReopenStep => None
  }

  ghost predicate MergeEffect(c: Col, e: Event, d: Col, threshold: nat) {
    match e
    case StartJob => c.chain.Some? && d == Claim(c, Background, false)
    case StartCaller(_) => c.chain.Some? && !Busy(c) && d == Claim(c, Caller, true)
    case CaptureStep(who) => c.chain.Some? && MergeOf(c, who).Claimed? && d == Capture(c, who, threshold)
    case RenameStep(who) => c.chain.Some? && AtStage(MergeOf(c, who), Taken) && d == RenameBase(c, who)
    case DropStep(who) => c.chain.Some? && AtStage(MergeOf(c, who), Renamed) && d == DropPrefix(c, who)
    case PublishStep(who) =>
      && c.chain.Some? && AtStage(MergeOf(c, who), Dropped)
      && d == if PrefixUnchanged(c, who) then PublishMerge(c, who, threshold) else Abort(c, who)
    case _ => false
  }

  ghost predicate OtherEffect(s: Store, c: Col, e: Event, d: Col, threshold: nat) {
    match e
    case BeginAttach(t, batch, persistent) =>
      s.attaching.None? && d == OpenAttach(c, batch, persistent || t.file in s.marked)
    case WriteDelta => c.attach.Opened? && d == CreateFile(c, s.nextGen)
    case CommitDelta => c.attach.Created? && c.chain.Some? && d == CommitAdd(c)
    case PublishDelta => c.attach.Committed? && c.chain.Some? && d == PublishAdd(c, threshold)
    case Promote(_, i) => i < |c.active| && d == PromoteEntry(c, i)
    case Mark(_) => d == MarkPersistent(c, threshold)
    case UnlinkStep(_, gen) => d == Unlink(c, gen)
    case _ => false
  }

  /** A merge step changes its subject as the column's own function says, and no other column. */
  lemma MergeChanges(s: Store, e: Event, threshold: nat)
    requires Enabled(s, e) && Merges(e)
    ensures Subject(s, e).Some? && Subject(s, e).value in s.cols && s.up && Step(s, e, threshold).up
    ensures var t, s' := Subject(s, e).value, Step(s, e, threshold);
            && t in s'.cols && s'.cols == s.cols[t := s'.cols[t]] && s'.marked == s.marked
            && MergeEffect(s.cols[t], e, s'.cols[t], threshold)
  {
    hide Claim, Capture, RenameBase, DropPrefix, PublishMerge, Abort, SchedulesNext, PrefixUnchanged;
  }

  /** Steps that create no column, change one or none, and leave the store up. */
  predicate Plain(e: Event) {
    !Merges(e) && !e.AddColumn? && !e.CrashStep? && !e.AbandonStep? && !e.ReopenStep?
  }

  lemma OtherChanges(s: Store, e: Event, threshold: nat)
    requires Enabled(s, e) && Plain(e) && s.up
    ensures var s' := Step(s, e, threshold);
            s'.up && s.marked <= s'.marked && (e.Mark? ==> e.t.file in s'.marked)
    ensures Subject(s, e).None? ==> Step(s, e, threshold).cols == s.cols
    ensures Subject(s, e).Some? ==>
      && Subject(s, e).value in s.cols
      && var t, s' := Subject(s, e).value, Step(s, e, threshold);
      && t in s'.cols && s'.cols == s.cols[t := s'.cols[t]] && OtherEffect(s, s.cols[t], e, s'.cols[t], threshold)
  {
    hide OpenAttach, CreateFile, CommitAdd, PublishAdd, PromoteEntry, MarkPersistent, Unlink, Follows, Flat;
    hide SchedulesOnAttach, SchedulesOnMark;
  }

  // ---- Marks ----

  lemma MergeKeepsMark(c: Col, e: Event, d: Col, threshold: nat)
    requires MergeEffect(c, e, d, threshold)
    ensures KeepsMark(c, d) && c.chain.Some? && d.chain.Some?
  {
    hide Claim, Capture, RenameBase, DropPrefix, PublishMerge, Abort, PrefixUnchanged;
    match e {
      case StartJob => MergeMarks(c, Background, false, threshold);
      case StartCaller(_) => MergeMarks(c, Caller, true, threshold);
      case CaptureStep(who) => MergeMarks(c, who, true, threshold);
      case RenameStep(who) => MergeMarks(c, who, true, threshold);
      case DropStep(who) => MergeMarks(c, who, true, threshold);
      case PublishStep(who) => MergeMarks(c, who, true, threshold);
    }
  }

  lemma OtherKeepsMark(s: Store, c: Col, e: Event, d: Col, threshold: nat)
    requires OtherEffect(s, c, e, d, threshold)
    ensures KeepsMark(c, d)
    ensures c.chain.None? && d.chain.Some? ==> e.BeginAttach? && (e.t.file in s.marked ==> d.chain.value.persistent)
  {
    hide OpenAttach, CreateFile, CommitAdd, PublishAdd, PromoteEntry, MarkPersistent, Unlink;
    AttachMarks(c, if e.BeginAttach? then e.batch else [], e.BeginAttach? && (e.persistent || e.t.file in s.marked),
                if e.UnlinkStep? then e.gen else s.nextGen, if e.Promote? then e.i else 0, threshold);
  }

  lemma MergeRemembers(s: Store, e: Event, threshold: nat, t: Target)
    requires Enabled(s, e) && Merges(e) && Remembers(s, t)
    ensures Remembers(Step(s, e, threshold), t)
  {
    hide Step, Enabled, MergeEffect;
    MergeChanges(s, e, threshold);
    var u := Subject(s, e).value;
    MergeKeepsMark(s.cols[u], e, Step(s, e, threshold).cols[u], threshold);
  }

  lemma OtherRemembers(s: Store, e: Event, threshold: nat, t: Target)
    requires Enabled(s, e) && s.up && !e.CrashStep? && !Merges(e) && Remembers(s, t)
    ensures !e.ReopenStep? && Remembers(Step(s, e, threshold), t)
  {
    if e.AddColumn? {
      assert e.t != t;
    } else {
      assert Plain(e);
      OtherChanges(s, e, threshold);
      hide Step, Enabled, OtherEffect;
      if Subject(s, e) == Some(t) {
        OtherKeepsMark(s, s.cols[t], e, Step(s, e, threshold).cols[t], threshold);
      }
    }
  }

  lemma StillRemembers(s: Store, e: Event, s': Store, threshold: nat, t: Target)
    requires s.up && Next(s, e, s', threshold) && !e.CrashStep? && Remembers(s, t)
    ensures Remembers(s', t) && s'.up
  {
    if Merges(e) {
      MergeRemembers(s, e, threshold, t);
    } else {
      OtherRemembers(s, e, threshold, t);
    }
    hide Remembers;
    StaysUp(s, e, threshold);
  }

  /** Event `i` told the store that the base of `t` is durable, and no crash came between that and state `j`. */
  ghost predicate ToldSince(states: seq<Store>, events: seq<Event>, t: Target, i: nat, j: nat) {
    && i < j < |states| && j <= |events| && Tells(events[i], states[i+1], t)
    && forall k :: i < k < j ==> !events[k].CrashStep?
  }

  /**
   In every run: once the store was told that a table is durable, by a mark, by an
   attachment or by recovery, every chain of that target is persistent until a crash.
   */
  lemma {:induction false} ToldIsPersistent(states: seq<Store>, events: seq<Event>, threshold: nat, t: Target, i: nat,
                                            j: nat)
    requires Run(states, events, threshold) && threshold > 0 && ToldSince(states, events, t, i, j)
    ensures states[j].up && Remembers(states[j], t)
    decreases j
  {
    hide Next, Remembers, Tells;
    assert Next(states[j-1], events[j-1], states[j], threshold);
    if j == i + 1 {
      TellingMarks(states[i], events[i], states[j], threshold, t);
      TellsUp(states[i], events[i], states[j], threshold, t);
    } else {
      ToldIsPersistent(states, events, threshold, t, i, j - 1);
      StillRemembers(states[j-1], events[j-1], states[j], threshold, t);
    }
  }

  lemma TellsUp(s: Store, e: Event, s': Store, threshold: nat, t: Target)
    requires Next(s, e, s', threshold) && Tells(e, s', t)
    ensures s'.up
  {
    hide OpenAttach, MarkPersistent, Flat, Follows;
  }

  /** Without further work to do, every chain the store was told about is below the threshold. */
  lemma IdleBelowThreshold(states: seq<Store>, events: seq<Event>, threshold: nat, t: Target, i: nat, j: nat)
    requires Run(states, events, threshold) && threshold > 0 && ToldSince(states, events, t, i, j)
    requires AllIdle(states[j])
    ensures t in states[j].cols && |Deltas(states[j].cols[t])| < threshold
  {
    ToldIsPersistent(states, events, threshold, t, i, j);
    var s := states[j];
    if s.cols[t].chain.Some? {
      PersistentBelow(states, events, threshold, j, t);
    }
  }

  // ---- No file is forgotten ----

  ghost predicate NamedIn(ds: seq<DeltaFile>, g: nat) {
    exists i :: 0 <= i < |ds| && ds[i].gen == g
  }

  ghost predicate Listed(active: seq<Entry>, g: nat) {
    exists i :: 0 <= i < |active| && active[i].gen == g
  }

  /** Files a merge took out of the manifest and has not handed to its readers' last one yet. */
  function Dropping(c: Col): seq<DeltaFile> {
    if Current(c).Running? && Current(c).stage == Dropped then Current(c).batch else []
  }

  /** Someone will use the file or remove it. */
  ghost predicate Referred(c: Col, g: nat) {
    Listed(c.active, g) || g in c.obsolete || NamedIn(NewFile(c.attach), g) || NamedIn(Dropping(c), g)
  }

  ghost predicate Tidy(c: Col) {
    forall g :: g in c.files ==> Referred(c, g)
  }

  lemma AttachTidy(c: Col, batch: seq<Record>, persistent: bool, gen: nat, i: nat, threshold: nat)
    requires Tidy(c)
    ensures c.attach.NoAttach? ==> Tidy(OpenAttach(c, batch, persistent))
    ensures c.attach.Opened? ==> Tidy(CreateFile(c, gen))
    ensures i < |c.active| ==> Tidy(PromoteEntry(c, i))
    ensures Tidy(MarkPersistent(c, threshold)) && Tidy(Unlink(c, gen))
  {
    hide FileRecords;
    if c.attach.Opened? {
      var d := CreateFile(c, gen);
      assert NewFile(d.attach)[0].gen == gen;
      forall g | g in d.files ensures Referred(d, g) {
        assert g in c.files || g == gen;
      }
    }
    if i < |c.active| {
      var d := PromoteEntry(c, i);
      forall g | g in d.files ensures Referred(d, g) {
        if Listed(c.active, g) {
          var k :| 0 <= k < |c.active| && c.active[k].gen == g;
          assert d.active[k].gen == g;
        }
      }
    }
  }

  lemma CommitTidy(c: Col)
    requires Tidy(c) && c.attach.Created? && c.chain.Some?
    ensures Tidy(CommitAdd(c))
  {
    var d := CommitAdd(c);
    forall g | g in d.files ensures Referred(d, g) {
      ListedMore(c.active, d.active, g);
    }
  }

  lemma ListedMore(a: seq<Entry>, b: seq<Entry>, g: nat)
    requires a <= b
    ensures Listed(a, g) ==> Listed(b, g)
  {
    if Listed(a, g) {
      var k :| 0 <= k < |a| && a[k].gen == g;
      assert b[k].gen == g;
    }
  }

  /** The published file is in the manifest. */
  lemma PublishTidy(c: Col, threshold: nat, durable: bool, nextGen: nat)
    requires Tidy(c) && c.attach.Committed? && c.chain.Some? && ColInv(c, true, durable, nextGen)
    ensures Tidy(PublishAdd(c, threshold))
  {
    hide Ordered, Flat, History, Generations, Overlay;
    var d := PublishAdd(c, threshold);
    var live := c.chain.value.view.deltas[Gone(Current(c))..] + Tail(c.attach);
    assert live[|live|-1] == c.attach.file;
    assert c.active[|live|-1].gen == c.attach.file.gen;
    assert Listed(c.active, c.attach.file.gen);
  }

  lemma ClaimTidy(c: Col, who: Owner, all: bool, threshold: nat)
    requires Tidy(c) && c.chain.Some?
    ensures c.background.Idle? && c.caller.Idle? ==> Tidy(Claim(c, who, all))
    ensures MergeOf(c, who).Claimed? && (c.background.Idle? || c.caller.Idle?) ==> Tidy(Capture(c, who, threshold))
    ensures MergeOf(c, who).Running? && MergeOf(c, who).stage == Taken && (c.background.Idle? || c.caller.Idle?) ==>
      Tidy(RenameBase(c, who))
  {
    hide Flat, Overlay;
  }

  lemma {:induction false} WithoutListed(active: seq<Entry>, batch: seq<DeltaFile>, g: nat)
    requires Listed(active, g)
    ensures Listed(Without(active, batch), g) || NamedIn(batch, g)
  {
    var n := |active| - 1;
    var k :| 0 <= k < |active| && active[k].gen == g;
    if k < n {
      assert active[..n][k].gen == g;
      WithoutListed(active[..n], batch, g);
      if Listed(Without(active[..n], batch), g) {
        ListedMore(Without(active[..n], batch), Without(active, batch), g);
      }
    } else if Names(batch, active[n]) {
      var i :| 0 <= i < |batch| && batch[i].gen == active[n].gen;
    } else {
      var w := Without(active, batch);
      assert w[|w|-1].gen == g;
    }
  }

  lemma DropTidy(c: Col, who: Owner)
    requires Tidy(c) && MergeOf(c, who).Running? && MergeOf(c, who).stage == Renamed
    requires c.background.Idle? || c.caller.Idle?
    ensures Tidy(DropPrefix(c, who))
  {
    hide Without, Flat, Overlay;
    var d := DropPrefix(c, who);
    forall g | g in d.files ensures Referred(d, g) {
      if Listed(c.active, g) {
        WithoutListed(c.active, MergeOf(c, who).batch, g);
      }
    }
  }

  lemma PublishMergeTidy(c: Col, who: Owner, threshold: nat)
    requires Tidy(c) && MergeOf(c, who).Running? && MergeOf(c, who).stage == Dropped && PrefixUnchanged(c, who)
    requires c.background.Idle? || c.caller.Idle?
    ensures Tidy(PublishMerge(c, who, threshold))
  {
    hide Flat, Overlay;
    var d, batch := PublishMerge(c, who, threshold), MergeOf(c, who).batch;
    forall g | g in d.files ensures Referred(d, g) {
      if NamedIn(Dropping(c), g) {
        var i :| 0 <= i < |batch| && batch[i].gen == g;
        assert batch[i] in batch;
        assert g in d.obsolete;
      }
    }
  }

  lemma ReopenTidy(c: Col, threshold: nat)
    requires forall i :: 0 <= i < |c.active| ==> c.active[i].gen in c.files
    ensures Tidy(Reopen(c, threshold))
  {
    hide SortByGen, ColumnChain.Listed;
  }

  lemma MergeTidy(c: Col, e: Event, d: Col, threshold: nat)
    requires MergeEffect(c, e, d, threshold) && Tidy(c) && (c.background.Idle? || c.caller.Idle?)
    requires e.StartJob? || e.StartCaller? ==> c.background.Idle? && c.caller.Idle?
    requires e.PublishStep? ==> PrefixUnchanged(c, e.who)
    ensures Tidy(d)
  {
    hide Claim, Capture, RenameBase, DropPrefix, PublishMerge, Abort, PrefixUnchanged, Tidy;
    match e {
      case StartJob => ClaimTidy(c, Background, false, threshold);
      case StartCaller(_) => ClaimTidy(c, Caller, true, threshold);
      case CaptureStep(who) => ClaimTidy(c, who, true, threshold);
      case RenameStep(who) => ClaimTidy(c, who, true, threshold);
      case DropStep(who) => DropTidy(c, who);
      case PublishStep(who) => PublishMergeTidy(c, who, threshold);
    }
  }

  lemma OtherTidy(s: Store, c: Col, e: Event, d: Col, threshold: nat, durable: bool)
    requires OtherEffect(s, c, e, d, threshold) && Tidy(c) && ColInv(c, true, durable, s.nextGen)
    requires e.BeginAttach? ==> c.attach.NoAttach?
    ensures Tidy(d)
  {
    hide OpenAttach, CreateFile, CommitAdd, PublishAdd, PromoteEntry, MarkPersistent, Unlink, Tidy, ColInv;
    if e.CommitDelta? {
      CommitTidy(c);
    } else if e.PublishDelta? {
      PublishTidy(c, threshold, durable, s.nextGen);
    } else {
      AttachTidy(c, if e.BeginAttach? then e.batch else [], e.BeginAttach? && (e.persistent || e.t.file in s.marked),
                 if e.UnlinkStep? then e.gen else s.nextGen, if e.Promote? then e.i else 0, threshold);
    }
  }

  /** What ownership says about one column before a step on it. */
  lemma StepFacts(s: Store, e: Event, t: Target, threshold: nat)
    requires Enabled(s, e) && s.up && t in s.cols && Subject(s, e) == Some(t) && Inv(s, threshold)
    ensures ColInv(s.cols[t], true, t.file in s.tables, s.nextGen)
    ensures e.BeginAttach? ==> s.cols[t].attach.NoAttach?
    ensures e.StartJob? || e.StartCaller? ==> s.cols[t].background.Idle? && s.cols[t].caller.Idle?
  {
    hide ColInv, Flat, Overlay, Step;
    assert LocalAt(s, t, threshold);
    if e.StartJob? {
      TakenJob(s, threshold);
    }
  }

  lemma MergeFacts(c: Col, durable: bool, nextGen: nat)
    requires c.chain.Some? && ColInv(c, true, durable, nextGen)
    ensures c.background.Idle? || c.caller.Idle?
    ensures forall who :: MergeOf(c, who).Running? ==> PrefixUnchanged(c, who)
  {
    hide Ordered, Flat, History, Generations, Overlay, Agrees;
  }

  lemma MergeStepTidy(s: Store, e: Event, threshold: nat, t: Target)
    requires Enabled(s, e) && Merges(e) && t in s.cols && Tidy(s.cols[t]) && Inv(s, threshold)
    ensures t in Step(s, e, threshold).cols && Tidy(Step(s, e, threshold).cols[t])
  {
    hide Step, Enabled, Inv, ColInv, Tidy, PrefixUnchanged;
    MergeChanges(s, e, threshold);
    if Subject(s, e) == Some(t) {
      StepFacts(s, e, t, threshold);
      MergeFacts(s.cols[t], t.file in s.tables, s.nextGen);
      MergeTidy(s.cols[t], e, Step(s, e, threshold).cols[t], threshold);
    }
  }

  lemma OtherStepTidy(s: Store, e: Event, threshold: nat, t: Target)
    requires Enabled(s, e) && Plain(e) && s.up && t in s.cols && Tidy(s.cols[t]) && Inv(s, threshold)
    ensures t in Step(s, e, threshold).cols && Tidy(Step(s, e, threshold).cols[t])
  {
    hide Step, Enabled, Inv, ColInv, Tidy, OtherEffect;
    OtherChanges(s, e, threshold);
    if Subject(s, e) == Some(t) {
      StepFacts(s, e, t, threshold);
      OtherTidy(s, s.cols[t], e, Step(s, e, threshold).cols[t], threshold, t.file in s.tables);
    }
  }

  ghost predicate AllTidy(s: Store) {
    s.up ==> forall t :: t in s.cols ==> Tidy(s.cols[t])
  }

  lemma StepTidy(s: Store, e: Event, s': Store, threshold: nat)
    requires Next(s, e, s', threshold) && AllTidy(s) && Inv(s, threshold)
    ensures AllTidy(s')
  {
    hide Inv, Tidy;
    if e.ReopenStep? {
      hide Reopen;
      forall t | t in s'.cols ensures Tidy(s'.cols[t]) {
        ReopenTidy(s.cols[t], threshold);
      }
    } else if !s.up || e.CrashStep? {
      hide Step;
      DownStays(s, e, threshold);
    } else if e.AddColumn? {
      FreshTidy(e.origin);
    } else {
      hide Step, Enabled;
      UpOnly(s, e);
      forall t | t in s'.cols ensures Tidy(s'.cols[t]) {
        SameColumns(s, e, threshold);
        if Merges(e) {
          MergeStepTidy(s, e, threshold, t);
        } else {
          OtherStepTidy(s, e, threshold, t);
        }
      }
    }
  }

  lemma FreshTidy(origin: Column)
    ensures Tidy(Fresh(origin))
  {}

  lemma DownStays(s: Store, e: Event, threshold: nat)
    requires Enabled(s, e) && !e.ReopenStep? && (!s.up || e.CrashStep?)
    ensures !Step(s, e, threshold).up
  {
    if !e.CrashStep? {
      StaysUp(s, e, threshold);
    }
  }

  lemma UpOnly(s: Store, e: Event)
    requires Enabled(s, e) && s.up
    ensures !e.AbandonStep? && !e.ReopenStep?
  {}

  lemma SameColumns(s: Store, e: Event, threshold: nat)
    requires Enabled(s, e) && s.up && !e.CrashStep? && !e.AddColumn? && !e.AbandonStep? && !e.ReopenStep?
    ensures Step(s, e, threshold).cols.Keys == s.cols.Keys
  {
    hide Step, Enabled;
    if Merges(e) {
      MergeChanges(s, e, threshold);
    } else {
      OtherChanges(s, e, threshold);
    }
  }

  /**
   In every state of a running store, each delta file on disk is named by the manifest,
   being attached, being merged, or waiting for its last reader: none is left behind.
   */
  lemma {:induction false} NoFileIsLeftBehind(states: seq<Store>, events: seq<Event>, threshold: nat, i: nat)
    requires Run(states, events, threshold) && threshold > 0 && i < |states|
    ensures AllTidy(states[i])
  {
    hide Inv, Next, AllTidy;
    if i == 0 {
      assert AllTidy(EMPTY) by { EmptyTidy(); }
    } else {
      NoFileIsLeftBehind(states, events, threshold, i - 1);
      ReachableInv(states, events, threshold, i - 1);
      StepTidy(states[i-1], events[i-1], states[i], threshold);
    }
  }

  lemma EmptyTidy()
    ensures AllTidy(EMPTY)
  {}
}
