/**
 The bytes of one property column through a whole run of the store: the base file on
 disk and the mapping readers use. Merges write the one from the other, crashes drop
 the mapping, and at every moment bytes and delta files together read as the store
 model says.
 */
module ColumnBytes {
  import opened Records
  import opened Topology
  import opened ColumnChain
  import opened DeltaStore
  import opened StoreRuns
  import opened StoreMarks
  import opened ColumnMerge

  /** The base file and the bytes readers map. */
  datatype Base = Base(file: Bytes, mapped: Bytes)

  predicate On(s: Store, e: Event, t: Target) {
    Subject(s, e) == Some(t)
  }

  /** What an event does to the bytes: a merge writes a new file from the mapping, publication maps it. */
  ghost predicate BaseStep(s: Store, e: Event, b: Base, b': Base, t: Target, table: Table, width: nat) {
    if e.RenameStep? && On(s, e, t) then
      && t in s.cols && MergeOf(s.cols[t], e.who).Running? && b'.mapped == b.mapped
      && Merged(table, b.mapped, b'.file, width, Flat(MergeOf(s.cols[t], e.who).batch))
    else if (e.PublishStep? && On(s, e, t)) || e.CrashStep? || e.ReopenStep? then
      b' == Base(b.file, b.file)
    else
      b' == b
  }

  /** The file stands for the stored column, the mapping for the base of the readers' view. */
  ghost predicate BaseOk(c: Col, b: Base, table: Table, width: nat) {
    && |b.mapped| == |b.file| && Stands(table, b.file, width, c.stored)
    && if c.chain.Some? then Stands(table, b.mapped, width, c.chain.value.view.base) else b.mapped == b.file
  }

  /** Every delta record has a slot that gives its value back. */
  ghost predicate Fit(c: Col, size: nat, table: Table, width: nat) {
    forall x :: x in Flat(Deltas(c)) ==> Placed(table, size, width, x.key) && ColumnMerge.Storable(x.value, width)
  }

  /** Nothing happened to the base. */
  predicate SameBase(c: Col, d: Col) {
    && d.stored == c.stored
    && match c.chain
       case Some(chain) => d.chain.Some? && d.chain.value.view.base == chain.view.base
       case None => d.chain.None? || d.chain.value.view.base == c.stored
  }

  lemma OtherSameBase(s: Store, c: Col, e: Event, d: Col, threshold: nat)
    requires OtherEffect(s, c, e, d, threshold)
    ensures SameBase(c, d)
  {
    hide Flat, Overlay;
  }

  lemma MergeSameBase(c: Col, e: Event, d: Col, threshold: nat)
    requires MergeEffect(c, e, d, threshold) && !e.RenameStep? && !e.PublishStep?
    ensures SameBase(c, d)
  {
    hide Flat, Overlay, Without;
  }

  lemma BaseKept(c: Col, d: Col, b: Base, table: Table, width: nat)
    requires SameBase(c, d) && BaseOk(c, b, table, width)
    ensures BaseOk(d, b, table, width)
  {
    hide Stands;
  }

  /** The prefix a merge captured is part of the chain. */
  lemma CapturedFits(c: Col, who: Owner, durable: bool, nextGen: nat, size: nat, table: Table, width: nat)
    requires c.chain.Some? && MergeOf(c, who).Running? && Fit(c, size, table, width)
    requires ColInv(c, true, durable, nextGen)
    ensures forall x :: x in Flat(MergeOf(c, who).batch) ==>
      Placed(table, size, width, x.key) && ColumnMerge.Storable(x.value, width)
    ensures MergeOf(c, who).base == c.chain.value.view.base
  {
    hide Ordered, Flat, History, Generations, Overlay, Agrees, Placed;
    var deltas, batch := Deltas(c), MergeOf(c, who).batch;
    assert batch == deltas[..|batch|];
    FlatSplit(deltas, |batch|);
  }

  lemma RenameKeepsBase(c: Col, who: Owner, durable: bool, nextGen: nat, b: Base, b': Base, table: Table, width: nat)
    requires c.chain.Some? && MergeOf(c, who).Running? && BaseOk(c, b, table, width)
    requires Fit(c, |b.file|, table, width) && ColInv(c, true, durable, nextGen)
    requires b'.mapped == b.mapped && Merged(table, b.mapped, b'.file, width, Flat(MergeOf(c, who).batch))
    ensures BaseOk(RenameBase(c, who), b', table, width)
  {
    hide ColInv, Flat, Overlay, Stands, Merged, Placed, Fit;
    CapturedFits(c, who, durable, nextGen, |b.file|, table, width);
    MergedSize(table, b.mapped, b'.file, width, Flat(MergeOf(c, who).batch));
    MergeRefinesOverlay(table, b.mapped, b'.file, width, Flat(MergeOf(c, who).batch), c.chain.value.view.base);
  }

  lemma PublishKeepsBase(c: Col, who: Owner, threshold: nat, durable: bool, nextGen: nat, b: Base, table: Table,
                         width: nat)
    requires c.chain.Some? && AtStage(MergeOf(c, who), Dropped) && PrefixUnchanged(c, who)
    requires BaseOk(c, b, table, width) && ColInv(c, true, durable, nextGen)
    ensures BaseOk(PublishMerge(c, who, threshold), Base(b.file, b.file), table, width)
  {
    hide Ordered, Flat, History, Generations, Overlay, Agrees, Stands;
  }

  lemma MergeKeepsBase(s: Store, e: Event, threshold: nat, t: Target, b: Base, b': Base, table: Table, width: nat)
    requires Enabled(s, e) && Merges(e) && t in s.cols && BaseStep(s, e, b, b', t, table, width)
    requires BaseOk(s.cols[t], b, table, width) && Fit(s.cols[t], |b.file|, table, width) && Inv(s, threshold)
    ensures t in Step(s, e, threshold).cols && BaseOk(Step(s, e, threshold).cols[t], b', table, width)
  {
    hide Step, Enabled, Inv, ColInv, BaseOk, Fit, PrefixUnchanged, RenameBase, PublishMerge, Merged, Flat;
    MergeChanges(s, e, threshold);
    if On(s, e, t) {
      var c, d := s.cols[t], Step(s, e, threshold).cols[t];
      StepFacts(s, e, t, threshold);
      MergeFacts(c, t.file in s.tables, s.nextGen);
      if e.RenameStep? {
        RenameKeepsBase(c, e.who, t.file in s.tables, s.nextGen, b, b', table, width);
      } else if e.PublishStep? {
        PublishKeepsBase(c, e.who, threshold, t.file in s.tables, s.nextGen, b, table, width);
      } else {
        MergeSameBase(c, e, d, threshold);
        BaseKept(c, d, b, table, width);
      }
    }
  }

  lemma OtherKeepsBase(s: Store, e: Event, threshold: nat, t: Target, b: Base, table: Table, width: nat)
    requires Enabled(s, e) && Plain(e) && s.up && t in s.cols && BaseOk(s.cols[t], b, table, width)
    ensures t in Step(s, e, threshold).cols && BaseOk(Step(s, e, threshold).cols[t], b, table, width)
  {
    hide Step, Enabled, BaseOk, OtherEffect;
    OtherChanges(s, e, threshold);
    if On(s, e, t) {
      OtherSameBase(s, s.cols[t], e, Step(s, e, threshold).cols[t], threshold);
      BaseKept(s.cols[t], Step(s, e, threshold).cols[t], b, table, width);
    }
  }

  /** A crash drops the mapping and recovery maps the file; in between only manifest entries change. */
  lemma RestartKeepsBase(s: Store, e: Event, s': Store, threshold: nat, t: Target, b: Base, b': Base, table: Table,
                         width: nat)
    requires Next(s, e, s', threshold) && (!s.up || e.CrashStep?) && t in s.cols && t in s'.cols
    requires BaseStep(s, e, b, b', t, table, width) && BaseOk(s.cols[t], b, table, width)
    ensures BaseOk(s'.cols[t], b', table, width)
  {
    hide Stands, Flat, SortByGen, ColumnChain.Listed, Overlay;
  }

  lemma NextKeepsBase(s: Store, e: Event, s': Store, threshold: nat, t: Target, b: Base, b': Base, table: Table,
                      width: nat)
    requires Next(s, e, s', threshold) && t in s.cols && t in s'.cols
    requires BaseStep(s, e, b, b', t, table, width) && BaseOk(s.cols[t], b, table, width)
    requires Fit(s.cols[t], |b.file|, table, width) && Inv(s, threshold)
    ensures BaseOk(s'.cols[t], b', table, width) && |b'.file| == |b.file|
  {
    hide Inv, Fit, Step, Stands, Flat;
    assert |b'.file| == |b.file|;
    if !s.up || e.CrashStep? {
      RestartKeepsBase(s, e, s', threshold, t, b, b', table, width);
    } else {
      hide BaseOk, Enabled;
      UpOnly(s, e);
      if Merges(e) {
        MergeKeepsBase(s, e, threshold, t, b, b', table, width);
      } else if e.AddColumn? {
        AddsAnother(s, e, threshold, t);
      } else {
        OtherKeepsBase(s, e, threshold, t, b, table, width);
      }
    }
  }

  lemma AddsAnother(s: Store, e: Event, threshold: nat, t: Target)
    requires Enabled(s, e) && e.AddColumn? && t in s.cols
    ensures t in Step(s, e, threshold).cols && Step(s, e, threshold).cols[t] == s.cols[t]
  {}

  /** The bytes of column `t` along a run, from the event that wrote the column on. */
  ghost predicate BaseRun(states: seq<Store>, events: seq<Event>, bytes: seq<Base>, a: nat, t: Target, table: Table,
                          width: nat) {
    && |states| == |events| + 1 && a < |events| && |bytes| == |states|
    && events[a].AddColumn? && events[a].t == t
    && bytes[a+1].mapped == bytes[a+1].file && Stands(table, bytes[a+1].file, width, events[a].origin)
    && (forall i :: a < i < |events| ==> BaseStep(states[i], events[i], bytes[i], bytes[i+1], t, table, width))
  }

  /** Up to state `j` the column is there and its delta records have slots that hold their values. */
  ghost predicate FitUntil(states: seq<Store>, bytes: seq<Base>, a: nat, j: nat, t: Target, table: Table, width: nat)
    requires j < |states| == |bytes|
  {
    forall i :: a < i <= j ==> t in states[i].cols && Fit(states[i].cols[t], |bytes[i].file|, table, width)
  }

  /**
   In every run, through any number of merges, crashes and recoveries, the base file
   stands for the stored column and the mapped bytes for the base readers use.
   */
  lemma {:induction false} BytesFollowTheStore(states: seq<Store>, events: seq<Event>, bytes: seq<Base>, threshold: nat,
                                               a: nat, j: nat, t: Target, table: Table, width: nat)
    requires BaseRun(states, events, bytes, a, t, table, width) && a < j < |states|
    requires FitUntil(states, bytes, a, j, t, table, width) && threshold > 0 && Run(states, events, threshold)
    ensures BaseOk(states[j].cols[t], bytes[j], table, width)
    decreases j
  {
    hide Next, BaseStep, BaseOk, Fit, Stands, Inv;
    assert Next(states[j-1], events[j-1], states[j], threshold);
    if j == a + 1 {
      WrittenBase(states[a], events[a], states[j], threshold, bytes[j], table, width);
    } else {
      BytesFollowTheStore(states, events, bytes, threshold, a, j - 1, t, table, width);
      ReachableInv(states, events, threshold, j - 1);
      NextKeepsBase(states[j-1], events[j-1], states[j], threshold, t, bytes[j-1], bytes[j], table, width);
    }
  }

  lemma WrittenBase(s: Store, e: Event, s': Store, threshold: nat, b: Base, table: Table, width: nat)
    requires Next(s, e, s', threshold) && e.AddColumn? && b.mapped == b.file
    requires Stands(table, b.file, width, e.origin)
    ensures e.t in s'.cols && BaseOk(s'.cols[e.t], b, table, width)
  {
    hide Stands;
  }

  /** What a reader gets from the bytes: the newest delta record, else the slot. */
  function ByteRead(b: Base, deltas: seq<DeltaFile>, width: nat, k: Key, o: nat): Bytes
    requires InColumn(|b.mapped|, width, o)
  {
    match Newest(Flat(deltas), k, LATEST)
    case Some(x) => x.value
    case None => Trim(Slot(b.mapped, width, o))
  }

  /**
   In every state of every run, reading an edge's slot through the mapped bytes and the
   delta files gives the column's original value overlaid with everything published.
   */
  lemma ByteReadIsPublished(states: seq<Store>, events: seq<Event>, bytes: seq<Base>, threshold: nat, a: nat, j: nat,
                            t: Target, table: Table, width: nat, k: Key, o: nat)
    requires BaseRun(states, events, bytes, a, t, table, width) && a < j < |states| && states[j].up
    requires LocatedAt(table, k, o) && InColumn(|bytes[j].mapped|, width, o)
    requires FitUntil(states, bytes, a, j, t, table, width) && threshold > 0 && Run(states, events, threshold)
    ensures var c := states[j].cols[t];
            Some(ByteRead(bytes[j], Deltas(c), width, k, o)) == Cell(Overlay(c.origin, c.published), k)
  {
    assert |bytes| == |states|;
    hide Inv, Overlay, BaseRun, Run, LocatedAt, Slot, Fit, InColumn, ColInv;
    BytesFollowTheStore(states, events, bytes, threshold, a, j, t, table, width);
    ReachableInv(states, events, threshold, j);
    ColumnOk(states[j], t, threshold);
    ReadIsPublished(states[j].cols[t], t.file in states[j].tables, states[j].nextGen, k);
    ReadsSlot(states[j].cols[t], bytes[j], table, width, k, o);
  }

  lemma ReadsSlot(c: Col, b: Base, table: Table, width: nat, k: Key, o: nat)
    requires BaseOk(c, b, table, width) && LocatedAt(table, k, o) && InColumn(|b.mapped|, width, o)
    ensures Read(c, k) == Some(ByteRead(b, Deltas(c), width, k, o))
  {
    hide LocatedAt, Slot, InColumn;
    PlacedAt(table, |b.mapped|, width, k, o);
  }
}
