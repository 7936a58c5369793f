/** Steps that move updates into the store, merge them or relocate them keep the flow invariant. */
module PipelineFlow {
  import opened Records
  import opened DeltaBatch
  import opened ColumnChain
  import opened DeltaStore
  import opened StoreRuns
  import opened UpdateManager
  import opened Pipeline
  import opened PipelineManager

  lemma SameManager(s: System, s': System)
    requires ManagerInv(s) && s'.mgr == s.mgr && BufferOf(s'.worker) == BufferOf(s.worker) && s'.retired == s.retired
    requires s.worker.Flush? ==> s'.worker.base == s.worker.base
    requires s'.submission == s.submission && s'.floor == s.floor && s'.log == s.log && s'.done == s.done
    requires s'.issued == s.issued
    ensures ManagerInv(s')
  {
    hide BuffersOk, Fifo, AllUniform, SubmissionOk, Held, Conserved, AllIn, Within;
  }

  // ---- Silent steps of the store ----

  lemma InternalFlow(store: Store, e: Event, threshold: nat, floor: nat, w: Worker, us: seq<Update>, home: Home,
                     shown: map<(Target, Key), Record>)
    requires Inv(store, threshold) && threshold > 0 && store.up && Enabled(store, e) && IsInternal(e)
    requires ChainsBelow(store.cols, floor) && ChainWaits(w, us, home, store.cols) && ShownReads(shown, store.cols)
    requires SendingOk(store, w)
    ensures var store' := Step(store, e, threshold);
            && store'.cols.Keys == store.cols.Keys && store'.attaching == store.attaching && store'.up &&
              Inv(store', threshold)
            && ChainsBelow(store'.cols, floor) && ChainWaits(w, us, home, store'.cols)
            && ShownReads(shown, store'.cols) && SendingOk(store', w)
  {
    hide Inv, Enabled, Step, Read, Flat, Unsent, PlaceOf, FileRecords, NewRecords, Settles;
    var store' := Step(store, e, threshold);
    NextKeeps(store, e, store', threshold);
    StaysUp(store, e, threshold);
    StepKeys(store, e, threshold);
    forall t, r | InChain(store'.cols, t, r) ensures InChain(store.cols, t, r) {
      SilentSettles(store, e, threshold, t);
      SettledRecords(store.cols[t], store'.cols[t], r);
    }
    forall p | p in shown ensures Read(store'.cols[p.0], p.1) == Read(store.cols[p.0], p.1) {
      MergingIsInvisible(store, e, store', threshold, p.0, p.1);
    }
    if store.attaching.Some? {
      SilentSettles(store, e, threshold, store.attaching.value);
      SettlesNew(store.cols[store.attaching.value], store'.cols[store.attaching.value]);
    }
  }

  lemma SettlesNew(c: Col, d: Col)
    requires Settles(c, d)
    ensures NewRecords(d.attach) == NewRecords(c.attach)
  {}

  lemma InternalInv(s: System, s': System, e: Event, threshold: nat)
    requires threshold > 0 && IsInternal(e) && Enabled(s.store, e) && s' == s.(store := Step(s.store, e, threshold))
    requires SystemInv(s, threshold)
    ensures SystemInv(s', threshold)
  {
    hide Step, Enabled, Inv, ManagerInv, Visible;
    hide HomeOk, Flow, SendingOk, ChainsBelow, ShownBelow, ChainWaits, ShownWaits, ShownReads, ShownIssued;
    InternalFlow(s.store, e, threshold, s.floor, s.worker, FlushRecords(s), s.home, s.shown);
    SameManager(s, s');
    assert FlushRecords(s') == FlushRecords(s);
    hide FlushRecords;
  }

  lemma InternalKeeps(s: System, e: Event, threshold: nat)
    requires SystemInv(s, threshold) && Ready(s, Internal(e)) && threshold > 0
    ensures SystemInv(Act(s, Internal(e), threshold), threshold)
  {
    hide Inv, ManagerInv, Visible, FlowInv, Step;
    var s' := Act(s, Internal(e), threshold);
    assert s' == s.(store := Step(s.store, e, threshold));
    hide Act, Enabled;
    InternalInv(s, s', e, threshold);
  }

  // ---- New tables ----

  /** A new column changes nothing for the existing ones. */
  lemma AddedColumn(store: Store, t: Target, origin: Column, threshold: nat, floor: nat, shown: map<(Target, Key),
                    Record>, w: Worker)
    requires Inv(store, threshold) && threshold > 0 && Enabled(store, AddColumn(t, origin))
    requires ChainsBelow(store.cols, floor) && ShownReads(shown, store.cols) && SendingOk(store, w)
    ensures var store' := Step(store, AddColumn(t, origin), threshold);
            && store'.cols == store.cols[t := Fresh(origin)] && store'.attaching == store.attaching && store'.up &&
              Inv(store', threshold)
            && ChainsBelow(store'.cols, floor) && ShownReads(shown, store'.cols) && SendingOk(store', w)
  {
    hide Inv, Read, FileRecords, NewRecords;
    var store' := Step(store, AddColumn(t, origin), threshold);
    NextKeeps(store, AddColumn(t, origin), store', threshold);
    forall u, r | InChain(store'.cols, u, r) ensures InChain(store.cols, u, r) {}
  }

  /** The places of known updates stay when home only grows by new records. */
  lemma GrownHome(home: Home, t: Target, origin: Column, x: Slot)
    requires x in home && forall k :: k in origin ==> SlotIn(t, k) !in home
    ensures x in AddHome(home, t, origin) && PlaceOf(AddHome(home, t, origin), x) == PlaceOf(home, x)
  {
    assert forall k :: k in origin ==> SlotIn(t, k) != x;
  }

  ghost predicate SamePlaces(home: Home, home': Home, us: seq<Update>) {
    forall u :: u in us ==> PlaceOf(home', SlotOf(u)) == PlaceOf(home, SlotOf(u))
  }

  lemma SamePlacesFlow(w: Worker, us: seq<Update>, home: Home, home': Home, attaching: Option<Target>,
                       shown: map<(Target, Key), Record>)
    requires SamePlaces(home, home', us) && Flow(w, us, home, attaching, shown)
    requires ShownWaits(w, us, home, attaching, shown)
    ensures Flow(w, us, home', attaching, shown) && ShownWaits(w, us, home', attaching, shown)
  {
    hide PlaceOf, ShownAt;
    if w.Flush? {
      forall t, r | FromPlace(us, home, w.groups, t, r) ensures FromPlace(us, home', w.groups, t, r) {
        var u :| u in us && PlaceOf(home, SlotOf(u)) == t && u.record == r && u.target !in w.groups;
        assert PlaceOf(home', SlotOf(u)) == t;
      }
      forall u | u in us
        ensures Unsent(w, home', u) == Unsent(w, home, u)
        ensures InFlight(w, home', attaching, u) == InFlight(w, home, attaching, u) {}
      hide FromGroup, FromPlace, Unsent, InFlight;
    }
  }

  lemma SamePlacesChains(w: Worker, us: seq<Update>, home: Home, home': Home, cols: map<Target, Col>,
                         cols': map<Target, Col>)
    requires SamePlaces(home, home', us) && ChainWaits(w, us, home, cols)
    requires forall t, r :: InChain(cols', t, r) ==> InChain(cols, t, r)
    ensures ChainWaits(w, us, home', cols')
  {
    hide PlaceOf, InChain;
  }

  lemma SamePlacesVisible(log: seq<Update>, issued: seq<Update>, p: PendingMap, shown: map<(Target, Key), Record>,
                          home: Home, home': Home)
    requires SamePlaces(home, home', log) && Visible(log, issued, p, shown, home)
    ensures Visible(log, issued, p, shown, home')
  {
    hide PlaceOf, Alone, PendingAt, ShownAt;
  }

  lemma KnownSlots(s: System)
    requires ManagerInv(s) && HomeOk(s.home, s.store.cols.Keys, s.issued)
    ensures forall u :: u in s.log ==> SlotOf(u) in s.home
    ensures forall u :: u in FlushRecords(s) ==> u in s.log
  {
    hide Fifo, AllUniform, SubmissionOk, Held, FlushRange, BuffersOk;
    if s.worker.Flush? && s.worker.buf < |s.mgr.buffers| {
      BufferedIsLogged(s.log, s.done, s.mgr.buffers, s.worker.buf);
    }
    forall u | u in s.log ensures SlotOf(u) in s.home {
      assert u in s.issued;
    }
  }

  lemma NewTableHome(home: Home, targets: set<Target>, issued: seq<Update>, t: Target, origin: Column)
    requires HomeOk(home, targets, issued) && t.generation == t.file && forall k :: k in origin ==>
        SlotIn(t, k) !in home
    ensures HomeOk(AddHome(home, t, origin), targets + {t}, issued)
  {
    var home' := AddHome(home, t, origin);
    forall x | x in home' ensures PlaceOf(home', x) in targets + {t} {
      if x in home {
        GrownHome(home, t, origin, x);
      }
    }
  }

  lemma NewTableInv(s: System, s': System, t: Target, origin: Column, threshold: nat)
    requires threshold > 0 && Enabled(s.store, AddColumn(t, origin)) && t.generation == t.file
    requires forall k :: k in origin ==> SlotIn(t, k) !in s.home
    requires s' == s.(store := Step(s.store, AddColumn(t, origin), threshold), home := AddHome(s.home, t, origin))
    requires SystemInv(s, threshold)
    ensures SystemInv(s', threshold)
  {
    hide Inv, ManagerInv, Visible, Flow, ChainWaits, ShownWaits, Step, ChainsBelow, ShownReads, SendingOk;
    AddedColumn(s.store, t, origin, threshold, s.floor, s.shown, s.worker);
    SameManager(s, s');
    KnownSlots(s);
    NewTableHome(s.home, s.store.cols.Keys, s.issued, t, origin);
    forall x | x in s.home ensures PlaceOf(s'.home, x) == PlaceOf(s.home, x) {
      GrownHome(s.home, t, origin, x);
    }
    assert FlushRecords(s') == FlushRecords(s);
    assert SamePlaces(s.home, s'.home, s.log);
    assert SamePlaces(s.home, s'.home, FlushRecords(s));
    SamePlacesFlow(s.worker, FlushRecords(s), s.home, s'.home, s.store.attaching, s.shown);
    SamePlacesChains(s.worker, FlushRecords(s), s.home, s'.home, s.store.cols, s'.store.cols);
    SamePlacesVisible(s.log, s.issued, s.mgr.pending, s.shown, s.home, s'.home);
    assert s'.store.cols.Keys == s.store.cols.Keys + {t};
    hide HomeOk, AddHome, FlushRecords;
  }

  lemma NewTableKeeps(s: System, t: Target, origin: Column, threshold: nat)
    requires SystemInv(s, threshold) && Ready(s, NewTable(t, origin)) && threshold > 0
    ensures SystemInv(Act(s, NewTable(t, origin), threshold), threshold)
  {
    hide Inv, ManagerInv, Visible, FlowInv, Step;
    var s' := Act(s, NewTable(t, origin), threshold);
    assert s' == s.(store := Step(s.store, AddColumn(t, origin), threshold), home := AddHome(s.home, t, origin));
    hide Act;
    NewTableInv(s, s', t, origin, threshold);
  }

  // ---- Opening a group ----

  function Opening(w: Worker, home: Home, t: Target): Worker
    requires w.Flush? && t in w.groups
  {
    w.(groups := w.groups - {t}, parts := GroupBy(Rebound(home, t, w.groups[t])))
  }

  /** A rebound record comes from an update of the opened group that now lives at that place. */
  lemma PartSource(us: seq<Update>, home: Home, w: Worker, t: Target, p: Target, r: Record) returns (u: Update)
    requires w.Flush? && t in w.groups && (forall x :: x in w.groups[t] ==> FromGroup(us, t, x))
    requires p in Opening(w, home, t).parts && r in Opening(w, home, t).parts[p]
    ensures u in us && u.target == t && u.record == r && PlaceOf(home, SlotOf(u)) == p
  {
    var xs := Rebound(home, t, w.groups[t]);
    GroupMembers(xs, p, r);
    var i :| 0 <= i < |xs| && xs[i] == Addressed(p, r);
    assert r in w.groups[t];
    assert FromGroup(us, t, r);
    u :| u in us && u.target == t && u.record == r;
    assert SlotOf(u) == SlotIn(t, r.key);
  }

  lemma SamePlaceSameSlot(home: Home, u: Update, v: Update)
    requires PlaceOf(home, SlotOf(u)) == PlaceOf(home, SlotOf(v)) && u.record.key == v.record.key
    ensures SlotOf(u) == SlotOf(v)
  {}

  lemma UniformTargets(us: seq<Update>, u: Update, v: Update)
    requires Uniform(us) && u in us && v in us && SlotOf(u) == SlotOf(v)
    ensures u.target == v.target
  {
    var i, j :| 0 <= i < |us| && 0 <= j < |us| && us[i] == u && us[j] == v;
  }

  /** Every update of the opened group is in some part. */
  lemma PartCovers(us: seq<Update>, home: Home, w: Worker, t: Target, u: Update)
    requires w.Flush? && t in w.groups && u.target == t && u.record in w.groups[t]
    ensures var p := PlaceOf(home, SlotOf(u));
            p in Opening(w, home, t).parts && u.record in Opening(w, home, t).parts[p]
  {
    var xs := Rebound(home, t, w.groups[t]);
    var i :| 0 <= i < |w.groups[t]| && w.groups[t][i] == u.record;
    assert xs[i] == Addressed(PlaceOf(home, SlotOf(u)), u.record);
    GroupMembers(xs, PlaceOf(home, SlotOf(u)), u.record);
  }

  lemma OpenUnsent(w: Worker, us: seq<Update>, home: Home, t: Target, u: Update)
    requires w.Flush? && t in w.groups && Uniform(us) && u in us
    requires (forall x :: x in w.groups[t] ==> FromGroup(us, t, x)) && Unsent(Opening(w, home, t), home, u)
    ensures Unsent(w, home, u)
  {
    hide PlaceOf, GroupBy, Rebound, FromGroup, Uniform;
    if u.target !in w.groups {
      var v := PartSource(us, home, w, t, PlaceOf(home, SlotOf(u)), u.record);
      SamePlaceSameSlot(home, u, v);
      UniformTargets(us, u, v);
    }
  }

  lemma OpenFlow(w: Worker, us: seq<Update>, home: Home, shown: map<(Target, Key), Record>, t: Target)
    requires w.Flush? && w.parts == map[] && w.sending == [] && t in w.groups && Flow(w, us, home, None, shown)
    ensures Flow(Opening(w, home, t), us, home, None, shown)
  {
    hide PlaceOf, GroupBy, Rebound, FromGroup, ShownAt;
    var w' := Opening(w, home, t);
    forall p, r | p in w'.parts && r in w'.parts[p] ensures FromPlace(us, home, w'.groups, p, r) {
      var u := PartSource(us, home, w, t, p, r);
    }
    forall p | p in w'.parts ensures w'.parts[p] != [] {
      GroupNonempty(Rebound(home, t, w.groups[t]), p);
    }
    forall u | u in us && u.target == t ensures Unsent(w', home, u) {
      PartCovers(us, home, w, t, u);
    }
    hide FromPlace;
  }

  lemma OpenWaits(w: Worker, us: seq<Update>, home: Home, shown: map<(Target, Key), Record>, cols: map<Target, Col>,
                  t: Target)
    requires w.Flush? && w.sending == [] && t in w.groups && Uniform(us)
    requires (forall x :: x in w.groups[t] ==> FromGroup(us, t, x))
    requires ChainWaits(w, us, home, cols) && ShownWaits(w, us, home, None, shown)
    ensures ChainWaits(Opening(w, home, t), us, home, cols) && ShownWaits(Opening(w, home, t), us, home, None, shown)
  {
    forall u | u in us && Unsent(Opening(w, home, t), home, u) ensures Unsent(w, home, u) {
      OpenUnsent(w, us, home, t, u);
    }
    hide Unsent, PlaceOf, FromGroup, Uniform, InChain, ShownAt, GroupBy;
  }

  lemma FlushUniform(s: System)
    requires ManagerInv(s)
    ensures Uniform(FlushRecords(s))
  {
    hide Fifo, SubmissionOk, Held, FlushRange, BuffersOk, Conserved, AllIn;
  }

  lemma OpenGroupInv(s: System, s': System, t: Target, threshold: nat)
    requires s.worker.Flush? && !GroupOpen(s.worker) && t in s.worker.groups
    requires s' == s.(worker := Opening(s.worker, s.home, t))
    requires SystemInv(s, threshold)
    ensures SystemInv(s', threshold)
  {
    hide Inv, ManagerInv, Visible, ChainWaits, ShownWaits, GroupBy, Uniform, FromPlace, FromGroup, HomeOk, ChainsBelow;
    hide ShownBelow;
    hide ShownReads, ShownIssued;
    assert FlushRecords(s') == FlushRecords(s);
    SameManager(s, s');
    FlushUniform(s);
    OpenFlow(s.worker, FlushRecords(s), s.home, s.shown, t);
    OpenWaits(s.worker, FlushRecords(s), s.home, s.shown, s.store.cols, t);
    hide Flow, FlushRecords;
  }

  lemma OpenGroupKeeps(s: System, t: Target, threshold: nat)
    requires SystemInv(s, threshold) && Ready(s, OpenGroup(t))
    ensures SystemInv(Act(s, OpenGroup(t), threshold), threshold)
  {
    hide Inv, ManagerInv, Visible, ChainWaits, ShownWaits, GroupBy, Uniform, FromPlace, FromGroup, Flow, HomeOk;
    hide ChainsBelow, ShownBelow;
    hide ShownReads, ShownIssued;
    var s' := Act(s, OpenGroup(t), threshold);
    assert s' == s.(worker := Opening(s.worker, s.home, t));
    hide Act;
    OpenGroupInv(s, s', t, threshold);
  }

  // ---- Attaching a part ----

  /** FIFO flushing and one target per record give the commit order along the chain. */
  lemma PartFollows(w: Worker, us: seq<Update>, home: Home, cols: map<Target, Col>, shown: map<(Target, Key), Record>,
                    floor: nat, t: Target)
    requires w.Flush? && t in w.parts && t in cols && Flow(w, us, home, None, shown)
    requires ChainWaits(w, us, home, cols) && Within(us, w.base, floor)
    ensures Follows(Flat(Deltas(cols[t])), w.parts[t])
  {
    forall x, y | x in Flat(Deltas(cols[t])) && y in w.parts[t] && x.key == y.key ensures x.commit <= y.commit {
      assert FromPlace(us, home, w.groups, t, y);
      var u :| u in us && PlaceOf(home, SlotOf(u)) == t && u.record == y && u.target !in w.groups;
      assert Unsent(w, home, u) && InChain(cols, PlaceOf(home, SlotOf(u)), x);
    }
  }

  ghost predicate Attachable(s: System, t: Target, persistent: bool) {
    s.worker.Flush? && t in s.worker.parts && Enabled(s.store, BeginAttach(t, s.worker.parts[t], persistent))
  }

  lemma SendReady(s: System, t: Target, persistent: bool, threshold: nat)
    requires Can(s, Send(t, persistent)) && SystemInv(s, threshold)
    ensures Attachable(s, t, persistent)
  {
    assert FlushRange(s.worker, FlushRecords(s), s.floor) && s.worker.parts[t] != [];
    hide Inv, Fifo, BuffersOk, AllUniform, SubmissionOk, Held, Conserved, AllIn, Visible, HomeOk, ShownReads;
    hide ShownIssued;
    PartFollows(s.worker, FlushRecords(s), s.home, s.store.cols, s.shown, s.floor, t);
  }

  function Shipping(w: Worker, t: Target): Worker
    requires w.Flush? && t in w.parts
  {
    w.(parts := w.parts - {t}, sending := w.parts[t])
  }

  lemma SendFlow(w: Worker, us: seq<Update>, home: Home, shown: map<(Target, Key), Record>, cols: map<Target, Col>,
                 t: Target)
    requires w.Flush? && w.sending == [] && t in w.parts && Flow(w, us, home, None, shown)
    requires ChainWaits(w, us, home, cols) && ShownWaits(w, us, home, None, shown)
    ensures Flow(Shipping(w, t), us, home, Some(t), shown)
    ensures ChainWaits(Shipping(w, t), us, home, cols) && ShownWaits(Shipping(w, t), us, home, Some(t), shown)
  {
    hide PlaceOf, FromGroup, FromPlace, ShownAt, InChain;
    var w' := Shipping(w, t);
    forall u | u in us ensures Unsent(w, home, u) <==> Unsent(w', home, u) || InFlight(w', home, Some(t), u) {}
    forall u ensures !InFlight(w, home, None, u) {}
    hide Unsent, InFlight;
  }

  lemma BeganAttach(store: Store, t: Target, batch: seq<Record>, persistent: bool, threshold: nat, floor: nat,
                    shown: map<(Target, Key), Record>)
    requires Inv(store, threshold) && threshold > 0 && Enabled(store, BeginAttach(t, batch, persistent))
    requires ChainsBelow(store.cols, floor) && ShownReads(shown, store.cols)
    ensures var store' := Step(store, BeginAttach(t, batch, persistent), threshold);
            && store'.cols.Keys == store.cols.Keys && store'.attaching == Some(t) && store'.up && Inv(store', threshold)
            && NewRecords(store'.cols[t].attach) == FileRecords(batch)
            && (forall u, r :: InChain(store'.cols, u, r) <==> InChain(store.cols, u, r))
            && ChainsBelow(store'.cols, floor) && ShownReads(shown, store'.cols)
  {
    hide Inv, Read, Flat, FileRecords;
    var e := BeginAttach(t, batch, persistent);
    var store' := Step(store, e, threshold);
    NextKeeps(store, e, store', threshold);
    assert forall u :: u in store.cols ==> Deltas(store'.cols[u]) == Deltas(store.cols[u]);
    forall p | p in shown ensures Read(store'.cols[p.0], p.1) == Read(store.cols[p.0], p.1) {
      MergingIsInvisible(store, e, store', threshold, p.0, p.1);
    }
  }

  lemma SameChains(w: Worker, us: seq<Update>, home: Home, cols: map<Target, Col>, cols': map<Target, Col>)
    requires ChainWaits(w, us, home, cols) && forall t, r :: InChain(cols', t, r) <==> InChain(cols, t, r)
    ensures ChainWaits(w, us, home, cols')
  {
    hide InChain, PlaceOf, Unsent;
  }

  lemma SendInv(s: System, s': System, t: Target, persistent: bool, threshold: nat)
    requires s.store.up && Inv(s.store, threshold) && threshold > 0 && ManagerInv(s) && FlowInv(s)
    requires s.worker.Flush? && s.worker.sending == [] && t in s.worker.parts
    requires Enabled(s.store, BeginAttach(t, s.worker.parts[t], persistent))
    requires s' ==
        s.(store := Step(s.store, BeginAttach(t, s.worker.parts[t], persistent), threshold),
          worker := Shipping(s.worker, t))
    ensures s'.store.up && Inv(s'.store, threshold) && ManagerInv(s') && FlowInv(s')
  {
    var batch, us := s.worker.parts[t], FlushRecords(s);
    assert FlushRecords(s') == us;
    assert s.store.attaching.None? && batch != [];
    hide Inv, ManagerInv, ChainWaits, ShownWaits, Flow, ShownReads, ChainsBelow, Step;
    BeganAttach(s.store, t, batch, persistent, threshold, s.floor, s.shown);
    hide Enabled, InChain;
    SameManager(s, s');
    SendFlow(s.worker, us, s.home, s.shown, s.store.cols, t);
    SameChains(s'.worker, us, s.home, s.store.cols, s'.store.cols);
    hide HomeOk, ShownBelow, ShownIssued, FlushRecords, FileRecords, NewRecords;
  }

  lemma SendKeeps(s: System, t: Target, persistent: bool, threshold: nat)
    requires SystemInv(s, threshold) && Ready(s, Send(t, persistent)) && threshold > 0
    ensures SystemInv(Act(s, Send(t, persistent), threshold), threshold)
  {
    hide Step, ManagerInv, FlowInv, Inv, Visible;
    var s' := Act(s, Send(t, persistent), threshold);
    assert s' == s.(store := Step(s.store, BeginAttach(t, s.worker.parts[t], persistent), threshold),
        worker := Shipping(s.worker, t));
    hide Act, Can;
    SendInv(s, s', t, persistent, threshold);
  }

  // ---- Publishing an attached part ----

  lemma {:induction false} ShowFileLast(shown: map<(Target, Key), Record>, t: Target, rs: seq<Record>, p: (Target, Key))
    ensures p.0 != t || Last(rs, p.1).None? ==>
              (p in ShowFile(shown, t, rs) <==> p in shown) && (p in shown ==> ShowFile(shown, t, rs)[p] == shown[p])
    ensures p.0 == t && Last(rs, p.1).Some? ==>
        p in ShowFile(shown, t, rs) && ShowFile(shown, t, rs)[p] == Last(rs, p.1).value
  {
    if rs != [] {
      ShowFileLast(shown, t, rs[..|rs|-1], p);
    }
  }

  /** The last record of a key in the file is at least as new as any of that key in the batch. */
  lemma LastOfFile(batch: seq<Record>, r: Record)
    requires r in batch
    ensures Last(FileRecords(batch), r.key).Some?
    ensures var l := Last(FileRecords(batch), r.key).value; l.key == r.key && l.commit >= r.commit && l in batch
  {
    var f := FileRecords(batch);
    FileReadsLikeBatch(batch);
    OrderedNewestIsLast(f, r.key);
    NewestIsGreatest(batch, r.key, LATEST);
    hide FileRecords, Newest, Ordered;
    var i :| 0 <= i < |batch| && batch[i] == r;
    assert IfMatches(batch[i], r.key, LATEST).Some?;
    var j: nat :| NewestAt(batch, r.key, LATEST, j) && batch[j] == Newest(batch, r.key, LATEST).value;
  }

  lemma LastInBatch(batch: seq<Record>, k: Key)
    requires Last(FileRecords(batch), k).Some?
    ensures Last(FileRecords(batch), k).value in batch && Last(FileRecords(batch), k).value.key == k
  {
    FileReadsLikeBatch(batch);
    LastIsMember(FileRecords(batch), k);
  }

  /** A record in flight shares its slot with no update that still waits. */
  lemma NotWaiting(w: Worker, us: seq<Update>, home: Home, t: Target, shown: map<(Target, Key), Record>, u: Update,
                   r: Record)
    requires w.Flush? && Flow(w, us, home, Some(t), shown) && Uniform(us) && u in us
    requires r in w.sending && r.key == u.record.key && PlaceOf(home, SlotOf(u)) == t
    ensures !Unsent(w, home, u)
  {
    assert FromPlace(us, home, w.groups, t, r);
    var v :| v in us && PlaceOf(home, SlotOf(v)) == t && v.record == r && v.target !in w.groups;
    hide PlaceOf, Uniform, FromGroup, FromPlace, ShownAt;
    SamePlaceSameSlot(home, u, v);
    UniformTargets(us, u, v);
  }

  lemma AttachedShown(w: Worker, us: seq<Update>, home: Home, t: Target, shown: map<(Target, Key), Record>, floor: nat,
                      u: Update)
    requires w.Flush? && Flow(w, us, home, Some(t), shown) && ShownWaits(w, us, home, Some(t), shown)
    requires Within(us, w.base, floor)
    requires u in us
    requires (InFlight(w, home, Some(t), u) || ShownAt(shown, PlaceOf(home, SlotOf(u)), u.record.key, u.record.commit))
    ensures ShownAt(ShowFile(shown, t, FileRecords(w.sending)), PlaceOf(home, SlotOf(u)), u.record.key, u.record.commit)
  {
    var f, k := FileRecords(w.sending), u.record.key;
    var p := (PlaceOf(home, SlotOf(u)), k);
    ShowFileLast(shown, t, f, p);
    if InFlight(w, home, Some(t), u) {
      LastOfFile(w.sending, u.record);
    } else if p.0 == t && Last(f, k).Some? {
      ReplacesOlder(w, us, home, t, shown, floor, k);
    }
  }

  /** What the file puts in place of a shown record is newer. */
  lemma ReplacesOlder(w: Worker, us: seq<Update>, home: Home, t: Target, shown: map<(Target, Key), Record>, floor: nat,
                      k: Key)
    requires w.Flush? && Flow(w, us, home, Some(t), shown) && ShownWaits(w, us, home, Some(t), shown)
    requires Within(us, w.base, floor)
    requires Last(FileRecords(w.sending), k).Some?
    ensures var l := Last(FileRecords(w.sending), k).value;
            w.base <= l.commit < floor && ((t, k) in shown ==> shown[(t, k)].commit < l.commit)
  {
    var l := Last(FileRecords(w.sending), k).value;
    LastInBatch(w.sending, k);
    assert FromPlace(us, home, w.groups, t, l);
    var v :| v in us && PlaceOf(home, SlotOf(v)) == t && v.record == l && v.target !in w.groups;
    assert InFlight(w, home, Some(t), v);
  }

  /** The column that got the file shows its records; every other read is as before. */
  ghost predicate ReadsAfter(cols: map<Target, Col>, cols': map<Target, Col>, t: Target, f: seq<Record>) {
    cols'.Keys == cols.Keys &&
    forall u, k {:trigger Read(cols'[u], k)} :: u in cols ==>
      Read(cols'[u], k) == if u == t && Last(f, k).Some? then Some(Last(f, k).value.value) else Read(cols[u], k)
  }

  lemma AttachedStore(store: Store, w: Worker, threshold: nat)
    requires Inv(store, threshold) && threshold > 0 && Enabled(store, PublishDelta) && SendingOk(store, w)
    ensures var store', t, f := Step(store, PublishDelta, threshold), store.attaching.value, FileRecords(w.sending);
            && AttachPhase(store).file.records == f
            && store'.cols.Keys == store.cols.Keys && store'.attaching.None? && store'.up && Inv(store', threshold)
            && (forall u, r :: InChain(store'.cols, u, r) ==> InChain(store.cols, u, r) || (u == t && r in f))
            && ReadsAfter(store.cols, store'.cols, t, f)
  {
    hide Inv, FileRecords;
    var store', t := Step(store, PublishDelta, threshold), store.attaching.value;
    var file := AttachPhase(store).file;
    assert file.records == FileRecords(w.sending);
    NextKeeps(store, PublishDelta, store', threshold);
    FlatAppend(Deltas(store.cols[t]), [file]);
    FlatOne(file);
    assert Deltas(store'.cols[t]) == Deltas(store.cols[t]) + [file];
    forall u, k | u in store.cols ensures Read(store'.cols[u], k) ==
      if u == t && Last(file.records, k).Some? then Some(Last(file.records, k).value.value) else Read(store.cols[u], k)
    {
      PublishingShowsTheBatch(store, threshold, k);
    }
  }

  lemma AttachedChains(w: Worker, us: seq<Update>, home: Home, t: Target, shown: map<(Target, Key), Record>,
                       cols: map<Target, Col>, cols': map<Target, Col>, floor: nat)
    requires w.Flush? && Flow(w, us, home, Some(t), shown) && Uniform(us) && Within(us, w.base, floor)
    requires ChainWaits(w, us, home, cols) && ChainsBelow(cols, floor)
    requires forall u, r :: InChain(cols', u, r) ==> InChain(cols, u, r) || (u == t && r in FileRecords(w.sending))
    ensures ChainWaits(w.(sending := []), us, home, cols') && ChainsBelow(cols', floor)
  {
    FileReadsLikeBatch(w.sending);
    hide FileRecords, PlaceOf, Uniform, FromGroup, ShownAt, InChain;
    forall r | r in FileRecords(w.sending) ensures r in w.sending && r.commit < floor {
      assert FromPlace(us, home, w.groups, t, r);
    }
    forall u, r | u in us && Unsent(w, home, u) && PlaceOf(home, SlotOf(u)) == t && r in w.sending &&
        r.key == u.record.key
      ensures false {
      NotWaiting(w, us, home, t, shown, u, r);
    }
    hide Flow, FromPlace;
    assert forall u :: Unsent(w.(sending := []), home, u) == Unsent(w, home, u);
    hide Unsent;
  }

  lemma AttachedFlow(w: Worker, us: seq<Update>, home: Home, t: Target, shown: map<(Target, Key), Record>, floor: nat)
    requires w.Flush? && Flow(w, us, home, Some(t), shown) && ShownWaits(w, us, home, Some(t), shown)
    requires Within(us, w.base, floor)
    ensures Flow(w.(sending := []), us, home, None, ShowFile(shown, t, FileRecords(w.sending)))
  {
    hide PlaceOf, FromGroup, FromPlace, ShownAt, ShowFile, FileRecords;
    forall u | u in us && !Unsent(w, home, u)
      ensures ShownAt(ShowFile(shown, t, FileRecords(w.sending)), PlaceOf(home, SlotOf(u)), u.record.key,
          u.record.commit)
    {
      AttachedShown(w, us, home, t, shown, floor, u);
    }
    assert forall u :: Unsent(w.(sending := []), home, u) == Unsent(w, home, u);
    hide Unsent, InFlight;
  }

  lemma AttachedWaits(w: Worker, us: seq<Update>, home: Home, t: Target, shown: map<(Target, Key), Record>)
    requires w.Flush? && Flow(w, us, home, Some(t), shown) && ShownWaits(w, us, home, Some(t), shown) && Uniform(us)
    ensures ShownWaits(w.(sending := []), us, home, None, ShowFile(shown, t, FileRecords(w.sending)))
  {
    var w', shown' := w.(sending := []), ShowFile(shown, t, FileRecords(w.sending));
    hide PlaceOf, FromGroup, FromPlace, FileRecords, Uniform, ShowFile;
    forall u | u in us && (Unsent(w', home, u) || InFlight(w', home, None, u))
      ensures !ShownAt(shown', PlaceOf(home, SlotOf(u)), u.record.key, w'.base)
    {
      assert Unsent(w, home, u);
      var p, k := PlaceOf(home, SlotOf(u)), u.record.key;
      ShowFileLast(shown, t, FileRecords(w.sending), (p, k));
      if p == t && Last(FileRecords(w.sending), k).Some? {
        LastInBatch(w.sending, k);
        NotWaiting(w, us, home, t, shown, u, Last(FileRecords(w.sending), k).value);
      }
    }
  }

  /** Nothing shown becomes older. */
  lemma ShownGrows(w: Worker, us: seq<Update>, home: Home, t: Target, shown: map<(Target, Key), Record>, floor: nat)
    requires w.Flush? && Flow(w, us, home, Some(t), shown) && ShownWaits(w, us, home, Some(t), shown)
    requires Within(us, w.base, floor)
    requires ShownBelow(shown, floor)
    ensures var shown' := ShowFile(shown, t, FileRecords(w.sending));
            && ShownBelow(shown', floor)
            && forall p, k, c: nat :: ShownAt(shown, p, k, c) ==> ShownAt(shown', p, k, c)
  {
    hide Flow, ShownWaits, Within, FileRecords, ShowFile;
    var shown' := ShowFile(shown, t, FileRecords(w.sending));
    forall p | p in shown' ensures shown'[p].commit < floor {
      ShowFileLast(shown, t, FileRecords(w.sending), p);
      if p.0 == t && Last(FileRecords(w.sending), p.1).Some? {
        ReplacesOlder(w, us, home, t, shown, floor, p.1);
      }
    }
    forall p, k, c: nat | ShownAt(shown, p, k, c) ensures ShownAt(shown', p, k, c) {
      ShowFileLast(shown, t, FileRecords(w.sending), (p, k));
      if p == t && Last(FileRecords(w.sending), k).Some? {
        ReplacesOlder(w, us, home, t, shown, floor, k);
      }
    }
  }

  lemma AttachedReads(shown: map<(Target, Key), Record>, t: Target, batch: seq<Record>, cols: map<Target, Col>,
                      cols': map<Target, Col>)
    requires t in cols && ShownReads(shown, cols) && ReadsAfter(cols, cols', t, FileRecords(batch))
    ensures ShownReads(ShowFile(shown, t, FileRecords(batch)), cols')
  {
    hide FileRecords, ShowFile, Read;
    var shown' := ShowFile(shown, t, FileRecords(batch));
    forall p | p in shown'
      ensures p.0 in cols' && shown'[p].key == p.1 && Read(cols'[p.0], p.1) == Some(shown'[p].value) {
      ShowFileLast(shown, t, FileRecords(batch), p);
      assert p.0 in cols;
      if p.0 == t && Last(FileRecords(batch), p.1).Some? {
        LastInBatch(batch, p.1);
        assert Read(cols'[t], p.1) == Some(Last(FileRecords(batch), p.1).value.value);
      } else {
        assert Read(cols'[p.0], p.1) == Read(cols[p.0], p.1);
      }
    }
  }

  lemma AttachedIssued(w: Worker, us: seq<Update>, home: Home, t: Target, shown: map<(Target, Key), Record>,
                       issued: seq<Update>)
    requires w.Flush? && Flow(w, us, home, Some(t), shown) && ShownIssued(shown, issued) && AllIn(us, issued)
    ensures ShownIssued(ShowFile(shown, t, FileRecords(w.sending)), issued)
  {
    var shown' := ShowFile(shown, t, FileRecords(w.sending));
    forall p | p in shown' ensures IssuedAs(issued, SlotIn(p.0, p.1), shown'[p].commit, shown'[p].value) {
      ShowFileLast(shown, t, FileRecords(w.sending), p);
      if p.0 == t && Last(FileRecords(w.sending), p.1).Some? {
        var l := Last(FileRecords(w.sending), p.1).value;
        LastInBatch(w.sending, p.1);
        hide FileRecords, ShowFile;
        assert FromPlace(us, home, w.groups, t, l);
        var v :| v in us && PlaceOf(home, SlotOf(v)) == t && v.record == l && v.target !in w.groups;
        assert SlotOf(v) == SlotIn(t, p.1) && v in issued;
      }
    }
  }

  lemma GrownVisible(log: seq<Update>, issued: seq<Update>, p: PendingMap, shown: map<(Target, Key), Record>,
                     shown': map<(Target, Key), Record>, home: Home)
    requires Visible(log, issued, p, shown, home)
    requires forall t, k, c: nat :: ShownAt(shown, t, k, c) ==> ShownAt(shown', t, k, c)
    ensures Visible(log, issued, p, shown', home)
  {
    hide ShownAt, PendingAt, Alone, PlaceOf;
  }

  lemma FlushFacts(s: System)
    requires ManagerInv(s) && s.worker.Flush?
    ensures Within(FlushRecords(s), s.worker.base, s.floor) && Uniform(FlushRecords(s))
    ensures AllIn(FlushRecords(s), s.issued)
  {
    hide Fifo, SubmissionOk, Held, BuffersOk, Uniform, Within;
    if s.worker.buf < |s.mgr.buffers| {
      BufferedIsLogged(s.log, s.done, s.mgr.buffers, s.worker.buf);
    }
    assert Uniform([]) by { NoneUniform(); }
  }

  lemma NoneUniform()
    ensures Uniform([])
  {}

  lemma AttachedInv(s: System, s': System, threshold: nat)
    requires threshold > 0 && Enabled(s.store, PublishDelta) && s.worker.Flush? && s.worker.sending != []
    requires s' == s.(store := Step(s.store, PublishDelta, threshold), worker := s.worker.(sending := []),
                      shown := ShowFile(s.shown, s.store.attaching.value, AttachPhase(s.store).file.records))
    requires SystemInv(s, threshold)
    ensures SystemInv(s', threshold)
  {
    hide Within, Uniform, AllIn, Inv, ManagerInv, Visible, Flow, ChainWaits, ShownWaits, ShownReads, ChainsBelow;
    hide ShownBelow;
    hide ShownIssued, Step, HomeOk, FileRecords, ShowFile, InChain, ReadsAfter, Enabled;
    var t, us, w := s.store.attaching.value, FlushRecords(s), s.worker;
    var f, store' := FileRecords(w.sending), s'.store;
    FlushFacts(s);
    AttachedStore(s.store, w, threshold);
    hide AttachPhase;
    assert s'.shown == ShowFile(s.shown, t, f) && s'.worker == w.(sending := []);
    AttachedFlow(w, us, s.home, t, s.shown, s.floor);
    AttachedWaits(w, us, s.home, t, s.shown);
    AttachedChains(w, us, s.home, t, s.shown, s.store.cols, store'.cols, s.floor);
    ShownGrows(w, us, s.home, t, s.shown, s.floor);
    AttachedReads(s.shown, t, w.sending, s.store.cols, store'.cols);
    AttachedIssued(w, us, s.home, t, s.shown, s.issued);
    GrownVisible(s.log, s.issued, s.mgr.pending, s.shown, s'.shown, s.home);
    hide ShownAt;
    SameManager(s, s');
    assert FlushRecords(s') == us;
    hide FlushRecords;
  }

  lemma AttachedKeeps(s: System, threshold: nat)
    requires SystemInv(s, threshold) && Ready(s, Attached) && threshold > 0
    ensures SystemInv(Act(s, Attached, threshold), threshold)
  {
    hide SystemInv, Step;
    AttachedInv(s, Act(s, Attached, threshold), threshold);
  }

  // ---- Compaction moves topology records to a new table ----

  lemma MovedPlace(home: Home, t: Target, moved: set<Key>, x: Slot)
    requires x in home && t.generation == t.file
    ensures x in MoveHome(home, t, moved)
    ensures PlaceOf(MoveHome(home, t, moved), x) == if x.key in moved &&
        x == SlotIn(t, x.key) then t else PlaceOf(home, x)
  {}

  /** After the move, the place of a record shows exactly what the old place showed. */
  lemma MovedShown(shown: map<(Target, Key), Record>, home: Home, t: Target, moved: set<Key>, x: Slot)
    requires x in home && t.generation == t.file && PlaceOf(home, x) != t && forall p :: p in shown ==> p.0 != t
    ensures forall c: nat :: ShownAt(ShowMoved(shown, home, t, moved), PlaceOf(MoveHome(home, t, moved), x), x.key, c)
                         <==> ShownAt(shown, PlaceOf(home, x), x.key, c)
  {
    MovedPlace(home, t, moved, x);
  }

  lemma MovedHome(home: Home, targets: set<Target>, issued: seq<Update>, t: Target, moved: set<Key>)
    requires HomeOk(home, targets, issued) && t.generation == t.file && forall k :: k in moved ==> SlotIn(t, k) in home
    ensures HomeOk(MoveHome(home, t, moved), targets + {t}, issued)
  {
    forall x | x in MoveHome(home, t, moved) ensures PlaceOf(MoveHome(home, t, moved), x) in targets + {t} {
      MovedPlace(home, t, moved, x);
    }
  }

  /** What holds of every update whose topology record is known. */
  ghost predicate MovesAlong(us: seq<Update>, home: Home, home': Home, shown: map<(Target, Key), Record>,
                             shown': map<(Target, Key), Record>) {
    forall u, c: nat
      {:trigger ShownAt(shown', PlaceOf(home', SlotOf(u)), u.record.key, c)}
      {:trigger ShownAt(shown, PlaceOf(home, SlotOf(u)), u.record.key, c)} ::
      u in us ==> (ShownAt(shown', PlaceOf(home', SlotOf(u)), u.record.key, c) <==>
        ShownAt(shown, PlaceOf(home, SlotOf(u)), u.record.key, c))
  }

  lemma MovedFlow(w: Worker, us: seq<Update>, home: Home, home': Home, shown: map<(Target, Key), Record>,
                  shown': map<(Target, Key), Record>)
    requires MovesAlong(us, home, home', shown, shown') && !GroupOpen(w)
    requires Flow(w, us, home, None, shown) && ShownWaits(w, us, home, None, shown)
    ensures Flow(w, us, home', None, shown') && ShownWaits(w, us, home', None, shown')
  {
    hide ShownAt, PlaceOf, FromGroup, FromPlace;
    assert forall u :: Unsent(w, home', u) == Unsent(w, home, u);
    assert forall u :: !InFlight(w, home', None, u) && !InFlight(w, home, None, u);
    hide Unsent, InFlight;
  }

  lemma MovedChains(w: Worker, us: seq<Update>, home: Home, home': Home, cols: map<Target, Col>, cols': map<Target,
                    Col>)
    requires !GroupOpen(w) && ChainWaits(w, us, home, cols)
    requires forall u, r :: u in us && InChain(cols', PlaceOf(home', SlotOf(u)), r) ==>
        InChain(cols, PlaceOf(home, SlotOf(u)), r)
    ensures ChainWaits(w, us, home', cols')
  {
    hide InChain, PlaceOf;
    assert forall u :: Unsent(w, home', u) == Unsent(w, home, u);
    hide Unsent;
  }

  lemma MovedVisible(log: seq<Update>, issued: seq<Update>, p: PendingMap, home: Home, home': Home,
                     shown: map<(Target, Key), Record>, shown': map<(Target, Key), Record>)
    requires MovesAlong(log, home, home', shown, shown') && Visible(log, issued, p, shown, home)
    ensures Visible(log, issued, p, shown', home')
  {
    hide ShownAt, PlaceOf, Alone, PendingAt;
  }

  lemma MovedReads(shown: map<(Target, Key), Record>, home: Home, t: Target, moved: set<Key>, cols: map<Target, Col>,
                   origin: Column, floor: nat, issued: seq<Update>)
    requires ShownReads(shown, cols) && ShownBelow(shown, floor) && ShownIssued(shown, issued) && t !in cols
    requires forall k :: k in moved ==>
        PlaceOf(home, SlotIn(t, k)) in cols && Cell(origin, k) == Read(cols[PlaceOf(home, SlotIn(t, k))], k)
    ensures var shown' := ShowMoved(shown, home, t, moved);
            ShownReads(shown', cols[t := Fresh(origin)]) && ShownBelow(shown', floor) && ShownIssued(shown', issued)
  {
    hide IssuedAs;
    var shown', cols' := ShowMoved(shown, home, t, moved), cols[t := Fresh(origin)];
    forall p | p in shown'
      ensures p.0 in cols' && shown'[p].key == p.1 && Read(cols'[p.0], p.1) == Some(shown'[p].value)
                                && shown'[p].commit < floor &&
                                  IssuedAs(issued, SlotIn(p.0, p.1), shown'[p].commit, shown'[p].value) {
      if p.0 == t {
        var q := (PlaceOf(home, SlotIn(t, p.1)), p.1);
        assert q in shown && shown'[p] == shown[q];
        assert Read(cols'[t], p.1) == Cell(origin, p.1);
        assert SlotIn(q.0, q.1) == SlotIn(p.0, p.1);
      }
    }
  }

  lemma MovesAll(us: seq<Update>, home: Home, t: Target, moved: set<Key>, shown: map<(Target, Key), Record>,
                 cols: map<Target, Col>, origin: Column)
    requires t.generation == t.file && t !in cols && ShownReads(shown, cols)
    requires forall u :: u in us ==> SlotOf(u) in home && PlaceOf(home, SlotOf(u)) in cols
    ensures MovesAlong(us, home, MoveHome(home, t, moved), shown, ShowMoved(shown, home, t, moved))
    ensures forall u, r ::
      u in us && InChain(cols[t := Fresh(origin)], PlaceOf(MoveHome(home, t, moved), SlotOf(u)), r) ==>
        InChain(cols, PlaceOf(home, SlotOf(u)), r)
  {
    hide Read;
    var home', shown' := MoveHome(home, t, moved), ShowMoved(shown, home, t, moved);
    forall u, c: nat | u in us
      ensures ShownAt(shown', PlaceOf(home', SlotOf(u)), u.record.key, c) <==>
          ShownAt(shown, PlaceOf(home, SlotOf(u)), u.record.key, c)
    {
      MovedShown(shown, home, t, moved, SlotOf(u));
    }
    forall u, r | u in us && InChain(cols[t := Fresh(origin)], PlaceOf(home', SlotOf(u)), r)
      ensures InChain(cols, PlaceOf(home, SlotOf(u)), r) {
      MovedPlace(home, t, moved, SlotOf(u));
    }
  }

  lemma PlacesKnown(s: System)
    requires ManagerInv(s) && HomeOk(s.home, s.store.cols.Keys, s.issued)
    ensures forall u :: u in s.log ==> SlotOf(u) in s.home && PlaceOf(s.home, SlotOf(u)) in s.store.cols
    ensures forall u :: u in FlushRecords(s) ==> SlotOf(u) in s.home && PlaceOf(s.home, SlotOf(u)) in s.store.cols
  {
    hide ManagerInv, FlushRecords;
    KnownSlots(s);
  }

  lemma CompactInv(s: System, s': System, t: Target, origin: Column, moved: set<Key>, threshold: nat)
    requires threshold > 0 && CanCompact(s, t, origin, moved)
    requires s' ==
        s.(store := Step(s.store, AddColumn(t, origin), threshold), home := MoveHome(s.home, t, moved),
          shown := ShowMoved(s.shown, s.home, t, moved))
    requires SystemInv(s, threshold)
    ensures SystemInv(s', threshold)
  {
    hide Inv, ManagerInv, Visible, Flow, ChainWaits, ShownWaits, ShownReads, ChainsBelow, ShownBelow, ShownIssued, Step;
    hide HomeOk, Read;
    hide MovesAlong, MoveHome, ShowMoved;
    var us := FlushRecords(s);
    assert s.store.attaching.None?;
    AddedColumn(s.store, t, origin, threshold, s.floor, s.shown, s.worker);
    hide Enabled, SendingOk;
    PlacesKnown(s);
    MovesAll(s.log, s.home, t, moved, s.shown, s.store.cols, origin);
    MovesAll(us, s.home, t, moved, s.shown, s.store.cols, origin);
    MovedFlow(s.worker, us, s.home, s'.home, s.shown, s'.shown);
    MovedChains(s.worker, us, s.home, s'.home, s.store.cols, s'.store.cols);
    MovedVisible(s.log, s.issued, s.mgr.pending, s.home, s'.home, s.shown, s'.shown);
    MovedReads(s.shown, s.home, t, moved, s.store.cols, origin, s.floor, s.issued);
    MovedHome(s.home, s.store.cols.Keys, s.issued, t, moved);
    SameManager(s, s');
    assert FlushRecords(s') == us;
    assert s'.store.cols.Keys == s.store.cols.Keys + {t};
    hide FlushRecords, InChain, PlaceOf;
  }

  lemma CompactKeeps(s: System, t: Target, origin: Column, moved: set<Key>, threshold: nat)
    requires Ready(s, Compact(t, origin, moved)) && threshold > 0 && SystemInv(s, threshold)
    ensures SystemInv(Act(s, Compact(t, origin, moved), threshold), threshold)
  {
    hide SystemInv, Step;
    CompactInv(s, Act(s, Compact(t, origin, moved), threshold), t, origin, moved, threshold);
  }
}
