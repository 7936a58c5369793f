/**
 One property column: its delta chain in memory, its delta files, manifest
 entries and base column on disk, and every step that the flush worker, a merge
 owner, a crash or a restart takes on it. Each step is one mutex-protected
 region or one durable write of the source.
 */
module ColumnChain {
  import opened Records
  import opened DeltaBatch

  datatype DeltaFile = DeltaFile(gen: nat, records: seq<Record>)

  /** An immutable read view: the base mapping and the deltas, oldest first. */
  datatype View = View(base: Column, deltas: seq<DeltaFile>)

  datatype Chain = Chain(view: View, persistent: bool, busy: bool)

  /** A manifest entry of this column; the file name is determined by the generation. */
  datatype Entry = Entry(gen: nat, persistent: bool)

  /** How far the flush worker has come with one attachment. */
  datatype Attach =
    | NoAttach
    | Opened(batch: seq<Record>)
    | Created(file: DeltaFile)
    | Committed(file: DeltaFile)

  /** The durable steps of a merge: nothing yet, base renamed, prefix removed from the manifest. */
  datatype Stage = Taken | Renamed | Dropped

  /** How far a merge owner has come on this column. */
  datatype Merge =
    | Idle
    | Claimed(all: bool)
    | Running(all: bool, base: Column, batch: seq<DeltaFile>, stage: Stage)

  datatype Owner = Background | Caller

  datatype Col = Col(
    origin: Column,                 // values the table was written with
    files: map<nat, seq<Record>>,   // delta files on disk
    active: seq<Entry>,             // manifest entries, in commit order
    stored: Column,                 // the base column on disk
    chain: Option<Chain>,           // registered chain, if the process has one
    attach: Attach,
    background: Merge,
    caller: Merge,
    obsolete: set<nat>,             // files to unlink with their last reader
    committed: seq<Record>,         // every record ever committed, in commit order
    published: seq<Record>)         // those of them readers can see

  function Fresh(origin: Column): Col {
    Col(origin, map[], [], origin, None, NoAttach, Idle, Idle, {}, [], [])
  }

  function Flat(ds: seq<DeltaFile>): seq<Record> {
    if ds == [] then [] else Flat(ds[..|ds|-1]) + ds[|ds|-1].records
  }

  function MergeOf(c: Col, who: Owner): Merge {
    if who == Background then c.background else c.caller
  }

  function SetMerge(c: Col, who: Owner, m: Merge): Col {
    if who == Background then c.(background := m) else c.(caller := m)
  }

  /** What a reader of the column sees for one topology record. */
  function Read(c: Col, k: Key): Option<Bytes> {
    match c.chain
    case None => Cell(c.stored, k)
    case Some(chain) => ViewRead(chain.view.base, Flat(chain.view.deltas), k)
  }

  function Deltas(c: Col): seq<DeltaFile> {
    if c.chain.Some? then c.chain.value.view.deltas else []
  }

  predicate Busy(c: Col) {
    c.chain.Some? && c.chain.value.busy
  }

  /** Nothing became visible or invisible: the values the column stands for are the same. */
  predicate SameHistory(c: Col, d: Col) {
    d.origin == c.origin && d.published == c.published
  }

  /** No delta joined the chain and no new records are on their way into it. */
  predicate Settles(c: Col, d: Col) {
    && |Deltas(d)| <= |Deltas(c)| && Deltas(d) == Deltas(c)[|Deltas(c)| - |Deltas(d)|..]
    && NewRecords(d.attach) == NewRecords(c.attach)
  }

  // ---- Attaching one delta ----

  function ChainOrNew(c: Col): Chain {
    if c.chain.Some? then c.chain.value else Chain(View(c.stored, []), false, false)
  }

  /** `GetOrCreateChain`: registers the chain and notes a durable target. */
  function OpenAttach(c: Col, batch: seq<Record>, persistent: bool): (d: Col)
    ensures SameHistory(c, d)
  {
    var chain := ChainOrNew(c);
    c.(chain := Some(chain.(persistent := chain.persistent || persistent)), attach := Opened(batch))
  }

  function CreateFile(c: Col, gen: nat): (d: Col)
    requires c.attach.Opened?
    ensures SameHistory(c, d)
  {
    var file := DeltaFile(gen, FileRecords(c.attach.batch));
    c.(files := c.files[gen := file.records], attach := Created(file))
  }

  function CommitAdd(c: Col): (d: Col)
    requires c.attach.Created? && c.chain.Some?
    ensures SameHistory(c, d)
  {
    var file := c.attach.file;
    c.(active := c.active + [Entry(file.gen, c.chain.value.persistent)],
       committed := c.committed + file.records,
       attach := Committed(file))
  }

  /** True when publishing the attachment also takes ownership of a merge. */
  predicate SchedulesOnAttach(c: Col, threshold: nat)
    requires c.chain.Some?
  {
    var chain := c.chain.value;
    chain.persistent && !chain.busy && |chain.view.deltas| + 1 >= threshold
  }

  function PublishAdd(c: Col, threshold: nat): Col
    requires c.attach.Committed? && c.chain.Some?
  {
    var chain, file := c.chain.value, c.attach.file;
    var view := chain.view.(deltas := chain.view.deltas + [file]);
    c.(chain := Some(Chain(view, chain.persistent, chain.busy || SchedulesOnAttach(c, threshold))),
       published := c.published + file.records,
       attach := NoAttach)
  }

  // ---- Handing a mutable table over to its durable file ----

  function PromoteEntry(c: Col, i: nat): (d: Col)
    requires i < |c.active|
    ensures SameHistory(c, d)
  {
    c.(active := c.active[i := c.active[i].(persistent := true)])
  }

  predicate SchedulesOnMark(c: Col, threshold: nat) {
    c.chain.Some? && !c.chain.value.busy && |c.chain.value.view.deltas| >= threshold
  }

  function MarkPersistent(c: Col, threshold: nat): (d: Col)
    ensures SameHistory(c, d)
  {
    match c.chain
    case None => c
    case Some(chain) =>
      c.(chain := Some(chain.(persistent := true, busy := chain.busy || SchedulesOnMark(c, threshold))))
  }

  // ---- Merging a prefix into the base column ----

  /** The synchronous merge marks the chain busy itself; a queued job already did. */
  function Claim(c: Col, who: Owner, all: bool): (d: Col)
    requires c.chain.Some?
    ensures SameHistory(c, d)
  {
    SetMerge(c.(chain := Some(c.chain.value.(busy := true))), who, Claimed(all))
  }

  predicate HasWork(chain: Chain, all: bool, threshold: nat) {
    chain.persistent && chain.view.deltas != [] && (all || |chain.view.deltas| >= threshold)
  }

  function Capture(c: Col, who: Owner, threshold: nat): (d: Col)
    requires c.chain.Some? && MergeOf(c, who).Claimed?
    ensures SameHistory(c, d)
  {
    var chain, all := c.chain.value, MergeOf(c, who).all;
    if HasWork(chain, all, threshold) then
      var count := if all then |chain.view.deltas| else threshold;
      SetMerge(c, who, Running(all, chain.view.base, chain.view.deltas[..count], Taken))
    else
      SetMerge(c.(chain := Some(chain.(busy := false))), who, Idle)
  }

  /** The merged column replaces the base file: records written in chain order. */
  function RenameBase(c: Col, who: Owner): (d: Col)
    requires MergeOf(c, who).Running?
    ensures SameHistory(c, d)
  {
    var m := MergeOf(c, who);
    SetMerge(c.(stored := Overlay(m.base, Flat(m.batch))), who, m.(stage := Renamed))
  }

  predicate Names(batch: seq<DeltaFile>, e: Entry) {
    exists i :: 0 <= i < |batch| && batch[i].gen == e.gen
  }

  function Without(active: seq<Entry>, batch: seq<DeltaFile>): seq<Entry> {
    if active == [] then []
    else
      var rest := Without(active[..|active|-1], batch);
      if Names(batch, active[|active|-1]) then rest else rest + [active[|active|-1]]
  }

  function DropPrefix(c: Col, who: Owner): (d: Col)
    requires MergeOf(c, who).Running?
    ensures SameHistory(c, d)
  {
    var m := MergeOf(c, who);
    SetMerge(c.(active := Without(c.active, m.batch)), who, m.(stage := Dropped))
  }

  /** The two checks the publisher makes before it replaces the view. */
  predicate PrefixUnchanged(c: Col, who: Owner)
    requires MergeOf(c, who).Running?
  {
    var batch := MergeOf(c, who).batch;
    c.chain.Some? && |batch| <= |Deltas(c)| && Deltas(c)[..|batch|] == batch
  }

  predicate SchedulesNext(c: Col, who: Owner, threshold: nat)
    requires MergeOf(c, who).Running? && PrefixUnchanged(c, who)
  {
    var m := MergeOf(c, who);
    !m.all && c.chain.value.persistent && |Deltas(c)| - |m.batch| >= threshold
  }

  function PublishMerge(c: Col, who: Owner, threshold: nat): (d: Col)
    requires MergeOf(c, who).Running? && PrefixUnchanged(c, who)
    ensures SameHistory(c, d)
  {
    var m, chain := MergeOf(c, who), c.chain.value;
    var view := View(Overlay(m.base, Flat(m.batch)), chain.view.deltas[|m.batch|..]);
    SetMerge(c.(chain := Some(Chain(view, chain.persistent, SchedulesNext(c, who, threshold))),
                obsolete := c.obsolete + set f | f in m.batch :: f.gen), who, Idle)
  }

  function Unlink(c: Col, gen: nat): (d: Col)
    ensures SameHistory(c, d)
  {
    c.(files := c.files - {gen}, obsolete := c.obsolete - {gen})
  }

  // ---- Crash and restart ----

  function Crash(c: Col): Col {
    c.(chain := None, attach := NoAttach, background := Idle, caller := Idle, obsolete := {}, published := c.committed)
  }

  /** The delta files the manifest names; recovery opens each of them. */
  function Listed(c: Col): seq<DeltaFile>
    requires forall i :: 0 <= i < |c.active| ==> c.active[i].gen in c.files
  {
    seq(|c.active|, i requires 0 <= i < |c.active| => DeltaFile(c.active[i].gen, c.files[c.active[i].gen]))
  }

  function InsertByGen(ds: seq<DeltaFile>, d: DeltaFile): seq<DeltaFile> {
    if ds == [] || ds[|ds|-1].gen <= d.gen then ds + [d]
    else InsertByGen(ds[..|ds|-1], d) + [ds[|ds|-1]]
  }

  /** Recovery adds one file at a time and sorts the chain by generation. */
  function SortByGen(ds: seq<DeltaFile>): seq<DeltaFile> {
    if ds == [] then [] else InsertByGen(SortByGen(ds[..|ds|-1]), ds[|ds|-1])
  }

  function Reopen(c: Col, threshold: nat): Col
    requires forall i :: 0 <= i < |c.active| ==> c.active[i].gen in c.files
  {
    var deltas := SortByGen(Listed(c));
    c.(files := map g | g in c.files && (exists i :: 0 <= i < |c.active| && c.active[i].gen == g) :: c.files[g],
       chain := if c.active == [] then None
                else Some(Chain(View(c.stored, deltas), true, |deltas| >= threshold)))
  }

  // ---- The invariant of one column ----

  ghost predicate Ascending(ds: seq<DeltaFile>) {
    forall i, j :: 0 <= i < j < |ds| ==> ds[i].gen < ds[j].gen
  }

  /** Files in the chain or about to join it: rising generations, all above the obsolete ones. */
  ghost predicate Generations(all: seq<DeltaFile>, obsolete: set<nat>, nextGen: nat) {
    && Ascending(all)
    && (forall i :: 0 <= i < |all| ==> all[i].gen < nextGen)
    && (forall g :: g in obsolete ==> g < nextGen)
    && (forall g, i :: g in obsolete && 0 <= i < |all| ==> g < all[i].gen)
  }

  /** The manifest names exactly these files, in this order, and they are on disk. */
  ghost predicate Agrees(active: seq<Entry>, files: map<nat, seq<Record>>, live: seq<DeltaFile>) {
    && |active| == |live|
    && forall i :: 0 <= i < |live| ==> active[i].gen == live[i].gen && OnDisk(files, live[i])
  }

  predicate OnDisk(files: map<nat, seq<Record>>, f: DeltaFile) {
    f.gen in files && files[f.gen] == f.records
  }

  /** Only entries of a durable table are marked persistent. */
  ghost predicate Marks(active: seq<Entry>, durable: bool) {
    durable || forall i :: 0 <= i < |active| ==> !active[i].persistent
  }

  /** The view reads like the original values overwritten by everything published. */
  ghost predicate History(view: View, origin: Column, published: seq<Record>) {
    Overlay(view.base, Flat(view.deltas)) == Overlay(origin, published)
  }

  /** A committed attachment that readers do not see yet. */
  function Tail(a: Attach): seq<DeltaFile> {
    if a.Committed? then [a.file] else []
  }

  function NewFile(a: Attach): seq<DeltaFile> {
    if a.Created? || a.Committed? then [a.file] else []
  }

  function NewRecords(a: Attach): seq<Record> {
    match a
    case NoAttach => []
    case Opened(batch) => FileRecords(batch)
    case Created(file) => file.records
    case Committed(file) => file.records
  }

  function Current(c: Col): Merge {
    if c.background.Idle? then c.caller else c.background
  }

  /** Deltas the merge has already removed from the manifest. */
  function Gone(m: Merge): nat {
    if m.Running? && m.stage == Dropped then |m.batch| else 0
  }

  predicate PrefixOf(batch: seq<DeltaFile>, deltas: seq<DeltaFile>) {
    0 < |batch| <= |deltas| && batch == deltas[..|batch|]
  }

  ghost predicate MergeOk(m: Merge, chain: Chain, stored: Column) {
    && (!m.Idle? ==> chain.busy)
    && (m.Running? ==> m.base == chain.view.base && chain.persistent && PrefixOf(m.batch, chain.view.deltas))
    && stored == if m.Running? && m.stage != Taken then Overlay(chain.view.base, Flat(m.batch)) else chain.view.base
  }

  ghost predicate ChainOk(c: Col, chain: Chain, durable: bool, nextGen: nat) {
    var deltas := chain.view.deltas;
    && (c.background.Idle? || c.caller.Idle?)
    && (chain.persistent ==> durable)
    && Marks(c.active, durable)
    && MergeOk(Current(c), chain, c.stored)
    && Generations(deltas + NewFile(c.attach), c.obsolete, nextGen)
    && (c.attach.Created? ==> OnDisk(c.files, c.attach.file))
    && Agrees(c.active, c.files, deltas[Gone(Current(c))..] + Tail(c.attach))
    && Ordered(Flat(deltas) + NewRecords(c.attach))
    && History(chain.view, c.origin, c.published)
    && c.committed == c.published + Flat(Tail(c.attach))
  }

  /** Without threads at work on it. */
  ghost predicate Quiet(c: Col) {
    c.chain.None? && c.attach.NoAttach? && c.background.Idle? && c.caller.Idle? && c.obsolete == {} &&
      c.published == c.committed
  }

  ghost predicate NoChainOk(c: Col) {
    Quiet(c) && c.active == [] && c.stored == Overlay(c.origin, c.committed)
  }

  /** What the disk alone must give back. */
  ghost predicate Recoverable(c: Col, nextGen: nat) {
    && (forall i :: 0 <= i < |c.active| ==> c.active[i].gen in c.files)
    && Generations(Listed(c), {}, nextGen)
    && Ordered(Flat(Listed(c)))
    && Overlay(c.stored, Flat(Listed(c))) == Overlay(c.origin, c.committed)
  }

  ghost predicate DownOk(c: Col, durable: bool, nextGen: nat) {
    Quiet(c) && Marks(c.active, durable) && Recoverable(c, nextGen)
  }

  ghost predicate ColInv(c: Col, up: bool, durable: bool, nextGen: nat) {
    if !up then DownOk(c, durable, nextGen)
    else if c.chain.Some? then ChainOk(c, c.chain.value, durable, nextGen)
    else NoChainOk(c)
  }

  // ---- Sequences of delta files ----

  lemma DropAppend<T>(a: seq<T>, b: seq<T>, n: nat)
    requires n <= |a|
    ensures (a + b)[n..] == a[n..] + b
    ensures (a + b)[..n] == a[..n]
  {}

  lemma Assoc<T>(a: seq<T>, b: seq<T>, c: seq<T>)
    ensures (a + b) + c == a + (b + c)
    ensures a + [] == a
  {}

  lemma {:induction false} FlatAppend(a: seq<DeltaFile>, b: seq<DeltaFile>)
    ensures Flat(a + b) == Flat(a) + Flat(b)
    decreases |b|
  {
    if b == [] {
      assert a + b == a;
    } else {
      FlatAppend(a, b[..|b|-1]);
      assert (a + b)[..|a + b|-1] == a + b[..|b|-1];
    }
  }

  lemma FlatOne(f: DeltaFile)
    ensures Flat([f]) == f.records
  {
    assert [f][..0] == [];
  }

  lemma FlatNone()
    ensures Flat([]) == []
  {}

  lemma NoFiles(files: map<nat, seq<Record>>, durable: bool, nextGen: nat)
    ensures Generations([], {}, nextGen) && Agrees([], files, []) && Marks([], durable) && Ordered([])
    ensures Flat([]) == [] && forall base :: Overlay(base, []) == base
  {}

  lemma FlatSplit(ds: seq<DeltaFile>, n: nat)
    requires n <= |ds|
    ensures Flat(ds) == Flat(ds[..n]) + Flat(ds[n..])
  {
    hide Flat;
    FlatAppend(ds[..n], ds[n..]);
    assert ds[..n] + ds[n..] == ds;
  }

  lemma {:induction false} AscendingIsSorted(ds: seq<DeltaFile>)
    requires Ascending(ds)
    ensures SortByGen(ds) == ds
  {
    if ds != [] {
      AscendingIsSorted(ds[..|ds|-1]);
    }
  }

  /** Removing the prefix's names leaves the entries of the rest, in order. */
  lemma {:induction false} WithoutPrefix(active: seq<Entry>, batch: seq<DeltaFile>)
    requires |batch| <= |active|
    requires forall i :: 0 <= i < |batch| ==> active[i].gen == batch[i].gen
    requires forall i, j :: 0 <= i < j < |active| ==> active[i].gen < active[j].gen
    ensures Without(active, batch) == active[|batch|..]
    decreases |active|
  {
    if active != [] {
      var n := |active| - 1;
      if |batch| == |active| {
        assert batch[n].gen == active[n].gen;
        WithoutAll(active, batch);
      } else {
        WithoutPrefix(active[..n], batch);
        assert !Names(batch, active[n]);
        assert active[..n][|batch|..] + [active[n]] == active[|batch|..];
      }
    }
  }

  lemma {:induction false} WithoutAll(active: seq<Entry>, batch: seq<DeltaFile>)
    requires |active| <= |batch|
    requires forall i :: 0 <= i < |active| ==> active[i].gen == batch[i].gen
    ensures Without(active, batch) == []
  {
    if active != [] {
      assert batch[|active|-1].gen == active[|active|-1].gen;
      WithoutAll(active[..|active|-1], batch);
    }
  }

  // ---- Every step keeps the invariant ----

  /** The batch's commits are not below those already in the chain, key by key. */
  ghost predicate Follows(s: seq<Record>, batch: seq<Record>) {
    forall x, y :: x in s && y in batch && x.key == y.key ==> x.commit <= y.commit
  }

  lemma FollowsOrdered(s: seq<Record>, batch: seq<Record>)
    requires Ordered(s) && Follows(s, batch)
    ensures Ordered(s + FileRecords(batch))
  {
    FileReadsLikeBatch(batch);
    var f := FileRecords(batch);
    forall i, j | 0 <= i < j < |s + f| && (s + f)[i].key == (s + f)[j].key
      ensures (s + f)[i].commit <= (s + f)[j].commit
    {
      if i < |s| && |s| <= j {
        assert s[i] in s && f[j-|s|] in f;
      }
    }
  }

  lemma OpenAttachKeeps(c: Col, batch: seq<Record>, persistent: bool, durable: bool, nextGen: nat)
    requires ColInv(c, true, durable, nextGen)
    requires c.attach.NoAttach? && (persistent ==> durable)
    requires Follows(Flat(Deltas(c)), batch)
    ensures ColInv(OpenAttach(c, batch, persistent), true, durable, nextGen)
  {
    hide Generations, Marks, Agrees, Ordered, Flat, Overlay;
    Assoc(Flat(Deltas(c)), [], []);
    NoFiles(c.files, durable, nextGen);
    FollowsOrdered(Flat(Deltas(c)), batch);
    Assoc(c.published, [], []);
  }

  lemma AddGeneration(all: seq<DeltaFile>, f: DeltaFile, obsolete: set<nat>, nextGen: nat)
    requires Generations(all, obsolete, nextGen) && f.gen == nextGen
    ensures Generations(all + [f], obsolete, nextGen + 1)
  {}

  lemma OlderFilesStay(active: seq<Entry>, files: map<nat, seq<Record>>, ds: seq<DeltaFile>, gone: nat, f: DeltaFile)
    requires gone <= |ds| && Agrees(active, files, ds[gone..] + [])
    requires forall i :: 0 <= i < |ds| ==> ds[i].gen < f.gen
    ensures Agrees(active, files[f.gen := f.records], ds[gone..] + [])
  {
    assert forall i :: 0 <= i < |ds[gone..]| ==> ds[gone..][i] == ds[gone + i];
  }

  lemma CreateFileKeeps(c: Col, durable: bool, nextGen: nat)
    requires ColInv(c, true, durable, nextGen) && c.chain.Some? && c.attach.Opened?
    ensures ColInv(CreateFile(c, nextGen), true, durable, nextGen + 1)
  {
    hide Ordered, Agrees, Marks;
    var f := CreateFile(c, nextGen).attach.file;
    Assoc(Deltas(c), [], []);
    AddGeneration(Deltas(c), f, c.obsolete, nextGen);
    OlderFilesStay(c.active, c.files, Deltas(c), Gone(Current(c)), f);
  }

  lemma AgreesAppend(active: seq<Entry>, files: map<nat, seq<Record>>, live: seq<DeltaFile>, e: Entry, f: DeltaFile)
    requires Agrees(active, files, live) && e.gen == f.gen && OnDisk(files, f)
    ensures Agrees(active + [e], files, live + [f])
  {}

  lemma MarksAppend(active: seq<Entry>, e: Entry, durable: bool)
    requires Marks(active, durable) && (e.persistent ==> durable)
    ensures Marks(active + [e], durable)
  {}

  lemma CommitAddKeeps(c: Col, durable: bool, nextGen: nat)
    requires ColInv(c, true, durable, nextGen) && c.chain.Some? && c.attach.Created?
    ensures ColInv(CommitAdd(c), true, durable, nextGen)
  {
    hide Ordered, Generations, Agrees, Marks;
    var f, rest := c.attach.file, Deltas(c)[Gone(Current(c))..];
    FlatOne(f);
    FlatNone();
    Assoc(rest, [], []);
    Assoc(c.published, [], []);
    AgreesAppend(c.active, c.files, rest, Entry(f.gen, c.chain.value.persistent), f);
    MarksAppend(c.active, Entry(f.gen, c.chain.value.persistent), durable);
  }

  lemma HistoryAppend(view: View, origin: Column, published: seq<Record>, f: DeltaFile)
    requires History(view, origin, published)
    ensures History(view.(deltas := view.deltas + [f]), origin, published + f.records)
  {
    hide Overlay, Flat;
    FlatOne(f);
    FlatAppend(view.deltas, [f]);
    OverlayAppend(view.base, Flat(view.deltas), f.records);
    OverlayAppend(origin, published, f.records);
  }

  lemma PublishAddKeeps(c: Col, threshold: nat, durable: bool, nextGen: nat)
    requires ColInv(c, true, durable, nextGen) && c.chain.Some? && c.attach.Committed?
    ensures ColInv(PublishAdd(c, threshold), true, durable, nextGen)
  {
    hide Ordered, Generations, Agrees, Marks, History, Overlay, Flat;
    var f, view, gone := c.attach.file, c.chain.value.view, Gone(Current(c));
    FlatOne(f);
    FlatNone();
    FlatAppend(view.deltas, [f]);
    HistoryAppend(view, c.origin, c.published, f);
    DropAppend(view.deltas, [f], gone);
    Assoc(view.deltas + [f], [], []);
    Assoc((view.deltas + [f])[gone..], [], []);
    Assoc(Flat(view.deltas) + f.records, [], []);
    Assoc(c.published + f.records, [], []);
  }

  lemma PromoteEntryKeeps(c: Col, i: nat, up: bool, nextGen: nat)
    requires ColInv(c, up, true, nextGen) && i < |c.active|
    ensures ColInv(PromoteEntry(c, i), up, true, nextGen)
  {
    if !up {
      assert Listed(PromoteEntry(c, i)) == Listed(c);
    }
  }

  lemma MarkPersistentKeeps(c: Col, threshold: nat, nextGen: nat)
    requires ColInv(c, true, true, nextGen)
    ensures ColInv(MarkPersistent(c, threshold), true, true, nextGen)
  {
    hide Ordered, Generations, Agrees, Marks, History, Overlay, Flat;
  }

  lemma ClaimKeeps(c: Col, who: Owner, all: bool, durable: bool, nextGen: nat)
    requires ColInv(c, true, durable, nextGen) && c.chain.Some?
    requires c.background.Idle? && c.caller.Idle?
    ensures ColInv(Claim(c, who, all), true, durable, nextGen)
  {
    hide Ordered, Generations, Agrees, Marks, History, Overlay, Flat;
  }

  lemma CaptureKeeps(c: Col, who: Owner, threshold: nat, durable: bool, nextGen: nat)
    requires ColInv(c, true, durable, nextGen) && c.chain.Some? && threshold > 0
    requires MergeOf(c, who).Claimed?
    ensures ColInv(Capture(c, who, threshold), true, durable, nextGen)
  {
    hide Ordered, Generations, Agrees, Marks, History, Overlay, Flat;
    var chain, all := c.chain.value, MergeOf(c, who).all;
    if HasWork(chain, all, threshold) {
      var batch := chain.view.deltas[..if all then |chain.view.deltas| else threshold];
      assert PrefixOf(batch, chain.view.deltas);
    }
  }

  lemma RenameBaseKeeps(c: Col, who: Owner, durable: bool, nextGen: nat)
    requires ColInv(c, true, durable, nextGen) && c.chain.Some?
    requires MergeOf(c, who).Running? && MergeOf(c, who).stage == Taken
    ensures ColInv(RenameBase(c, who), true, durable, nextGen)
  {
    hide Ordered, Generations, Agrees, Marks, History, Overlay, Flat;
  }

  lemma EntriesAscend(active: seq<Entry>, files: map<nat, seq<Record>>, ds: seq<DeltaFile>, a: Attach,
                      obsolete: set<nat>, nextGen: nat)
    requires Generations(ds + NewFile(a), obsolete, nextGen) && Agrees(active, files, ds + Tail(a))
    ensures forall i, j :: 0 <= i < j < |active| ==> active[i].gen < active[j].gen
  {
    var live := ds + Tail(a);
    assert forall i :: 0 <= i < |live| ==> live[i] == (ds + NewFile(a))[i] && active[i].gen == live[i].gen;
  }

  lemma AgreesDrop(active: seq<Entry>, files: map<nat, seq<Record>>, live: seq<DeltaFile>, n: nat)
    requires n <= |live| && Agrees(active, files, live)
    ensures Agrees(active[n..], files, live[n..])
  {}

  lemma DropNames(active: seq<Entry>, files: map<nat, seq<Record>>, ds: seq<DeltaFile>, a: Attach, n: nat,
                  obsolete: set<nat>, nextGen: nat)
    requires n <= |ds| && Generations(ds + NewFile(a), obsolete, nextGen) && Agrees(active, files, ds + Tail(a))
    ensures n <= |active| && Without(active, ds[..n]) == active[n..] && Agrees(active[n..], files, ds[n..] + Tail(a))
  {
    EntriesAscend(active, files, ds, a, obsolete, nextGen);
    hide Generations, Ascending;
    var live, batch := ds + Tail(a), ds[..n];
    assert forall i :: 0 <= i < n ==> batch[i] == live[i];
    WithoutPrefix(active, batch);
    DropAppend(ds, Tail(a), n);
    AgreesDrop(active, files, live, n);
  }

  lemma DropMarks(active: seq<Entry>, n: nat, durable: bool)
    requires n <= |active| && Marks(active, durable)
    ensures Marks(active[n..], durable)
  {}

  lemma DropPrefixKeeps(c: Col, who: Owner, durable: bool, nextGen: nat)
    requires ColInv(c, true, durable, nextGen) && c.chain.Some?
    requires MergeOf(c, who).Running? && MergeOf(c, who).stage == Renamed
    ensures ColInv(DropPrefix(c, who), true, durable, nextGen)
  {
    hide Ordered, Generations, Agrees, Marks, History;
    var batch, deltas := MergeOf(c, who).batch, Deltas(c);
    assert deltas[0..] == deltas && batch == deltas[..|batch|];
    DropNames(c.active, c.files, deltas, c.attach, |batch|, c.obsolete, nextGen);
    DropMarks(c.active, |batch|, durable);
  }

  lemma PublishMergeKeeps(c: Col, who: Owner, threshold: nat, durable: bool, nextGen: nat)
    requires ColInv(c, true, durable, nextGen) && c.chain.Some?
    requires MergeOf(c, who).Running? && MergeOf(c, who).stage == Dropped
    ensures PrefixUnchanged(c, who)
    ensures ColInv(PublishMerge(c, who, threshold), true, durable, nextGen)
  {
    hide Ordered, Generations, Agrees, Marks, Overlay, Flat;
    var m, view := MergeOf(c, who), c.chain.value.view;
    var n, joining := |m.batch|, NewFile(c.attach);
    assert m.batch == view.deltas[..n];
    FlatSplit(view.deltas, n);
    OverlayAppend(view.base, Flat(m.batch), Flat(view.deltas[n..]));
    Assoc(Flat(m.batch), Flat(view.deltas[n..]), NewRecords(c.attach));
    OrderedParts(Flat(m.batch), Flat(view.deltas[n..]) + NewRecords(c.attach));
    DropAppend(view.deltas, joining, n);
    DropGenerations(view.deltas + joining, n, c.obsolete, nextGen);
    DropAppend(view.deltas[n..], [], 0);
  }

  lemma DropGenerations(all: seq<DeltaFile>, n: nat, obsolete: set<nat>, nextGen: nat)
    requires n <= |all| && Generations(all, obsolete, nextGen)
    ensures Generations(all[n..], obsolete + set f | f in all[..n] :: f.gen, nextGen)
  {
    var gens := set f | f in all[..n] :: f.gen;
    forall g | g in gens ensures g < nextGen && forall i :: 0 <= i < |all[n..]| ==> g < all[n..][i].gen {
      var j :| 0 <= j < n && all[j].gen == g;
      assert forall i :: 0 <= i < |all[n..]| ==> all[n..][i] == all[n + i];
    }
  }

  lemma UnlinkFiles(active: seq<Entry>, files: map<nat, seq<Record>>, ds: seq<DeltaFile>, a: Attach, gone: nat,
                    obsolete: set<nat>, gen: nat, nextGen: nat)
    requires gone <= |ds| && gen in obsolete && Generations(ds + NewFile(a), obsolete, nextGen)
    requires Agrees(active, files, ds[gone..] + Tail(a))
    ensures Agrees(active, files - {gen}, ds[gone..] + Tail(a))
    ensures Generations(ds + NewFile(a), obsolete - {gen}, nextGen)
    ensures a.Created? && OnDisk(files, a.file) ==> OnDisk(files - {gen}, a.file)
  {
    var live := ds[gone..] + Tail(a);
    forall i | 0 <= i < |live| ensures live[i].gen != gen {
      assert live[i] == (ds + NewFile(a))[gone + i];
    }
    assert a.Created? ==> (ds + NewFile(a))[|ds|] == a.file;
  }

  lemma UnlinkKeeps(c: Col, gen: nat, durable: bool, nextGen: nat)
    requires ColInv(c, true, durable, nextGen) && gen in c.obsolete
    ensures ColInv(Unlink(c, gen), true, durable, nextGen)
  {
    hide Ordered, Marks, History, Generations, Agrees;
    if c.chain.Some? {
      UnlinkFiles(c.active, c.files, Deltas(c), c.attach, Gone(Current(c)), c.obsolete, gen, nextGen);
    }
  }

  // ---- A crash between any two steps is harmless ----

  /** Whatever step was last, the disk gives back everything committed. */
  lemma DiskHoldsCommitted(c: Col, durable: bool, nextGen: nat)
    requires ColInv(c, true, durable, nextGen)
    ensures Recoverable(c, nextGen)
  {
    hide Ordered, Generations, Agrees, Marks;
    var tail := Tail(c.attach);
    if c.chain.None? {
      assert Listed(c) == [];
      NoFiles(c.files, durable, nextGen);
    } else {
      var deltas, gone := c.chain.value.view.deltas, Gone(Current(c));
      DropAppend(deltas, tail, gone);
      ListedIsLive(c, deltas[gone..] + tail);
      CommittedGenerations(deltas, c.attach, gone, c.obsolete, nextGen);
      CommittedIsOrdered(deltas, c.attach, gone);
      DiskReadsCommitted(Current(c), c.chain.value, c.stored, tail, c.origin, c.published);
    }
  }

  lemma ListedIsLive(c: Col, live: seq<DeltaFile>)
    requires Agrees(c.active, c.files, live)
    ensures forall i :: 0 <= i < |c.active| ==> c.active[i].gen in c.files
    ensures Listed(c) == live
  {
    forall i | 0 <= i < |c.active| ensures c.active[i].gen in c.files {
      assert OnDisk(c.files, live[i]);
    }
  }

  lemma CommittedGenerations(ds: seq<DeltaFile>, a: Attach, gone: nat, obsolete: set<nat>, nextGen: nat)
    requires gone <= |ds| && Generations(ds + NewFile(a), obsolete, nextGen)
    ensures Generations((ds + Tail(a))[gone..], {}, nextGen)
  {
    var live := (ds + Tail(a))[gone..];
    assert forall i :: 0 <= i < |live| ==> live[i] == (ds + NewFile(a))[gone + i];
  }

  lemma CommittedIsOrdered(ds: seq<DeltaFile>, a: Attach, gone: nat)
    requires Ordered(Flat(ds) + NewRecords(a)) && gone <= |ds|
    ensures Ordered(Flat((ds + Tail(a))[gone..]))
  {
    var all := ds + Tail(a);
    FlatAppend(ds, Tail(a));
    if a.Committed? {
      FlatOne(a.file);
    } else {
      FlatNone();
      OrderedParts(Flat(ds), NewRecords(a));
      Assoc(Flat(ds), [], []);
    }
    FlatSplit(all, gone);
    OrderedParts(Flat(all[..gone]), Flat(all[gone..]));
  }

  lemma DiskReadsCommitted(m: Merge, chain: Chain, stored: Column, tail: seq<DeltaFile>, origin: Column,
                           published: seq<Record>)
    requires MergeOk(m, chain, stored) && History(chain.view, origin, published)
    ensures Overlay(stored, Flat(chain.view.deltas[Gone(m)..] + tail)) == Overlay(origin, published + Flat(tail))
  {
    hide Overlay, Flat;
    var base, deltas := chain.view.base, chain.view.deltas;
    var all := deltas + tail;
    FlatAppend(deltas, tail);
    OverlayAppend(base, Flat(deltas), Flat(tail));
    OverlayAppend(origin, published, Flat(tail));
    DropAppend(deltas, tail, Gone(m));
    assert all[0..] == all;
    if m.Running? && m.stage != Taken {
      assert m.batch == deltas[..|m.batch|];
      DropAppend(deltas, tail, |m.batch|);
      ReplayMergedPrefix(base, all, |m.batch|);
    }
  }

  /** Once the base holds a merged prefix, replaying that prefix or skipping it reads the same. */
  lemma ReplayMergedPrefix(base: Column, ds: seq<DeltaFile>, n: nat)
    requires n <= |ds|
    ensures Overlay(Overlay(base, Flat(ds[..n])), Flat(ds)) == Overlay(base, Flat(ds))
    ensures Overlay(Overlay(base, Flat(ds[..n])), Flat(ds[n..])) == Overlay(base, Flat(ds))
  {
    FlatSplit(ds, n);
    OverlayIdempotent(base, Flat(ds[..n]), Flat(ds[n..]));
    OverlayAppend(base, Flat(ds[..n]), Flat(ds[n..]));
  }

  lemma CrashKeeps(c: Col, durable: bool, nextGen: nat)
    requires ColInv(c, true, durable, nextGen)
    ensures ColInv(Crash(c), false, durable, nextGen)
  {
    DiskHoldsCommitted(c, durable, nextGen);
    assert Listed(Crash(c)) == Listed(c);
  }

  lemma ReopenedFiles(c: Col, threshold: nat)
    requires forall i :: 0 <= i < |c.active| ==> c.active[i].gen in c.files
    ensures Agrees(Reopen(c, threshold).active, Reopen(c, threshold).files, Listed(c))
  {
    var d, listed := Reopen(c, threshold), Listed(c);
    forall i | 0 <= i < |listed| ensures d.active[i].gen == listed[i].gen && OnDisk(d.files, listed[i]) {
      assert c.active[i].gen == listed[i].gen;
    }
  }

  lemma ListedGenerations(c: Col, nextGen: nat, next': nat)
    requires Recoverable(c, nextGen)
    requires forall i :: 0 <= i < |c.active| ==> c.active[i].gen < next'
    ensures Generations(Listed(c), {}, next')
  {
    assert forall i :: 0 <= i < |c.active| ==> Listed(c)[i].gen == c.active[i].gen;
  }

  lemma ReopenKeeps(c: Col, threshold: nat, nextGen: nat, next': nat)
    requires ColInv(c, false, true, nextGen)
    requires forall i :: 0 <= i < |c.active| ==> c.active[i].gen < next'
    ensures ColInv(Reopen(c, threshold), true, true, next')
  {
    hide Ordered, Agrees, Marks, Overlay, Flat;
    var d, listed := Reopen(c, threshold), Listed(c);
    AscendingIsSorted(listed);
    ListedGenerations(c, nextGen, next');
    hide Generations;
    NoFiles(c.files, true, nextGen);
    if c.active == [] {
      assert listed == [];
    } else {
      Assoc(Flat(listed), [], []);
      DropAppend(listed, [], 0);
      Assoc(listed, [], []);
      Assoc(c.committed, [], []);
      ReopenedFiles(c, threshold);
    }
  }

  // ---- More generations, a table that becomes durable ----

  lemma LaterGenerations(c: Col, up: bool, durable: bool, nextGen: nat, next': nat)
    requires ColInv(c, up, durable, nextGen) && nextGen <= next'
    ensures ColInv(c, up, durable, next')
  {
    hide Ordered, Agrees, Marks, Overlay, Flat, MergeOk, History;
  }

  lemma BecomesDurable(c: Col, up: bool, durable: bool, nextGen: nat)
    requires ColInv(c, up, durable, nextGen)
    ensures ColInv(c, up, true, nextGen)
  {
    hide Ordered, Agrees, Generations, Overlay, Flat, MergeOk, History;
  }

  /** Readers of a live column see the last published write of every record, else the original value. */
  lemma ReadIsPublished(c: Col, durable: bool, nextGen: nat, k: Key)
    requires ColInv(c, true, durable, nextGen)
    ensures Read(c, k) == Cell(Overlay(c.origin, c.published), k)
  {
    if c.chain.Some? {
      var s := Flat(c.chain.value.view.deltas);
      OrderedParts(s, NewRecords(c.attach));
      OrderedViewIsOverlay(c.chain.value.view.base, s, k);
    }
  }
}
