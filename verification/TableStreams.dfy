/** Reading one file as a merge way, and writing merged edges into files. */
module TableStreams {
  import opened Records
  import opened Topology
  import opened EdgeMerge
  import opened TableWriter

  // ---- Reading ----

  /** A cursor over the index entries `[first, last)` of a file; `last` is the sentinel or the next piece. */
  class Way {
    const file: OutFile
    const first: nat
    const last: nat
    var entry: nat
    var taken: nat
    ghost const edges: seq<Edge>

    ghost predicate Valid()
      reads this
    {
      && edges != [] && SortedEdges(edges) && Delimited(edges, file.table.index) && Increasing(file.table.index)
      && file.table.bodies == BodiesOf(edges) && file.rows == RowsOf(edges)
      && first <= entry < last < |file.table.index|
      && file.table.index[entry].offset <= file.table.index[first].offset + taken <= file.table.index[entry + 1].offset
      && (file.table.index[first].offset + taken == file.table.index[entry].offset ==> entry == first)
    }

    /** Edges of this way still to come. */
    ghost function Rest(): seq<Edge>
      requires Valid()
      reads this
    {
      var x := file.table.index;
      assert x[first].offset + taken <= x[last].offset <= |edges| by { Bounds(edges, x, entry, last); }
      edges[x[first].offset + taken..x[last].offset]
    }

    constructor (file: OutFile, first: nat, last: nat, ghost edges: seq<Edge>)
      requires edges != [] && SortedEdges(edges) && Delimited(edges, file.table.index) && Increasing(file.table.index)
      requires file.table.bodies == BodiesOf(edges) && file.rows == RowsOf(edges)
      requires first < last < |file.table.index|
      ensures Valid() && this.edges == edges && this.file == file && this.first == first && this.last == last
      ensures file.table.index[first].offset <= file.table.index[last].offset <= |edges|
      ensures Rest() == edges[file.table.index[first].offset..file.table.index[last].offset]
    {
      this.file, this.first, this.last, this.edges := file, first, last, edges;
      entry, taken := first, 0;
      new;
      Bounds(edges, file.table.index, first, last);
    }

    /** The next edge, or nothing once the entries are used up. */
    method NextEdge() returns (r: Option<Edge>)
      requires Valid()
      modifies this
      ensures r.None? <==> old(Rest()) == []
      ensures r.Some? ==> Valid() && old(Rest()) == [r.value] + Rest()
    {
      hide SortedEdges, Delimited, Increasing;
      var x := file.table.index;
      var offset := x[first].offset + taken;
      Bounds(edges, x, entry, last);
      if offset >= x[entry + 1].offset {
        entry := entry + 1;
        if entry >= last {
          return None;
        }
        Bounds(edges, x, entry, last);
      }
      SourceOf(edges, x, entry, offset);
      r := Some(Edge.Edge(x[entry].key, file.table.bodies[offset], file.rows[offset]));
      taken := taken + 1;
    }
  }

  lemma SourceOf(es: seq<Edge>, x: seq<Index>, i: nat, o: nat)
    requires Delimited(es, x) && i + 1 < |x| && x[i].offset <= o < x[i+1].offset && o < |es|
    ensures es[o].src == x[i].key
  {}

  lemma Bounds(es: seq<Edge>, x: seq<Index>, i: nat, j: nat)
    requires Delimited(es, x) && Increasing(x) && i < j < |x|
    ensures x[i].offset < x[i+1].offset <= x[j].offset <= |es|
  {}

  // ---- Writing ----

  /** A buffer with room beside the sentinel, and files with room for one edge. */
  predicate Sensible(l: Limits) {
    l.slots > 1 && l.header + l.body + l.entry < l.file
  }

  /** The fields of an open file describe its edges. */
  ghost predicate Holds(es: seq<Edge>, index: seq<Index>, bodies: seq<Body>, rows: seq<seq<Bytes>>,
                        current: Option<u64>, first: u64) {
    && index == IndexOf(es) && bodies == BodiesOf(es) && rows == RowsOf(es)
    && if es == [] then current.None? else current == Some(es[|es|-1].src) && first == es[0].src
  }

  ghost predicate Published(files: seq<OutFile>, done: seq<seq<Edge>>, invalid: u64) {
    && |files| == |done|
    && forall i :: 0 <= i < |done| ==> done[i] != [] && files[i] == FileOf(files[i].id, done[i], invalid)
  }

  /** Edges in the body buffer after `n` writes, when it is flushed at `m`. */
  function Buffered(n: nat, m: nat): nat {
    if n == 0 then 0
    else
      var b := Buffered(n - 1, m);
      if b + 1 >= m then 0 else b + 1
  }

  /** The buffer is empty exactly after a multiple of its capacity. */
  lemma BufferedIff(n: nat, m: nat)
    requires m > 0
    ensures Buffered(n, m) == 0 <==> IsMultiple(n, m)
  {
    var p := Flushes(n, m);
    forall q: nat | n == Times(q, m) ensures Buffered(n, m) == 0 {
      if p < q {
        TimesRises(p, q, m);
      } else if q < p {
        TimesRises(q, p, m);
      }
    }
  }

  ghost predicate IsMultiple(n: nat, m: nat) {
    exists q: nat :: n == Times(q, m)
  }

  function Times(q: nat, m: nat): nat {
    if q == 0 then 0 else Times(q - 1, m) + m
  }

  lemma {:induction false} TimesRises(p: nat, q: nat, m: nat)
    requires p < q
    ensures Times(p, m) + m <= Times(q, m)
    decreases q
  {
    if p < q - 1 {
      TimesRises(p, q - 1, m);
    }
  }

  lemma {:induction false} Flushes(n: nat, m: nat) returns (q: nat)
    requires m > 0
    ensures n == Times(q, m) + Buffered(n, m) && Buffered(n, m) < m
  {
    if n == 0 {
      q := 0;
    } else {
      q := Flushes(n - 1, m);
      if Buffered(n - 1, m) + 1 >= m {
        q := q + 1;
      }
    }
  }

  lemma HoldsStep(es: seq<Edge>, e: Edge, index: seq<Index>, bodies: seq<Body>, rows: seq<seq<Bytes>>,
                  current: Option<u64>, first: u64)
    requires Holds(es, index, bodies, rows, current, first) && (es == [] ==> first == e.src)
    ensures Holds(es + [e], if current == Some(e.src) then index else index + [Index(e.src, |bodies|)],
                  bodies + [e.body], rows + [e.props], Some(e.src), first)
  {
    hide IndexOf, BodiesOf, RowsOf;
    IndexStep(es, e);
    assert BodiesOf(es + [e]) == BodiesOf(es) + [e.body];
    assert RowsOf(es + [e]) == RowsOf(es) + [e.props];
  }

  lemma IndexStep(es: seq<Edge>, e: Edge)
    ensures IndexOf(es + [e]) == if es == [] ||
        e.src != es[|es|-1].src then IndexOf(es) + [Index(e.src, |es|)] else IndexOf(es)
  {
    hide IndexOf;
    var s, n := es + [e], |es|;
    assert s[..n] == es && s[n] == e;
    if n > 0 {
      assert s[n-1] == es[n-1];
    }
    IndexUnfolds(s);
  }

  lemma IndexUnfolds(s: seq<Edge>)
    requires s != []
    ensures var n := |s| - 1;
            IndexOf(s) == if n == 0 ||
              s[n].src != s[n-1].src then IndexOf(s[..n]) + [Index(s[n].src, n)] else IndexOf(s[..n])
  {}

  lemma HoldsNothing(first: u64)
    ensures Holds([], [], [], [], None, first)
  {}

  lemma PublishStep(files: seq<OutFile>, done: seq<seq<Edge>>, es: seq<Edge>, id: nat,
                    index: seq<Index>, bodies: seq<Body>, rows: seq<seq<Bytes>>, current: Option<u64>, first: u64,
                      invalid: u64)
    requires Published(files, done, invalid) && es != [] && Holds(es, index, bodies, rows, current, first)
    ensures Published(files + [OutFile(id, first, current.value, Table(index + [Index(invalid, |bodies|)], bodies),
        rows)], done + [es], invalid)
  {
    hide IndexOf;
  }

  /** Bytes of a file with these edges and its sentinels. */
  function FileSize(l: Limits, es: seq<Edge>): nat {
    l.header + (|es| + 1) * l.body + (|IndexOf(es)| + 1) * l.entry
  }

  lemma HeldSize(l: Limits, es: seq<Edge>, index: seq<Index>, bodies: seq<Body>, rows: seq<seq<Bytes>>,
                 current: Option<u64>, first: u64)
    requires Holds(es, index, bodies, rows, current, first)
    ensures FileSize(l, es) == l.header + (|bodies| + 1) * l.body + (|index| + 1) * l.entry
    ensures if es == [] then current.None? else current == Some(es[|es|-1].src)
  {}

  class SSTableWriter {
    const limits: Limits
    var id: nat
    var first: u64
    var current: Option<u64>
    var index: seq<Index>
    var bodies: seq<Body>
    var rows: seq<seq<Bytes>>
    var buffered: nat
    var files: seq<OutFile>
    ghost var pending: seq<Edge>   // edges of the open file
    ghost var open: bool
    ghost var done: seq<seq<Edge>> // edges of the published files

    ghost predicate Valid()
      reads this
    {
      && Sensible(limits)
      && Holds(pending, index, bodies, rows, current, first)
      && (open ==> buffered == Buffered(|pending|, limits.slots - 1))
      && Published(files, done, limits.invalid)
    }

    constructor (limits: Limits)
      requires Sensible(limits)
      ensures Valid() && this.limits == limits && pending == [] && !open && done == [] && files == []
    {
      HoldsNothing(0);
      this.limits := limits;
      id, first, current := 0, 0, None;
      index, bodies, rows, buffered, files := [], [], [], 0, [];
      pending, open, done := [], false, [];
    }

    /** Opens a new output file whose first edge has the given source. */
    method Init(first: u64, id: nat)
      requires Valid() && !open
      modifies this
      ensures Valid() && open && pending == [] && this.first == first && this.id == id
      ensures files == old(files) && done == old(done)
    {
      hide Holds, Published;
      HoldsNothing(first);
      this.first, this.id := first, id;
      current, index, bodies, rows, buffered := None, [], [], [], 0;
      pending, open := [], true;
    }

    function Size(): nat
      reads this
    {
      limits.header + (|bodies| + 1) * limits.body + (|index| + 1) * limits.entry
    }

    /** Closes the file with its sentinels and publishes it. */
    method WriteEnd()
      requires Valid() && open && pending != []
      modifies this
      ensures Valid() && !open && pending == old(pending) && first == old(first)
      ensures done == old(done) + [pending] && |files| == |old(files)| + 1
      ensures files[..|files|-1] == old(files) && files[|files|-1].id == id == old(id)
    {
      hide IndexOf, Published;
      PublishStep(files, done, pending, id, index, bodies, rows, current, first, limits.invalid);
      var sentinel := Index(limits.invalid, |bodies|);
      buffered := buffered + 1;
      files := files + [OutFile(id, first, current.value, Table(index + [sentinel], bodies), rows)];
      done := done + [pending];
      open := false;
    }

    /** Adds one edge; at a source change a full file is closed instead, and the edge refused. */
    method Write(e: Edge) returns (ok: bool)
      requires Valid() && open && (pending == [] ==> first == e.src)
      modifies this
      ensures Valid() && ok == open
      ensures ok == ((old(pending) != [] && old(pending)[|old(pending)|-1].src == e.src)
                     || FileSize(limits, old(pending)) < limits.file)
      ensures ok ==> pending == old(pending) + [e] && files == old(files) && done == old(done) && id == old(id)
      ensures !ok ==> pending == old(pending) != [] && pending[|pending|-1].src != e.src
      ensures !ok ==> done == old(done) + [pending] && |files| == |old(files)| + 1
      ensures !ok ==> files[..|files|-1] == old(files) && files[|files|-1].id == old(id)
    {
      hide Published, Holds, IndexOf;
      HoldsStep(pending, e, index, bodies, rows, current, first);
      HeldSize(limits, pending, index, bodies, rows, current, first);
      if current != Some(e.src) {
        if Size() >= limits.file {
          FullIsNotEmpty(limits, pending, index, bodies, rows, current, first);
          WriteEnd();
          return false;
        }
        current := Some(e.src);
        index := index + [Index(e.src, |bodies|)];
      }
      bodies := bodies + [e.body];
      rows := rows + [e.props];
      buffered := buffered + 1;
      if buffered >= limits.slots - 1 {
        buffered := 0;
      }
      pending := pending + [e];
      ok := true;
    }

    /** Looks only at the buffer, so a file whose buffer was just flushed looks empty. */
    predicate IsClear()
      reads this
    {
      buffered == 0
    }
  }

  lemma FullIsNotEmpty(l: Limits, es: seq<Edge>, index: seq<Index>, bodies: seq<Body>, rows: seq<seq<Bytes>>,
                       current: Option<u64>, first: u64)
    requires Sensible(l) && Holds(es, index, bodies, rows, current, first)
    requires l.header + (|bodies| + 1) * l.body + (|index| + 1) * l.entry >= l.file
    ensures es != [] && current == Some(es[|es|-1].src)
  {}

  // ---- A whole merge output ----

  /** Sources before `n` are below those from `n` on. */
  ghost predicate CutAt(es: seq<Edge>, n: nat) {
    n <= |es| && forall a, b :: 0 <= a < n <= b < |es| ==> es[a].src < es[b].src
  }

  /** Consecutive non-empty stretches, none of which splits a source. */
  ghost predicate Splits(es: seq<Edge>, bounds: seq<nat>) {
    && |bounds| > 0 && bounds[0] == 0
    && (forall i, j :: 0 <= i < j < |bounds| ==> bounds[i] < bounds[j])
    && (forall i :: 0 <= i < |bounds| ==> CutAt(es, bounds[i]))
  }

  ghost predicate FilesAre(files: seq<OutFile>, es: seq<Edge>, bounds: seq<nat>, invalid: u64) {
    && |files| < |bounds|
    && forall i :: 0 <= i < |files| ==>
      Stretch(es, bounds, i) != [] && files[i] == FileOf(files[i].id, Stretch(es, bounds, i), invalid)
  }

  ghost function Stretch(es: seq<Edge>, bounds: seq<nat>, i: nat): seq<Edge> {
    if i + 1 < |bounds| && bounds[i] <= bounds[i+1] <= |es| then es[bounds[i]..bounds[i+1]] else []
  }

  /** At every source change but its end the file still had room. */
  ghost predicate Tight(l: Limits, es: seq<Edge>) {
    forall n :: 0 < n < |es| && es[n-1].src != es[n].src ==> FileSize(l, es[..n]) < l.file
  }

  lemma TightMore(l: Limits, es: seq<Edge>, e: Edge)
    requires Tight(l, es) && (es == [] || es[|es|-1].src == e.src || FileSize(l, es) < l.file)
    ensures Tight(l, es + [e])
  {
    hide FileSize;
    forall n | 0 < n < |es| + 1 && (es + [e])[n-1].src != (es + [e])[n].src
      ensures FileSize(l, (es + [e])[..n]) < l.file
    {
      assert (es + [e])[..n] == es[..n];
      assert es[..|es|] == es;
    }
  }

  ghost predicate AllTight(l: Limits, done: seq<seq<Edge>>) {
    forall k :: 0 <= k < |done| ==> Tight(l, done[k]) && FileSize(l, done[k]) >= l.file
  }

  /** A new file is begun at the first source change that finds the file full, and nowhere else. */
  ghost predicate Filled(es: seq<Edge>, bounds: seq<nat>, l: Limits) {
    && (forall k :: 0 <= k < |bounds| - 1 ==> Tight(l, Stretch(es, bounds, k)))
    && (forall k :: 0 <= k < |bounds| - 2 ==> FileSize(l, Stretch(es, bounds, k)) >= l.file)
  }

  lemma AllFilled(es: seq<Edge>, bounds: seq<nat>, done: seq<seq<Edge>>, pending: seq<Edge>, l: Limits)
    requires Stretches(es, bounds, done + [pending], [], |es|) && AllTight(l, done) && Tight(l, pending)
    ensures Filled(es, bounds, l)
  {
    hide Tight, FileSize, Splits, Stretch;
    var all := done + [pending];
    assert forall k :: 0 <= k < |all| ==> all[k] == Stretch(es, bounds, k);
  }

  /** The files are the stretches between the bounds, all of them unless the last one fills the buffer exactly. */
  ghost predicate WrittenAs(files: seq<OutFile>, es: seq<Edge>, bounds: seq<nat>, limits: Limits) {
    && Splits(es, bounds) && |bounds| > 1 && bounds[|bounds|-1] == |es| && limits.slots > 0
    && FilesAre(files, es, bounds, limits.invalid) && Filled(es, bounds, limits)
    && |files| == if IsMultiple(|Stretch(es, bounds, |bounds|-2)|, limits.slots - 1) then |bounds| - 2 else |bounds| - 1
  }

  /** File ids are taken from a clock, in order. */
  ghost predicate Numbered(files: seq<OutFile>, clock: nat) {
    forall i :: 0 <= i < |files| ==> files[i].id == clock + i
  }

  lemma NoneNumbered(clock: nat)
    ensures Numbered([], clock)
  {}

  lemma OneMoreNumbered(files: seq<OutFile>, clock: nat)
    requires files != [] && Numbered(files[..|files|-1], clock) && files[|files|-1].id == clock + |files| - 1
    ensures Numbered(files, clock)
  {}

  /**
   Writes a merged stream. The files hold consecutive stretches of it that split no
   source, and together everything, unless the last stretch exactly fills the buffer
   a whole number of times: then it is never published.
   */
  method WriteMerged(es: seq<Edge>, limits: Limits, clock: nat) returns (files: seq<OutFile>, clock': nat)
    requires es != [] && SortedEdges(es)
    requires Sensible(limits)
    ensures exists bounds :: WrittenAs(files, es, bounds, limits)
    ensures Numbered(files, clock) && clock + |files| <= clock'
  {
    ghost var bounds: seq<nat>;
    hide SortedEdges, IndexOf, Splits, Stretches, Stretch, CutAt, Published, Holds, Buffered, FilesAre, IsMultiple;
    hide Numbered, Tight, AllTight, FileSize, Filled;
    NoneNumbered(clock);
    NoneTight(limits);
    var writer := new SSTableWriter(limits);
    clock' := clock;
    writer.Init(es[0].src, clock');
    clock' := clock' + 1;
    bounds := [0];
    StartStretch(es);
    var i := 0;
    while i < |es|
      invariant 0 <= i <= |es| && fresh(writer) && writer.Valid() && writer.open && writer.limits == limits
      invariant Stretches(es, bounds, writer.done, writer.pending, i)
      invariant i == 0 ==> writer.first == es[0].src
      invariant Numbered(writer.files, clock) && writer.id == clock + |writer.files| == clock' - 1
      invariant i > 0 ==> writer.pending != []
      invariant AllTight(limits, writer.done) && Tight(limits, writer.pending)
    {
      ghost var was := writer.pending;
      PendingIs(es, bounds, writer.done, writer.pending, i);
      var ok := writer.Write(es[i]);
      if !ok {
        CutHere(es, i);
        OneMoreNumbered(writer.files, clock);
        NextStretch(es, bounds, writer.done[..|writer.done|-1], writer.pending, i);
        OneMoreTight(limits, writer.done[..|writer.done|-1], writer.pending);
        bounds := bounds + [i];
        writer.Init(es[i].src, clock');
        clock' := clock' + 1;
        was := [];
        ok := writer.Write(es[i]);
      }
      TightMore(limits, was, es[i]);
      Lengthen(es, bounds, writer.done, writer.pending[..|writer.pending|-1], i);
      i := i + 1;
    }
    Finished(es, bounds, writer.done, writer.pending);
    ghost var closed, last := writer.done, writer.pending;
    BufferedIff(|writer.pending|, limits.slots - 1);
    if !writer.IsClear() {
      writer.WriteEnd();
      OneMoreNumbered(writer.files, clock);
    }
    files := writer.files;
    bounds := bounds + [|es|];
    AllFiles(files, es, bounds, writer.done, closed + [last], limits.invalid);
    AllFilled(es, bounds, closed, last, limits);
    assert WrittenAs(files, es, bounds, limits);
  }

  lemma NoneTight(l: Limits)
    ensures AllTight(l, []) && Tight(l, [])
  {}

  lemma OneMoreTight(l: Limits, done: seq<seq<Edge>>, es: seq<Edge>)
    requires AllTight(l, done) && Tight(l, es) && FileSize(l, es) >= l.file
    ensures AllTight(l, done + [es]) && Tight(l, [])
  {
    hide FileSize;
  }

  /** `done` are the closed stretches, `pending` the open one, up to edge `i`. */
  ghost predicate Stretches(es: seq<Edge>, bounds: seq<nat>, done: seq<seq<Edge>>, pending: seq<Edge>, i: nat) {
    && i <= |es| && Splits(es, bounds) && |bounds| == |done| + 1 && bounds[|bounds|-1] <= i
    && pending == es[bounds[|bounds|-1]..i]
    && forall k :: 0 <= k < |done| ==> done[k] != [] && done[k] == Stretch(es, bounds, k)
  }

  lemma StartStretch(es: seq<Edge>)
    ensures Stretches(es, [0], [], [], 0)
  {}

  lemma PendingIs(es: seq<Edge>, bounds: seq<nat>, done: seq<seq<Edge>>, pending: seq<Edge>, i: nat)
    requires Stretches(es, bounds, done, pending, i)
    ensures pending != [] ==> i > 0 && pending[|pending|-1] == es[i-1]
    ensures i == 0 ==> pending == []
  {}

  lemma SplitsMore(es: seq<Edge>, bounds: seq<nat>, i: nat)
    requires Splits(es, bounds) && bounds[|bounds|-1] < i && CutAt(es, i)
    ensures Splits(es, bounds + [i])
  {
    hide CutAt;
    var bs := bounds + [i];
    forall a, b | 0 <= a < b < |bs| ensures bs[a] < bs[b] {
      assert a < |bounds| - 1 ==> bounds[a] < bounds[|bounds|-1];
    }
  }

  lemma SameStretch(es: seq<Edge>, bounds: seq<nat>, i: nat, k: nat)
    requires k + 1 < |bounds|
    ensures Stretch(es, bounds + [i], k) == Stretch(es, bounds, k)
  {}

  lemma NextStretch(es: seq<Edge>, bounds: seq<nat>, done: seq<seq<Edge>>, pending: seq<Edge>, i: nat)
    requires Stretches(es, bounds, done, pending, i) && pending != [] && CutAt(es, i)
    ensures Stretches(es, bounds + [i], done + [pending], [], i)
  {
    hide Splits, CutAt;
    assert |bounds| > 0;
    SplitsMore(es, bounds, i);
    var bs, more := bounds + [i], done + [pending];
    forall k | 0 <= k < |more| ensures more[k] != [] && more[k] == Stretch(es, bs, k) {
      if k < |done| {
        SameStretch(es, bounds, i, k);
      }
    }
  }

  lemma Lengthen(es: seq<Edge>, bounds: seq<nat>, done: seq<seq<Edge>>, pending: seq<Edge>, i: nat)
    requires Stretches(es, bounds, done, pending, i) && i < |es|
    ensures Stretches(es, bounds, done, pending + [es[i]], i + 1)
  {}

  lemma Finished(es: seq<Edge>, bounds: seq<nat>, done: seq<seq<Edge>>, pending: seq<Edge>)
    requires Stretches(es, bounds, done, pending, |es|) && pending != []
    ensures Splits(es, bounds + [|es|]) && Stretch(es, bounds + [|es|], |bounds| - 1) == pending
    ensures |bounds| == |done| + 1 && Stretches(es, bounds + [|es|], done + [pending], [], |es|)
  {
    NextStretch(es, bounds, done, pending, |es|);
  }

  /** The published files are the first stretches. */
  lemma AllFiles(files: seq<OutFile>, es: seq<Edge>, bounds: seq<nat>, done: seq<seq<Edge>>, all: seq<seq<Edge>>,
                 invalid: u64)
    requires Published(files, done, invalid) && done <= all && Stretches(es, bounds, all, [], |es|)
    ensures FilesAre(files, es, bounds, invalid) && |files| == |done|
  {
    hide IndexOf, Splits, FileOf, Stretch;
    forall k | 0 <= k < |files|
      ensures Stretch(es, bounds, k) != [] && files[k] == FileOf(files[k].id, Stretch(es, bounds, k), invalid) {
      assert done[k] == all[k];
    }
  }

  lemma CutHere(es: seq<Edge>, i: nat)
    requires SortedEdges(es) && 0 < i < |es| && es[i-1].src != es[i].src
    ensures CutAt(es, i)
  {
    forall a, b | 0 <= a < i <= b < |es| ensures es[a].src < es[b].src {
      SourcesRise(es, a, i - 1);
      SourcesRise(es, i - 1, i);
      SourcesRise(es, i, b);
    }
  }

  // ---- A file that is never published ----

  /** Two edges of one source and a buffer of two slots beside the sentinel. */
  const LOST_EDGES := [Edge.Edge(0, Body(0, 0, true, 0, false), []), Edge.Edge(0, Body(1, 0, true, 0, false), [])]
  const LOST_LIMITS := Limits(0, 1, 1, 4, 3, 1)

  /**
   However this sorted stream is cut, nothing is published although it has edges: the
   only file ends just when its buffer was flushed and looks empty.
   */
  lemma FlushedFileIsLost(files: seq<OutFile>, bounds: seq<nat>)
    requires WrittenAs(files, LOST_EDGES, bounds, LOST_LIMITS)
    ensures Sensible(LOST_LIMITS) && SortedEdges(LOST_EDGES) && LOST_EDGES != []
    ensures files == []
  {
    hide FilesAre;
    assert LOST_EDGES[0].src == 0 == LOST_EDGES[1].src;
    assert bounds[1] != 1 by {
      assert CutAt(LOST_EDGES, bounds[1]);
    }
    assert |bounds| == 2;
    assert Times(0, 2) == 0 && Times(1, 2) == 2;
    assert IsMultiple(|Stretch(LOST_EDGES, bounds, 0)|, 2);
  }
}
