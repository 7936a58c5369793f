/** From merged inputs to published outputs: what a compaction hands to the level index. */
module CompactionRun {
  import opened Records
  import opened Topology
  import opened Interleaving
  import opened EdgeMerge
  import opened TableWriter
  import opened TableStreams
  import opened LevelIndex
  import opened CompactionInputs

  ghost predicate HasSource(es: seq<Edge>, v: u64) {
    exists o :: 0 <= o < |es| && es[o].src == v
  }

  /** The index of a file lists exactly the sources of its edges. */
  lemma FileSources(id: nat, es: seq<Edge>, invalid: u64, v: u64)
    requires es != [] && SortedEdges(es) && forall i :: 0 <= i < |es| ==> es[i].src < invalid
    ensures Has(FileOf(id, es, invalid), v) <==> HasSource(es, v)
    ensures KeysIncrease(FileOf(id, es, invalid).table.index)
  {
    hide SortedEdges, IndexOf, KeysIncrease;
    FileIsSortedTable(id, es, invalid);
    var f := FileOf(id, es, invalid);
    var x := f.table.index;
    if Has(f, v) {
      var i :| 0 <= i < |x| - 1 && x[i].key == v;
      assert x[i].offset < x[i+1].offset;
      OffsetInFile(es, x, i);
      assert es[x[i].offset].src == x[i].key;
    }
    if HasSource(es, v) {
      var o :| 0 <= o < |es| && es[o].src == v;
      IndexRuns(es);
      var k := RunOf(es, IndexOf(es), o);
      assert x[k] == IndexOf(es)[k];
    }
  }

  lemma OffsetInFile(es: seq<Edge>, x: seq<Index>, i: nat)
    requires Delimited(es, x) && Increasing(x) && i < |x| - 1
    ensures x[i].offset < |es|
  {}

  lemma StretchOf(es: seq<Edge>, bounds: seq<nat>, i: nat)
    requires SortedEdges(es) && Splits(es, bounds) && i + 1 < |bounds|
    ensures Stretch(es, bounds, i) == es[bounds[i]..bounds[i+1]] && SortedEdges(Stretch(es, bounds, i))
    ensures Stretch(es, bounds, i) != []
    ensures forall o :: 0 <= o < |Stretch(es, bounds, i)| ==> Stretch(es, bounds, i)[o] == es[bounds[i] + o]
  {
    assert CutAt(es, bounds[i]) && CutAt(es, bounds[i+1]) && bounds[i] < bounds[i+1];
    var s := Stretch(es, bounds, i);
    forall a, b | 0 <= a < b < |s| ensures !Less(s[b], s[a]) {
      assert s[a] == es[bounds[i] + a] && s[b] == es[bounds[i] + b];
    }
  }

  /** No vertex occurs in two stretches. */
  lemma StretchesApart(es: seq<Edge>, bounds: seq<nat>, i: nat, j: nat, v: u64)
    requires SortedEdges(es) && Splits(es, bounds) && i < j && j + 1 < |bounds|
    requires HasSource(Stretch(es, bounds, i), v)
    ensures !HasSource(Stretch(es, bounds, j), v)
  {
    hide SortedEdges, Stretch;
    StretchOf(es, bounds, i);
    StretchOf(es, bounds, j);
    var s, t := Stretch(es, bounds, i), Stretch(es, bounds, j);
    var a :| 0 <= a < |s| && s[a].src == v;
    assert bounds[i+1] <= bounds[j];
    forall b | 0 <= b < |t| ensures t[b].src != v {
      assert CutAt(es, bounds[j]);
      assert es[bounds[i] + a].src < es[bounds[j] + b].src;
    }
  }

  /** The stretch an edge lies in. */
  lemma StretchAt(bounds: seq<nat>, o: nat) returns (k: nat)
    requires |bounds| > 1 && bounds[0] == 0 && o < bounds[|bounds|-1]
    ensures k + 1 < |bounds| && bounds[k] <= o < bounds[k+1]
  {
    k := 0;
    while bounds[k+1] <= o
      invariant k + 1 < |bounds| && bounds[k] <= o
      decreases |bounds| - k
    {
      k := k + 1;
    }
  }

  ghost predicate InRange(es: seq<Edge>, invalid: u64) {
    forall i :: 0 <= i < |es| ==> es[i].src < invalid
  }

  /** File `i` holds exactly the vertices of stretch `i`. */
  lemma FileOfStretch(es: seq<Edge>, bounds: seq<nat>, files: seq<OutFile>, invalid: u64, i: nat, v: u64)
    requires SortedEdges(es) && InRange(es, invalid) && Splits(es, bounds) && FilesAre(files, es, bounds, invalid)
    requires i < |files|
    ensures Has(files[i], v) <==> HasSource(Stretch(es, bounds, i), v)
    ensures KeysIncrease(files[i].table.index)
  {
    hide SortedEdges, Has, HasSource, KeysIncrease;
    StretchOf(es, bounds, i);
    var s := Stretch(es, bounds, i);
    FileSources(files[i].id, s, invalid, v);
  }

  lemma OutputsAreExact(es: seq<Edge>, bounds: seq<nat>, files: seq<OutFile>, invalid: u64)
    requires SortedEdges(es) && InRange(es, invalid) && Splits(es, bounds) && FilesAre(files, es, bounds, invalid)
    ensures WellKeyed(files) && NoneShared(files)
  {
    hide SortedEdges, Has, HasSource, KeysIncrease, Splits;
    forall f | f in files ensures KeysIncrease(f.table.index) {
      var i :| 0 <= i < |files| && files[i] == f;
      FileOfStretch(es, bounds, files, invalid, i, 0);
    }
    forall i, j, v | 0 <= i < j < |files| && Has(files[i], v) ensures !Has(files[j], v) {
      FileOfStretch(es, bounds, files, invalid, i, v);
      FileOfStretch(es, bounds, files, invalid, j, v);
      StretchesApart(es, bounds, i, j, v);
    }
  }

  /** The outputs hold every merged vertex exactly when the last file was published. */
  lemma OutputsCoverIff(es: seq<Edge>, bounds: seq<nat>, files: seq<OutFile>, invalid: u64)
    requires es != [] && SortedEdges(es) && InRange(es, invalid) && Splits(es, bounds)
    requires FilesAre(files, es, bounds, invalid)
    requires |bounds| > 1 && bounds[|bounds|-1] == |es| && |files| >= |bounds| - 2
    ensures (forall v :: AnyHas(files, v) <==> HasSource(es, v)) <==> |files| == |bounds| - 1
  {
    hide SortedEdges, Has, HasSource, Splits, FilesAre;
    FewerFiles(files, es, bounds, invalid);
    if |files| == |bounds| - 1 {
      forall v ensures AnyHas(files, v) <==> HasSource(es, v) {
        Covered(es, bounds, files, invalid, v);
      }
    } else {
      StretchOf(es, bounds, |bounds| - 2);
      var s := Stretch(es, bounds, |bounds| - 2);
      FirstSource(s);
      Dropped(es, bounds, files, invalid, s[0].src);
    }
  }

  lemma FirstSource(s: seq<Edge>)
    requires s != []
    ensures HasSource(s, s[0].src)
  {}

  lemma FewerFiles(files: seq<OutFile>, es: seq<Edge>, bounds: seq<nat>, invalid: u64)
    requires FilesAre(files, es, bounds, invalid)
    ensures |files| < |bounds|
  {}

  lemma Covered(es: seq<Edge>, bounds: seq<nat>, files: seq<OutFile>, invalid: u64, v: u64)
    requires SortedEdges(es) && InRange(es, invalid) && Splits(es, bounds) && FilesAre(files, es, bounds, invalid)
    requires |bounds| > 1 && bounds[|bounds|-1] == |es| && |files| == |bounds| - 1
    ensures AnyHas(files, v) <==> HasSource(es, v)
  {
    hide SortedEdges, Has, FilesAre;
    if AnyHas(files, v) {
      var f :| f in files && Has(f, v);
      var i :| 0 <= i < |files| && files[i] == f;
      FileOfStretch(es, bounds, files, invalid, i, v);
      StretchOf(es, bounds, i);
      var s := Stretch(es, bounds, i);
      var o :| 0 <= o < |s| && s[o].src == v;
      assert es[bounds[i] + o].src == v;
    }
    if HasSource(es, v) {
      var o :| 0 <= o < |es| && es[o].src == v;
      var k := StretchAt(bounds, o);
      StretchOf(es, bounds, k);
      assert Stretch(es, bounds, k)[o - bounds[k]].src == v;
      FileOfStretch(es, bounds, files, invalid, k, v);
      assert files[k] in files;
    }
  }

  lemma Dropped(es: seq<Edge>, bounds: seq<nat>, files: seq<OutFile>, invalid: u64, v: u64)
    requires SortedEdges(es) && InRange(es, invalid) && Splits(es, bounds) && FilesAre(files, es, bounds, invalid)
    requires |bounds| > 1 && |files| == |bounds| - 2 && HasSource(Stretch(es, bounds, |bounds| - 2), v)
    ensures !AnyHas(files, v) && HasSource(es, v)
  {
    hide SortedEdges, Has, FilesAre;
    forall f | f in files ensures !Has(f, v) {
      var i :| 0 <= i < |files| && files[i] == f;
      FileOfStretch(es, bounds, files, invalid, i, v);
      if HasSource(Stretch(es, bounds, i), v) {
        StretchesApart(es, bounds, i, |bounds| - 2, v);
      }
    }
    StretchOf(es, bounds, |bounds| - 2);
    var s := Stretch(es, bounds, |bounds| - 2);
    var o :| 0 <= o < |s| && s[o].src == v;
    assert es[bounds[|bounds|-2] + o].src == v;
  }

  // ---- Inputs ----

  /** A merge has the sources of its ways. */
  lemma MergedSources(out: seq<Edge>, ways: seq<seq<Edge>>, v: u64)
    requires multiset(out) == AllOf(ways)
    ensures HasSource(out, v) <==> exists w :: 0 <= w < |ways| && HasSource(ways[w], v)
  {
    if HasSource(out, v) {
      var o :| 0 <= o < |out| && out[o].src == v;
      assert out[o] in multiset(out);
      var w := FromSomeWay(ways, out[o]);
      var i :| 0 <= i < |ways[w]| && ways[w][i] == out[o];
    }
    if exists w :: 0 <= w < |ways| && HasSource(ways[w], v) {
      var w :| 0 <= w < |ways| && HasSource(ways[w], v);
      var i :| 0 <= i < |ways[w]| && ways[w][i].src == v;
      InAllOf(ways, w, ways[w][i]);
      var o :| 0 <= o < |out| && out[o] == ways[w][i];
    }
  }

  /** Each input file holds its way's edges. */
  ghost predicate InputsHold(ins: seq<OutFile>, ways: seq<seq<Edge>>, invalid: u64) {
    && |ins| == |ways|
    && forall i :: 0 <= i < |ins| ==>
      ways[i] != [] && SortedEdges(ways[i]) && InRange(ways[i], invalid) &&
        ins[i] == FileOf(ins[i].id, ways[i], invalid)
  }

  lemma InputSources(ins: seq<OutFile>, ways: seq<seq<Edge>>, invalid: u64, v: u64)
    requires InputsHold(ins, ways, invalid)
    ensures AnyHas(ins, v) <==> exists w :: 0 <= w < |ways| && HasSource(ways[w], v)
  {
    hide Has, HasSource, FileOf, SortedEdges, InRange;
    forall i | 0 <= i < |ins| ensures Has(ins[i], v) <==> HasSource(ways[i], v) {
      InputFile(ins, ways, invalid, i, v);
    }
  }

  lemma InputFile(ins: seq<OutFile>, ways: seq<seq<Edge>>, invalid: u64, i: nat, v: u64)
    requires InputsHold(ins, ways, invalid) && i < |ins|
    ensures Has(ins[i], v) <==> HasSource(ways[i], v)
  {
    hide Has, HasSource, FileOf, SortedEdges;
    FileSources(ins[i].id, ways[i], invalid, v);
  }

  lemma AnyHasSplit(a: seq<OutFile>, b: seq<OutFile>, v: u64)
    ensures AnyHas(a + b, v) <==> AnyHas(a, v) || AnyHas(b, v)
  {
    hide Has;
    forall f | f in a || f in b ensures f in a + b {}
  }

  // ---- Ranges ----

  /** A file stores these edges. */
  ghost predicate Stored(f: OutFile, w: seq<Edge>, invalid: u64) {
    w != [] && SortedEdges(w) && InRange(w, invalid) && f == FileOf(f.id, w, invalid)
  }

  ghost predicate Sound(f: OutFile, invalid: u64) {
    exists w :: Stored(f, w, invalid)
  }

  lemma StoredRange(f: OutFile, w: seq<Edge>, invalid: u64, v: u64)
    requires Stored(f, w, invalid)
    ensures f.min <= f.max && KeysIncrease(f.table.index) && (Has(f, v) <==> HasSource(w, v))
    ensures HasSource(w, v) ==> f.min <= v <= f.max
  {
    hide SortedEdges, Has, KeysIncrease, IndexOf;
    FileSources(f.id, w, invalid, v);
    SourcesRise(w, 0, |w| - 1);
    if HasSource(w, v) {
      var o :| 0 <= o < |w| && w[o].src == v;
      SourcesRise(w, 0, o);
      SourcesRise(w, o, |w| - 1);
    }
  }

  /** A file holds only vertices of its range. */
  lemma SoundRange(f: OutFile, invalid: u64, v: u64)
    requires Sound(f, invalid)
    ensures f.min <= f.max && KeysIncrease(f.table.index) && (Has(f, v) ==> f.min <= v <= f.max)
  {
    hide Stored, Has, KeysIncrease, HasSource;
    var w :| Stored(f, w, invalid);
    StoredRange(f, w, invalid, v);
  }

  lemma OutputStored(es: seq<Edge>, bounds: seq<nat>, files: seq<OutFile>, invalid: u64, i: nat)
    requires SortedEdges(es) && InRange(es, invalid) && Splits(es, bounds) && FilesAre(files, es, bounds, invalid)
    requires i < |files|
    ensures Sound(files[i], invalid) && i + 1 < |bounds| && bounds[i] < bounds[i+1] <= |es|
    ensures files[i].min == es[bounds[i]].src && files[i].max == es[bounds[i+1] - 1].src
  {
    hide SortedEdges, IndexOf;
    StretchOf(es, bounds, i);
    var s := Stretch(es, bounds, i);
    assert CutAt(es, bounds[i+1]) && bounds[i] < bounds[i+1];
    assert Stored(files[i], s, invalid);
  }

  /** The outputs come in order of their ranges, all within the range of the merged edges. */
  lemma OutputsRanged(es: seq<Edge>, bounds: seq<nat>, files: seq<OutFile>, invalid: u64)
    requires SortedEdges(es) && InRange(es, invalid) && Splits(es, bounds) && FilesAre(files, es, bounds, invalid)
    requires es != []
    ensures Ranged(files) && forall i :: 0 <= i < |files| ==> Sound(files[i], invalid)
    ensures Covers(files, es[0].src, es[|es|-1].src)
  {
    hide SortedEdges, FilesAre, Splits, Sound;
    forall i | 0 <= i < |files| ensures Sound(files[i], invalid) && files[i].min <= files[i].max
      && es[0].src <= files[i].min && files[i].max <= es[|es|-1].src
    {
      OutputStored(es, bounds, files, invalid, i);
      SourcesRise(es, bounds[i], bounds[i+1] - 1);
      SourcesRise(es, 0, bounds[i]);
      SourcesRise(es, bounds[i+1] - 1, |es| - 1);
    }
    forall i, j | 0 <= i < j < |files| ensures files[i].max < files[j].min {
      OutputStored(es, bounds, files, invalid, i);
      OutputStored(es, bounds, files, invalid, j);
      CutBetween(es, bounds, i, j);
    }
  }

  lemma CutBetween(es: seq<Edge>, bounds: seq<nat>, i: nat, j: nat)
    requires Splits(es, bounds) && i < j && j + 1 < |bounds| && bounds[j] < |es|
    ensures 0 < bounds[i+1] <= bounds[j] && es[bounds[i+1] - 1].src < es[bounds[j]].src
  {
    assert bounds[i] < bounds[i+1] && bounds[i+1] <= bounds[j];
    assert CutAt(es, bounds[j]);
  }

  // ---- Finding a record in a file ----

  predicate VersionOf(e: Edge, k: Key) {
    e.src == k.src && e.body.dst == k.dst && e.body.isOut == k.isOut && e.body.edgeType == k.edgeType
  }

  /** Edge `o` is the first version of `k`, is live, and has its sequence. */
  ghost predicate FirstVersion(w: seq<Edge>, k: Key, o: nat) {
    && o < |w| && VersionOf(w[o], k) && !w[o].body.deleted && w[o].body.sequence == k.base
    && forall j :: 0 <= j < o ==> !VersionOf(w[j], k)
  }

  lemma LocatedIsFirst(f: OutFile, w: seq<Edge>, invalid: u64, k: Key, p: nat, o: nat)
    requires Stored(f, w, invalid) && LocatedIn(f.table, k, p, o)
    ensures FirstVersion(w, k, o)
  {
    hide SortedEdges, IndexOf, Sorted;
    FileIsSortedTable(f.id, w, invalid);
    var x := f.table.index;
    assert f.table.bodies[o] == w[o].body && w[o].src == x[p].key;
    forall j | 0 <= j < o && w[j].src == k.src ensures !VersionOf(w[j], k) {
      assert x[p].offset <= j < o && f.table.bodies[j] == w[j].body;
    }
  }

  lemma FirstIsLocated(f: OutFile, w: seq<Edge>, invalid: u64, k: Key, o: nat)
    requires Stored(f, w, invalid) && FirstVersion(w, k, o)
    ensures LocatedAt(f.table, k, o)
  {
    hide SortedEdges, IndexOf, Sorted;
    FileIsSortedTable(f.id, w, invalid);
    IndexRuns(w);
    var p := RunOf(w, IndexOf(w), o);
    var x, bodies := f.table.index, f.table.bodies;
    assert x[p] == IndexOf(w)[p] && x[p].offset <= o < x[p+1].offset;
    assert x[p].offset <= x[p+1].offset <= |bodies| by { OffsetsFit(f.table, p); }
    var r := FirstMatch(bodies, x[p].offset, x[p+1].offset, k.dst, k.isOut, k.edgeType);
    assert bodies[o] == w[o].body && Matches(bodies[o], k.dst, k.isOut, k.edgeType);
    assert bodies[r.value] == w[r.value].body && w[r.value].src == x[p].key;
    assert LocatedIn(f.table, k, p, o);
  }

  lemma OffsetsFit(t: Table, p: nat)
    requires Sorted(t) && p + 1 < |t.index|
    ensures t.index[p].offset <= t.index[p+1].offset <= |t.bodies|
  {
    hide GroupSorted;
  }

  /**
   A record is located in a stored file exactly where the newest version of its edge
   is, and only if that version is live and has the record's sequence.
   */
  lemma LocatedIffNewest(f: OutFile, w: seq<Edge>, invalid: u64, k: Key, o: nat)
    requires Stored(f, w, invalid)
    ensures LocatedAt(f.table, k, o) <==> FirstVersion(w, k, o)
    ensures LocatedAt(f.table, k, o) ==>
      forall j :: 0 <= j < |w| && VersionOf(w[j], k) ==> w[j].body.sequence <= k.base
  {
    hide LocatedIn, Stored, FirstVersion;
    if LocatedAt(f.table, k, o) {
      var p: nat :| LocatedIn(f.table, k, p, o);
      LocatedIsFirst(f, w, invalid, k, p, o);
      FirstIsNewest(f, w, invalid, k, o);
    }
    if FirstVersion(w, k, o) {
      FirstIsLocated(f, w, invalid, k, o);
    }
  }

  lemma FirstIsNewest(f: OutFile, w: seq<Edge>, invalid: u64, k: Key, o: nat)
    requires Stored(f, w, invalid) && FirstVersion(w, k, o)
    ensures forall j :: 0 <= j < |w| && VersionOf(w[j], k) ==> w[j].body.sequence <= k.base
  {
    hide FileOf, InRange;
    forall j | 0 <= j < |w| && VersionOf(w[j], k) ensures w[j].body.sequence <= k.base {
      assert o < j ==> !Less(w[j], w[o]);
    }
  }
}
