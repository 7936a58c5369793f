/**
 The table writer: splits a sorted stream of edges into files at source changes,
 builds each file's source index, and publishes finished files.
 */
module TableWriter {
  import opened Records
  import opened Topology
  import opened EdgeMerge

  /** Sizes that decide when a file is full, and the body buffer's slots, one kept for the sentinel. */
  datatype Limits = Limits(header: nat, body: nat, entry: nat, file: nat, slots: nat, invalid: u64)

  /** A published file: its source range, its table with sentinel, and the property row of each edge. */
  datatype OutFile = OutFile(id: nat, min: u64, max: u64, table: Table, rows: seq<seq<Bytes>>)

  // ---- What a file holds ----

  function BodiesOf(es: seq<Edge>): (bs: seq<Body>)
    ensures |bs| == |es| && forall i :: 0 <= i < |es| ==> bs[i] == es[i].body
  {
    seq(|es|, i requires 0 <= i < |es| => es[i].body)
  }

  function RowsOf(es: seq<Edge>): (rs: seq<seq<Bytes>>)
    ensures |rs| == |es| && forall i :: 0 <= i < |es| ==> rs[i] == es[i].props
  {
    seq(|es|, i requires 0 <= i < |es| => es[i].props)
  }

  /** One entry per run of equal sources. */
  function IndexOf(es: seq<Edge>): seq<Index> {
    if es == [] then []
    else
      var n := |es| - 1;
      var t := IndexOf(es[..n]);
      if n == 0 || es[n].src != es[n-1].src then t + [Index(es[n].src, n)] else t
  }

  function FileOf(id: nat, es: seq<Edge>, invalid: u64): OutFile
    requires es != []
  {
    OutFile(id, es[0].src, es[|es|-1].src,
            Table(IndexOf(es) + [Index(invalid, |es|)], BodiesOf(es)), RowsOf(es))
  }

  /** Where the run of entry `i` ends. */
  function RunEnd(index: seq<Index>, n: nat, i: nat): nat {
    if i + 1 < |index| then index[i+1].offset else n
  }

  ghost predicate SameSource(es: seq<Edge>, key: u64, from: nat, to: nat) {
    from < to <= |es| && forall o :: from <= o < to ==> es[o].src == key
  }

  /** The entries cut the edges into non-empty runs of one source each. */
  ghost predicate Runs(es: seq<Edge>, index: seq<Index>) {
    && (es != [] <==> index != []) && (index != [] ==> index[0].offset == 0)
    && (forall i :: 0 <= i < |index| ==> SameSource(es, index[i].key, index[i].offset, RunEnd(index, |es|, i)))
    && (forall i, j :: 0 <= i < j < |index| ==> index[i].offset < index[j].offset)
  }

  lemma {:induction false} IndexRuns(es: seq<Edge>)
    ensures Runs(es, IndexOf(es))
    ensures es != [] ==> IndexOf(es) != [] && IndexOf(es)[|IndexOf(es)|-1].key == es[|es|-1].src
  {
    hide Runs;
    if es == [] {
      assert Runs([], []) by { NoRuns(); }
    } else {
      var n := |es| - 1;
      IndexRuns(es[..n]);
      RunsStep(es[..n], IndexOf(es[..n]), es[n], IndexOf(es));
      assert es == es[..n] + [es[n]];
    }
  }

  lemma NoRuns()
    ensures Runs([], [])
  {}

  lemma RunsStep(t: seq<Edge>, y: seq<Index>, e: Edge, x: seq<Index>)
    requires Runs(t, y) && (t != [] ==> y != [] && y[|y|-1].key == t[|t|-1].src)
    requires x == if t == [] || e.src != t[|t|-1].src then y + [Index(e.src, |t|)] else y
    ensures Runs(t + [e], x) && x != [] && x[|x|-1].key == e.src
  {
    var es := t + [e];
    forall i | 0 <= i < |x| ensures SameSource(es, x[i].key, x[i].offset, RunEnd(x, |es|, i)) {
      if i < |y| {
        assert SameSource(t, y[i].key, y[i].offset, RunEnd(y, |t|, i));
      }
    }
    forall i, j | 0 <= i < j < |x| ensures x[i].offset < x[j].offset {
      if j == |y| {
        assert SameSource(t, y[i].key, y[i].offset, RunEnd(y, |t|, i));
      }
    }
  }

  lemma SourcesRise(es: seq<Edge>, i: nat, j: nat)
    requires SortedEdges(es) && i <= j < |es|
    ensures es[i].src <= es[j].src
  {
    if i < j {
      assert !Less(es[j], es[i]);
    }
  }

  /** Offsets strictly increase: no source is without edges. */
  ghost predicate Increasing(x: seq<Index>) {
    forall i, j :: 0 <= i < j < |x| ==> x[i].offset < x[j].offset
  }

  /**
   A file of sorted edges is a sorted table: sources increase, and each pair of
   neighbouring index entries delimits exactly the edges of one source.
   */
  lemma FileIsSortedTable(id: nat, es: seq<Edge>, invalid: u64)
    requires es != [] && SortedEdges(es) && forall i :: 0 <= i < |es| ==> es[i].src < invalid
    ensures Sorted(FileOf(id, es, invalid).table)
    ensures Delimited(es, FileOf(id, es, invalid).table.index) && Increasing(FileOf(id, es, invalid).table.index)
  {
    hide IndexOf, SortedEdges, Runs, Delimited, KeysIncrease, GroupSorted;
    IndexRuns(es);
    var y := IndexOf(es);
    var x := y + [Index(invalid, |es|)];
    KeysRise(es, y);
    IndexIncreases(es, y, invalid);
    RunsBounds(es, y);
    forall i | 0 <= i < |x| - 1 ensures GroupSorted(BodiesOf(es), x[i].offset, x[i+1].offset) {
      GroupIsSorted(es, y, i);
      assert x[i+1].offset == RunEnd(y, |es|, i);
    }
    Delimits(es, y, invalid);
    OffsetsIncrease(es, y, invalid);
  }

  lemma OffsetsIncrease(es: seq<Edge>, y: seq<Index>, invalid: u64)
    requires Runs(es, y)
    ensures Increasing(y + [Index(invalid, |es|)])
  {
    RunsBounds(es, y);
  }

  lemma RunsBounds(es: seq<Edge>, y: seq<Index>)
    requires Runs(es, y)
    ensures forall i :: 0 <= i < |y| ==> y[i].offset < |es|
    ensures forall i :: 0 <= i < |y| ==> y[i].offset < RunEnd(y, |es|, i) <= |es|
  {
    forall i | 0 <= i < |y| ensures y[i].offset < |es| && y[i].offset < RunEnd(y, |es|, i) <= |es| {
      assert SameSource(es, y[i].key, y[i].offset, RunEnd(y, |es|, i));
    }
  }

  lemma IndexIncreases(es: seq<Edge>, y: seq<Index>, invalid: u64)
    requires Runs(es, y) && forall i :: 0 <= i < |es| ==> es[i].src < invalid
    requires forall i, j :: 0 <= i < j < |y| ==> y[i].key < y[j].key
    ensures KeysIncrease(y + [Index(invalid, |es|)])
  {
    hide SameSource;
    forall i | 0 <= i < |y| ensures y[i].key < invalid && y[i].offset <= |es| {
      EntryKey(es, y, i);
    }
  }

  lemma EntryKey(es: seq<Edge>, y: seq<Index>, i: nat)
    requires Runs(es, y) && i < |y|
    ensures y[i].offset < |es| && es[y[i].offset].src == y[i].key
  {
    assert SameSource(es, y[i].key, y[i].offset, RunEnd(y, |es|, i));
  }

  lemma KeysRise(es: seq<Edge>, y: seq<Index>)
    requires SortedEdges(es) && y == IndexOf(es) && Runs(es, y)
    ensures forall i, j :: 0 <= i < j < |y| ==> y[i].key < y[j].key
  {
    forall i, j | 0 <= i < j < |y| ensures y[i].key < y[j].key {
      EntryKey(es, y, i);
      EntryKey(es, y, j);
      SourcesRise(es, y[i].offset, y[j].offset);
      EntriesDiffer(es, i, j);
    }
  }

  /** No source has two entries, because equal sources are contiguous in sorted edges. */
  lemma {:induction false} EntriesDiffer(es: seq<Edge>, i: nat, j: nat)
    requires SortedEdges(es) && i < j < |IndexOf(es)|
    ensures IndexOf(es)[i].key != IndexOf(es)[j].key
    decreases |es|
  {
    var n := |es| - 1;
    var t := es[..n];
    var y := IndexOf(t);
    assert SortedEdges(t);
    if j < |y| {
      EntriesDiffer(t, i, j);
    } else {
      IndexRuns(t);
      EntryKey(t, y, i);
      SourcesRise(es, y[i].offset, n - 1);
      assert !Less(es[n], es[n-1]);
    }
  }

  lemma GroupIsSorted(es: seq<Edge>, y: seq<Index>, i: nat)
    requires SortedEdges(es) && Runs(es, y) && i < |y|
    ensures y[i].offset <= RunEnd(y, |es|, i) <= |es| && GroupSorted(BodiesOf(es), y[i].offset, RunEnd(y, |es|, i))
  {
    assert SameSource(es, y[i].key, y[i].offset, RunEnd(y, |es|, i));
    forall a, b | y[i].offset <= a < b < RunEnd(y, |es|, i) ensures !Less(es[b], es[a]) && es[a].src == es[b].src {
    }
  }

  /** Entry `i` and the next one delimit exactly the edges of one source; the sentinel closes the last. */
  ghost predicate Delimited(es: seq<Edge>, x: seq<Index>) {
    && |x| > 1 && x[0].offset == 0 && x[|x|-1].offset == |es|
    && forall i, o :: 0 <= i < |x| - 1 && 0 <= o < |es| ==>
      (es[o].src == x[i].key <==> x[i].offset <= o < x[i+1].offset)
  }

  lemma Delimits(es: seq<Edge>, y: seq<Index>, invalid: u64)
    requires es != [] && Runs(es, y) && forall i, j :: 0 <= i < j < |y| ==> y[i].key < y[j].key
    ensures Delimited(es, y + [Index(invalid, |es|)])
  {
    hide Runs;
    var x := y + [Index(invalid, |es|)];
    RunsStart(es, y);
    forall i, o | 0 <= i < |x| - 1 && 0 <= o < |es|
      ensures es[o].src == x[i].key <==> x[i].offset <= o < x[i+1].offset {
      var k := RunOf(es, y, o);
      OneRun(es, y, i, k, o);
      assert x[i] == y[i] && x[i+1].offset == RunEnd(y, |es|, i);
      assert i < k ==> y[i].key < y[k].key;
      assert k < i ==> y[k].key < y[i].key;
    }
  }

  lemma RunsStart(es: seq<Edge>, y: seq<Index>)
    requires es != [] && Runs(es, y)
    ensures y != [] && y[0].offset == 0
  {}

  lemma OneRun(es: seq<Edge>, y: seq<Index>, i: nat, k: nat, o: nat)
    requires Runs(es, y) && i < |y| && k < |y| && y[k].offset <= o < RunEnd(y, |es|, k)
    ensures i == k <==> y[i].offset <= o < RunEnd(y, |es|, i)
  {
    hide SameSource;
    if i < k {
      assert RunEnd(y, |es|, i) <= y[k].offset;
    } else if k < i {
      assert RunEnd(y, |es|, k) <= y[i].offset;
    }
  }

  /** The run an edge belongs to. */
  lemma RunOf(es: seq<Edge>, y: seq<Index>, o: nat) returns (k: nat)
    requires Runs(es, y) && o < |es|
    ensures k < |y| && y[k].offset <= o < RunEnd(y, |es|, k)
    ensures es[o].src == y[k].key
  {
    k := 0;
    while k + 1 < |y| && y[k+1].offset <= o
      invariant k < |y| && y[k].offset <= o
    {
      k := k + 1;
    }
    assert SameSource(es, y[k].key, y[k].offset, RunEnd(y, |es|, k));
  }
}
