/**
 What the workers of a planned compaction write together: read piece by piece, each
 worker merges its ways, and the workers' outputs joined are a sorted permutation
 of all input edges, just as one merge over all inputs would give.
 */
module ParallelMerge {
  import opened Records
  import opened Topology
  import opened Interleaving
  import opened EdgeMerge
  import opened TableWriter
  import opened TableStreams
  import opened Subcompactions
  import opened CompactionPlan

  // ---- Reading ----

  /** Edges of the index entries `[first, last)`. */
  ghost function Between(es: seq<Edge>, x: seq<Index>, first: nat, last: nat): seq<Edge> {
    if first < |x| && last < |x| &&
      x[first].offset <= x[last].offset <= |es| then es[x[first].offset..x[last].offset] else []
  }

  /** A file and the edges it stores. */
  ghost predicate Tells(file: OutFile, es: seq<Edge>) {
    && es != [] && SortedEdges(es) && Delimited(es, file.table.index) && Increasing(file.table.index)
    && KeysIncrease(file.table.index) && file.table.bodies == BodiesOf(es) && file.rows == RowsOf(es)
  }

  /** Reads one piece of a file to its end. */
  method ReadPiece(file: OutFile, first: nat, last: nat, ghost es: seq<Edge>) returns (r: seq<Edge>)
    requires Tells(file, es) && first < last < |file.table.index|
    ensures r == Between(es, file.table.index, first, last)
  {
    hide SortedEdges, Delimited, Increasing, KeysIncrease;
    var way := new Way(file, first, last, es);
    ghost var all := way.Rest();
    r := [];
    var next := way.NextEdge();
    while next.Some?
      invariant fresh(way) && (next.Some? ==> way.Valid() && all == r + [next.value] + way.Rest())
      invariant next.None? ==> r == all
      decreases |all| - |r|
    {
      r := r + [next.value];
      ghost var rest := way.Rest();
      next := way.NextEdge();
    }
  }

  // ---- Pieces and their edges ----

  ghost predicate Given(ins: seq<OutFile>, contents: seq<seq<Edge>>) {
    |ins| == |contents| && forall f :: 0 <= f < |ins| ==> Tells(ins[f], contents[f])
  }

  /** The planner's view: the first `upper` files have a lane each, the others share the next one. */
  function InputsOf(ins: seq<OutFile>, upper: nat): (files: seq<Input>)
    ensures |files| == |ins|
    ensures forall f :: 0 <= f < |ins| ==> files[f] == Input(ins[f].table.index, if f < upper then f else upper, f)
  {
    seq(|ins|, f requires 0 <= f < |ins| => Input(ins[f].table.index, if f < upper then f else upper, f))
  }

  ghost function EdgesOf(ins: seq<OutFile>, contents: seq<seq<Edge>>, x: WayAnchor): seq<Edge> {
    if x.file < |ins| && x.file < |contents|
    then Between(contents[x.file], ins[x.file].table.index, x.piece.first, x.piece.last) else []
  }

  ghost predicate Fits(ins: seq<OutFile>, x: WayAnchor) {
    && x.file < |ins|
    && var index := ins[x.file].table.index;
    && x.piece.first < x.piece.last < |index| && x.begin == index[x.piece.first].key &&
      x.end == index[x.piece.last-1].key
  }

  ghost predicate AllFit(ins: seq<OutFile>, xs: seq<WayAnchor>) {
    forall x :: x in xs ==> Fits(ins, x)
  }

  lemma SourceAt(es: seq<Edge>, x: seq<Index>, i: nat)
    requires Delimited(es, x) && Increasing(x) && i + 1 < |x|
    ensures x[i].offset < x[i+1].offset <= |es| && es[x[i].offset].src == x[i].key
    ensures es[x[i+1].offset - 1].src == x[i].key
  {
    assert x[i].offset < x[i+1].offset;
  }

  /** A piece holds edges, sorted, of sources in its range. */
  lemma PieceEdges(ins: seq<OutFile>, contents: seq<seq<Edge>>, x: WayAnchor)
    requires Given(ins, contents) && Fits(ins, x)
    ensures var es := EdgesOf(ins, contents, x);
            es != [] && SortedEdges(es) && forall e :: e in es ==> x.begin <= e.src <= x.end
  {
    var all, index := contents[x.file], ins[x.file].table.index;
    assert Tells(ins[x.file], all);
    hide Tells, Given;
    assert SortedEdges(all) && Delimited(all, index) && Increasing(index) by { TellsParts(ins[x.file], all); }
    hide Delimited;
    var first, last := x.piece.first, x.piece.last;
    SourceAt(all, index, first);
    SourceAt(all, index, last - 1);
    assert first < last ==> index[first].offset < index[last].offset;
    var es := all[index[first].offset..index[last].offset];
    assert EdgesOf(ins, contents, x) == es;
    hide Increasing, EdgesOf;
    Slice(all, index[first].offset, index[last].offset);
  }

  lemma TellsParts(file: OutFile, es: seq<Edge>)
    requires Tells(file, es)
    ensures SortedEdges(es) && Delimited(es, file.table.index) && Increasing(file.table.index) && es != []
    ensures KeysIncrease(file.table.index)
  {}

  lemma Slice(es: seq<Edge>, a: nat, b: nat)
    requires SortedEdges(es) && a < b <= |es|
    ensures SortedEdges(es[a..b]) && forall e :: e in es[a..b] ==> es[a].src <= e.src <= es[b-1].src
  {
    var s := es[a..b];
    forall i, j | 0 <= i < j < |s| ensures !Less(s[j], s[i]) {
      assert s[i] == es[a + i] && s[j] == es[a + j];
    }
    forall e | e in s ensures es[a].src <= e.src <= es[b-1].src {
      var i :| 0 <= i < |s| && s[i] == e;
      SourcesRise(es, a, a + i);
      SourcesRise(es, a + i, b - 1);
    }
  }

  // ---- The edges of many pieces ----

  ghost function Sum(ins: seq<OutFile>, contents: seq<seq<Edge>>, xs: seq<WayAnchor>): multiset<Edge> {
    if xs == [] then multiset{}
    else Sum(ins, contents, xs[..|xs|-1]) + multiset(EdgesOf(ins, contents, xs[|xs|-1]))
  }

  lemma SumEmpty(ins: seq<OutFile>, contents: seq<seq<Edge>>)
    ensures Sum(ins, contents, []) == multiset{}
  {}

  lemma SumSnoc(ins: seq<OutFile>, contents: seq<seq<Edge>>, xs: seq<WayAnchor>, x: WayAnchor)
    ensures Sum(ins, contents, xs + [x]) == Sum(ins, contents, xs) + multiset(EdgesOf(ins, contents, x))
  {
    assert (xs + [x])[..|xs|] == xs;
  }

  lemma {:induction false} SumAppend(ins: seq<OutFile>, contents: seq<seq<Edge>>, xs: seq<WayAnchor>,
                                     ys: seq<WayAnchor>)
    ensures Sum(ins, contents, xs + ys) == Sum(ins, contents, xs) + Sum(ins, contents, ys)
    decreases |ys|
  {
    hide EdgesOf, Sum;
    if ys == [] {
      assert xs + ys == xs;
      SumEmpty(ins, contents);
    } else {
      var t, y := ys[..|ys|-1], ys[|ys|-1];
      SumAppend(ins, contents, xs, t);
      SumSnoc(ins, contents, xs + t, y);
      SumSnoc(ins, contents, t, y);
      assert xs + ys == xs + t + [y] && ys == t + [y];
    }
  }

  /** The order of the pieces does not matter. */
  lemma {:induction false} SumPermuted(ins: seq<OutFile>, contents: seq<seq<Edge>>, xs: seq<WayAnchor>,
                                       ys: seq<WayAnchor>)
    requires multiset(xs) == multiset(ys)
    ensures Sum(ins, contents, xs) == Sum(ins, contents, ys)
    decreases |xs|
  {
    hide EdgesOf, Sum;
    if xs == [] {
      assert |multiset(ys)| == 0;
      assert ys == [];
    } else {
      var t, x := xs[..|xs|-1], xs[|xs|-1];
      assert xs == t + [x] && x in multiset(ys);
      var k :| 0 <= k < |ys| && ys[k] == x;
      var a, b := ys[..k], ys[k+1..];
      assert ys == a + [x] + b;
      RemoveOne(t, x, a, b);
      SumPermuted(ins, contents, t, a + b);
      SumAppend(ins, contents, a, b);
      SumAppend(ins, contents, a + [x], b);
      SumSnoc(ins, contents, a, x);
      SumSnoc(ins, contents, t, x);
    }
  }

  lemma RemoveOne(t: seq<WayAnchor>, x: WayAnchor, a: seq<WayAnchor>, b: seq<WayAnchor>)
    requires multiset(t + [x]) == multiset(a + [x] + b)
    ensures multiset(t) == multiset(a + b)
  {
    assert multiset(t + [x]) == multiset(t) + multiset{x};
    assert multiset(a + [x] + b) == multiset(a + b) + multiset{x};
    assert multiset(t) == multiset(t + [x]) - multiset{x};
  }

  lemma {:induction false} SumConcat(ins: seq<OutFile>, contents: seq<seq<Edge>>, xss: seq<seq<WayAnchor>>,
                                     ess: seq<seq<Edge>>)
    requires |xss| == |ess| && forall k :: 0 <= k < |xss| ==> multiset(ess[k]) == Sum(ins, contents, xss[k])
    ensures Sum(ins, contents, Concat(xss)) == AllOf(ess)
  {
    if xss != [] {
      var n := |xss| - 1;
      SumConcat(ins, contents, xss[..n], ess[..n]);
      SumAppend(ins, contents, Concat(xss[..n]), xss[n]);
    }
  }

  // ---- The pieces of a file are the file ----

  function EndOf(ps: seq<Piece>, k: nat): nat
    requires k <= |ps|
  {
    if k == 0 then 0 else ps[k-1].last
  }

  lemma PartitionStep(ps: seq<Piece>, n: nat, k: nat)
    requires Partition(ps, n) && 0 < k <= |ps|
    ensures ps[k-1].first < ps[k-1].last <= n && ps[k-1].first == EndOf(ps, k - 1)
  {}

  lemma DelimitedStart(es: seq<Edge>, x: seq<Index>)
    requires Delimited(es, x)
    ensures |x| > 1 && x[0].offset == 0 && x[|x|-1].offset == |es|
  {}

  /** The first `k` pieces of a file hold its edges up to where they end. */
  lemma {:induction false} CutSum(ins: seq<OutFile>, contents: seq<seq<Edge>>, input: Input, f: nat, ps: seq<Piece>,
                                  k: nat)
    requires |ins| == |contents| && f < |ins| && input.index == ins[f].table.index && input.id == f && k <= |ps|
    requires Delimited(contents[f], input.index) && Increasing(input.index) && Partition(ps, |input.index| - 1)
    ensures EndOf(ps, k) < |input.index| && input.index[EndOf(ps, k)].offset <= |contents[f]|
    ensures Sum(ins, contents, AnchorsOf(input, ps[..k])) == multiset(contents[f][..input.index[EndOf(ps, k)].offset])
    decreases k
  {
    hide Sum, EdgesOf, AnchorsOf, Partition, Delimited, Increasing, AnchorOf;
    var index, all := input.index, contents[f];
    DelimitedStart(all, index);
    if k == 0 {
      assert ps[..0] == [] && all[..0] == [];
      SumNone(ins, contents, input);
    } else {
      var p := ps[k-1];
      PartitionStep(ps, |index| - 1, k);
      OffsetsIn(all, index, p.first, p.last);
      CutSum(ins, contents, input, f, ps, k - 1);
      AnchorsStep(input, ps, k - 1);
      SumSnoc(ins, contents, AnchorsOf(input, ps[..k-1]), AnchorOf(input, p));
      CutPiece(ins, contents, input, f, p);
      assert all[..index[p.last].offset] ==
          all[..index[p.first].offset] + all[index[p.first].offset..index[p.last].offset];
    }
  }

  lemma SumNone(ins: seq<OutFile>, contents: seq<seq<Edge>>, input: Input)
    ensures Sum(ins, contents, AnchorsOf(input, [])) == multiset{}
  {}

  lemma OffsetsIn(es: seq<Edge>, x: seq<Index>, a: nat, b: nat)
    requires Delimited(es, x) && Increasing(x) && a < b < |x|
    ensures x[a].offset < x[b].offset <= |es|
  {
    assert b < |x| - 1 ==> x[b].offset < x[|x|-1].offset;
  }

  lemma CutPiece(ins: seq<OutFile>, contents: seq<seq<Edge>>, input: Input, f: nat, p: Piece)
    requires f < |ins| == |contents| && input.index == ins[f].table.index && input.id == f
    requires p.first < p.last < |input.index|
    requires input.index[p.first].offset < input.index[p.last].offset <= |contents[f]|
    ensures EdgesOf(ins, contents, AnchorOf(input, p)) ==
        contents[f][input.index[p.first].offset..input.index[p.last].offset]
  {}

  /** The pieces of one partition hold exactly the edges of their file. */
  lemma FileSum(ins: seq<OutFile>, contents: seq<seq<Edge>>, input: Input, f: nat, ps: seq<Piece>)
    requires |ins| == |contents| && f < |ins| && input.index == ins[f].table.index && input.id == f
    requires Delimited(contents[f], input.index) && Increasing(input.index) && Partition(ps, Groups(input))
    ensures Sum(ins, contents, AnchorsOf(input, ps)) == multiset(contents[f])
  {
    hide Sum, AnchorsOf;
    CutSum(ins, contents, input, f, ps, |ps|);
    assert ps[..|ps|] == ps;
    var n := |contents[f]|;
    assert contents[f][..n] == contents[f];
  }

  /** All pieces, file after file. */
  ghost function InFileOrder(files: seq<Input>, cuts: seq<seq<Piece>>): seq<seq<WayAnchor>>
    requires |cuts| <= |files|
  {
    seq(|cuts|, f requires 0 <= f < |cuts| => AnchorsOf(files[f], cuts[f]))
  }

  lemma {:induction false} AllAnchorsJoined(files: seq<Input>, cuts: seq<seq<Piece>>)
    requires |cuts| <= |files|
    ensures AllAnchors(files, cuts) == multiset(Concat(InFileOrder(files, cuts)))
  {
    hide AnchorsOf;
    if cuts != [] {
      var n := |cuts| - 1;
      AllAnchorsJoined(files, cuts[..n]);
      assert InFileOrder(files, cuts)[..n] == InFileOrder(files, cuts[..n]);
    }
  }

  /** Whatever the boundaries are, the pieces of a plan hold all input edges, each once. */
  lemma PiecesHoldAll(ins: seq<OutFile>, contents: seq<seq<Edge>>, upper: nat, cuts: seq<seq<Piece>>,
                      xs: seq<WayAnchor>)
    requires Given(ins, contents) && |cuts| == |ins| && CutInto(InputsOf(ins, upper), cuts, xs)
    ensures Sum(ins, contents, xs) == AllOf(contents)
  {
    var files := InputsOf(ins, upper);
    var xss := InFileOrder(files, cuts);
    hide Sum, AllOf, AnchorsOf, AllAnchors, Concat;
    forall f | 0 <= f < |ins| ensures multiset(contents[f]) == Sum(ins, contents, xss[f]) {
      assert Tells(ins[f], contents[f]);
      TellsParts(ins[f], contents[f]);
      FileSum(ins, contents, files[f], f, cuts[f]);
    }
    hide Given, Tells, Partition;
    SumConcat(ins, contents, xss, contents);
    AllAnchorsJoined(files, cuts);
    SumPermuted(ins, contents, xs, Concat(xss));
  }

  lemma {:induction false} AnchorsFit(ins: seq<OutFile>, input: Input, f: nat, ps: seq<Piece>)
    requires f < |ins| && input.index == ins[f].table.index && input.id == f
    requires forall k :: 0 <= k < |ps| ==> ps[k].first < ps[k].last < |input.index|
    ensures AllFit(ins, AnchorsOf(input, ps))
  {
    if ps != [] {
      AnchorsFit(ins, input, f, ps[..|ps|-1]);
    }
  }

  lemma {:induction false} AllAnchorsFit(ins: seq<OutFile>, upper: nat, cuts: seq<seq<Piece>>, x: WayAnchor)
    requires |cuts| <= |ins| && x in AllAnchors(InputsOf(ins, upper), cuts)
    requires forall f :: 0 <= f < |cuts| ==> Partition(cuts[f], Groups(InputsOf(ins, upper)[f]))
    ensures Fits(ins, x)
  {
    hide Partition, Fits, AnchorsOf;
    var files, n := InputsOf(ins, upper), |cuts| - 1;
    if x in AllAnchors(files, cuts[..n]) {
      AllAnchorsFit(ins, upper, cuts[..n], x);
    } else {
      assert x in AnchorsOf(files[n], cuts[n]);
      PartitionPieces(cuts[n], files[n]);
      AnchorsFit(ins, files[n], n, cuts[n]);
    }
  }

  lemma PartitionPieces(ps: seq<Piece>, input: Input)
    requires Partition(ps, Groups(input))
    ensures forall k :: 0 <= k < |ps| ==> ps[k].first < ps[k].last < |input.index|
  {}

  // ---- One worker ----

  /** The edges of a way, piece after piece. */
  ghost function WayEdges(ins: seq<OutFile>, contents: seq<seq<Edge>>, way: seq<WayAnchor>): seq<Edge> {
    if way == [] then [] else WayEdges(ins, contents, way[..|way|-1]) + EdgesOf(ins, contents, way[|way|-1])
  }

  lemma JoinSorted(a: seq<Edge>, b: seq<Edge>)
    requires SortedEdges(a) && SortedEdges(b) && forall d, e :: d in a && e in b ==> d.src < e.src
    ensures SortedEdges(a + b)
  {
    forall i, j | 0 <= i < j < |a + b| ensures !Less((a + b)[j], (a + b)[i]) {
      if i < |a| <= j {
        assert a[i] in a && b[j - |a|] in b;
      }
    }
  }

  ghost predicate Sources(es: seq<Edge>, xs: seq<WayAnchor>) {
    forall e :: e in es ==> exists x :: x in xs && x.begin <= e.src <= x.end
  }

  /** Chained pieces give a sorted way. */
  lemma {:induction false} WaySorted(ins: seq<OutFile>, contents: seq<seq<Edge>>, way: seq<WayAnchor>)
    requires Given(ins, contents) && AllFit(ins, way) && Chained(way)
    ensures var es := WayEdges(ins, contents, way); SortedEdges(es) && Sources(es, way) && (way != [] ==> es != [])
    ensures multiset(WayEdges(ins, contents, way)) == Sum(ins, contents, way)
  {
    hide Given, EdgesOf, SortedEdges, Fits;
    if way == [] {
      NoEdges();
    } else {
      var t, x := way[..|way|-1], way[|way|-1];
      assert way == t + [x];
      WaySorted(ins, contents, t);
      PieceEdges(ins, contents, x);
      var a, b := WayEdges(ins, contents, t), EdgesOf(ins, contents, x);
      ChainBelow(a, t, b, x);
      JoinSorted(a, b);
      forall e: Edge | e in a + b ensures exists y :: y in way && y.begin <= e.src <= y.end {
        if e in a {
          var y :| y in t && y.begin <= e.src <= y.end;
          assert y in way;
        } else {
          assert x in way;
        }
      }
    }
  }

  lemma NoEdges()
    ensures SortedEdges([])
  {}

  lemma ChainBelow(a: seq<Edge>, t: seq<WayAnchor>, b: seq<Edge>, x: WayAnchor)
    requires Sources(a, t) && Chained(t + [x]) && forall e :: e in b ==> x.begin <= e.src
    ensures forall d, e :: d in a && e in b ==> d.src < e.src
  {
    forall d, e | d in a && e in b ensures d.src < e.src {
      var y :| y in t && y.begin <= d.src <= y.end;
      var i :| 0 <= i < |t| && t[i] == y;
      assert (t + [x])[i].end < (t + [x])[|t|].begin;
    }
  }

  ghost function WaysEdges(ins: seq<OutFile>, contents: seq<seq<Edge>>, ways: seq<seq<WayAnchor>>): (ws: seq<seq<Edge>>)
    ensures |ws| == |ways| && forall w :: 0 <= w < |ways| ==> ws[w] == WayEdges(ins, contents, ways[w])
  {
    seq(|ways|, w requires 0 <= w < |ways| => WayEdges(ins, contents, ways[w]))
  }

  /** The ways of a slice hold its edges. */
  lemma WaysHoldSlice(ins: seq<OutFile>, contents: seq<seq<Edge>>, slice: seq<WayAnchor>, ways: seq<seq<WayAnchor>>,
                      owner: seq<nat>)
    requires Given(ins, contents) && AllFit(ins, slice) && Assembled(slice, ways, owner)
    ensures AllOf(WaysEdges(ins, contents, ways)) == Sum(ins, contents, slice)
    ensures forall w :: 0 <= w < |ways| ==> AllFit(ins, ways[w]) && forall x :: x in ways[w] ==> x in slice
  {
    hide Given, Sum, WayEdges, AllOf, Pick, Concat, Picked, Fits;
    var ess := WaysEdges(ins, contents, ways);
    forall w | 0 <= w < |ways|
      ensures AllFit(ins, ways[w]) && (forall x :: x in ways[w] ==> x in slice)
      ensures multiset(ess[w]) == Sum(ins, contents, ways[w])
    {
      PickMembers(slice, owner, w);
      WaySorted(ins, contents, ways[w]);
    }
    SumConcat(ins, contents, ways, ess);
    AllOfConcat(ways);
    PickAll(slice, owner, |ways|);
    AllPicked(slice, owner, ways, |ways|);
    assert ways[..|ways|] == ways;
    SumPermuted(ins, contents, slice, Concat(ways));
  }

  /** Reads a way, piece after piece. */
  method ReadWay(ins: seq<OutFile>, ghost contents: seq<seq<Edge>>, way: seq<WayAnchor>) returns (es: seq<Edge>)
    requires Given(ins, contents) && AllFit(ins, way)
    ensures es == WayEdges(ins, contents, way)
  {
    hide Tells;
    es := [];
    var i := 0;
    assert way[..0] == [];
    while i < |way|
      invariant 0 <= i <= |way| && es == WayEdges(ins, contents, way[..i])
    {
      var x := way[i];
      assert x in way && Fits(ins, x);
      var more := ReadPiece(ins[x.file], x.piece.first, x.piece.last, contents[x.file]);
      assert way[..i+1][..i] == way[..i];
      es := es + more;
      i := i + 1;
    }
    assert way[..i] == way;
  }

  /** One worker: reads its ways and merges them. */
  method Work(ins: seq<OutFile>, ghost contents: seq<seq<Edge>>, ghost slice: seq<WayAnchor>,
              ways: seq<seq<WayAnchor>>, ghost owner: seq<nat>)
      returns (es: seq<Edge>)
    requires Given(ins, contents) && AllFit(ins, slice) && slice != [] && Assembled(slice, ways, owner)
    ensures SortedEdges(es) && multiset(es) == Sum(ins, contents, slice) && Sources(es, slice) && es != []
  {
    hide Given, Sum, WayEdges, AllOf, SortedEdges, IsMerge, Fits, Pick, Chained;
    WaysHoldSlice(ins, contents, slice, ways, owner);
    assert ways != [] by { assert owner[0] < |ways|; }
    var ws: seq<seq<Edge>> := [];
    while |ws| < |ways|
      invariant |ws| <= |ways|
      invariant forall w :: 0 <= w < |ws| ==> ws[w] == WayEdges(ins, contents, ways[w])
      decreases |ways| - |ws|
    {
      var w := ReadWay(ins, contents, ways[|ws|]);
      ws := ws + [w];
    }
    assert ws == WaysEdges(ins, contents, ways);
    forall w | 0 <= w < |ws| ensures ws[w] != [] && SortedEdges(ws[w]) && Sources(ws[w], ways[w]) {
      WaySorted(ins, contents, ways[w]);
    }
    ghost var from;
    es, from := MergeWays(ws);
    WorkerSources(es, ws, ways, slice);
  }

  lemma WorkerSources(es: seq<Edge>, ws: seq<seq<Edge>>, ways: seq<seq<WayAnchor>>, slice: seq<WayAnchor>)
    requires multiset(es) == AllOf(ws) && |ws| == |ways| > 0
    requires forall w :: 0 <= w < |ws| ==> ws[w] != [] && Sources(ws[w], ways[w]) && forall x :: x in ways[w] ==>
        x in slice
    ensures Sources(es, slice) && es != []
  {
    hide AllOf;
    forall e | e in es ensures exists x :: x in slice && x.begin <= e.src <= x.end {
      assert e in multiset(es);
      var w := FromSomeWay(ws, e);
      var x :| x in ways[w] && x.begin <= e.src <= x.end;
    }
    InAllOf(ws, 0, ws[0][0]);
    assert ws[0][0] in multiset(es);
  }

  // ---- All workers together ----

  ghost predicate PartsApart(parts: seq<seq<Edge>>) {
    forall v, w, d, e :: 0 <= v < w < |parts| && d in parts[v] && e in parts[w] ==> d.src < e.src
  }

  /** Sorted, non-empty, one below the other, and together these edges. */
  ghost predicate Parts(parts: seq<seq<Edge>>, all: multiset<Edge>) {
    && (forall k :: 0 <= k < |parts| ==> parts[k] != [] && SortedEdges(parts[k]))
    && PartsApart(parts) && AllOf(parts) == all
  }

  lemma ApartBySources(slices: seq<seq<WayAnchor>>, parts: seq<seq<Edge>>)
    requires SlicesApart(slices) && |slices| == |parts| && forall k :: 0 <= k < |parts| ==> Sources(parts[k], slices[k])
    ensures PartsApart(parts)
  {
    forall v, w, d: Edge, e: Edge | 0 <= v < w < |parts| && d in parts[v] && e in parts[w] ensures d.src < e.src {
      assert Sources(parts[v], slices[v]) && Sources(parts[w], slices[w]);
      var x :| x in slices[v] && x.begin <= d.src <= x.end;
      var y :| y in slices[w] && y.begin <= e.src <= y.end;
    }
  }

  lemma SlicesFit(ins: seq<OutFile>, upper: nat, cuts: seq<seq<Piece>>, slices: seq<seq<WayAnchor>>, k: nat)
    requires |cuts| <= |ins| && CutInto(InputsOf(ins, upper), cuts, Concat(slices)) && k < |slices|
    ensures AllFit(ins, slices[k])
  {
    hide Fits, AllAnchors, Partition;
    forall x | x in slices[k] ensures Fits(ins, x) {
      InAllOf(slices, k, x);
      AllOfConcat(slices);
      AllAnchorsFit(ins, upper, cuts, x);
    }
  }

  /**
   Plans a parallel compaction and lets every worker merge its share: what they write
   is sorted, their source ranges follow each other, and together it is every edge of
   every input exactly once.
   */
  method MergeInParallel(ins: seq<OutFile>, ghost contents: seq<seq<Edge>>, upper: nat, planned: nat, perFile: nat)
      returns (parts: seq<seq<Edge>>)
    requires Given(ins, contents) && planned > 1 && upper <= |ins|
    requires forall f, g :: 0 <= f < g < |ins| ==> FilesApart(InputsOf(ins, upper)[f], InputsOf(ins, upper)[g])
    ensures Parts(parts, AllOf(contents)) && |parts| <= planned
  {
    hide FilesApart, Sum, AllOf, SortedEdges, Assembled, CutInto, AllFit, SlicesApart, Sources, PartsApart, Concat;
    var files := InputsOf(ins, upper);
    forall f | 0 <= f < |ins| ensures KeysIncrease(files[f].index) && |files[f].index| > 0 {
      assert Tells(ins[f], contents[f]);
      TellsParts(ins[f], contents[f]);
      DelimitedStart(contents[f], files[f].index);
    }
    hide Tells, KeysIncrease, InputsOf, Given;
    var plan;
    ghost var cuts, slices, owners, bs, basis;
    plan, cuts, slices, owners, bs, basis := PlanCompaction(files, planned, perFile, upper + 1);
    parts := [];
    while |parts| < |plan|
      invariant |parts| <= |plan|
      invariant forall k :: 0 <= k < |parts| ==>
        SortedEdges(parts[k]) && parts[k] != [] && Sources(parts[k], slices[k]) &&
          multiset(parts[k]) == Sum(ins, contents, slices[k])
      decreases |plan| - |parts|
    {
      SlicesFit(ins, upper, cuts, slices, |parts|);
      var es := Work(ins, contents, slices[|parts|], plan[|parts|], owners[|parts|]);
      parts := parts + [es];
    }
    ApartBySources(slices, parts);
    SumConcat(ins, contents, slices, parts);
    PiecesHoldAll(ins, contents, upper, cuts, Concat(slices));
  }

  /** Joined, the parts are one sorted stream. */
  lemma {:induction false} PartsSorted(parts: seq<seq<Edge>>)
    requires PartsApart(parts) && forall k :: 0 <= k < |parts| ==> SortedEdges(parts[k])
    ensures SortedEdges(Concat(parts)) && multiset(Concat(parts)) == AllOf(parts)
  {
    hide SortedEdges;
    AllOfConcat(parts);
    if parts == [] {
      NoEdges();
    } else {
      var n := |parts| - 1;
      PartsSorted(parts[..n]);
      AllOfConcat(parts[..n]);
      var a := Concat(parts[..n]);
      forall d, e | d in a && e in parts[n] ensures d.src < e.src {
        assert d in multiset(a);
        var v := FromSomeWay(parts[..n], d);
        assert d in parts[v];
      }
      JoinSorted(a, parts[n]);
    }
  }
}
