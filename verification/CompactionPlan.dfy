/**
 The whole plan of a parallel compaction: anchors sampled from every input file,
 boundaries chosen among them, pieces, workers, and each worker's merge ways.
 */
module CompactionPlan {
  import opened Records
  import opened Topology
  import opened Interleaving
  import opened Subcompactions

  // ---- Boundaries from the files ----

  function InsertAnchor(xs: seq<Anchor>, a: Anchor): (r: seq<Anchor>)
    ensures forall x :: x in r <==> x in xs || x == a
  {
    if xs == [] || xs[|xs|-1].begin <= a.begin then xs + [a]
    else
      assert xs == xs[..|xs|-1] + [xs[|xs|-1]];
      InsertAnchor(xs[..|xs|-1], a) + [xs[|xs|-1]]
  }

  function SortAnchors(xs: seq<Anchor>): (r: seq<Anchor>)
    ensures forall x :: x in r <==> x in xs
  {
    if xs == [] then []
    else
      assert xs == xs[..|xs|-1] + [xs[|xs|-1]];
      InsertAnchor(SortAnchors(xs[..|xs|-1]), xs[|xs|-1])
  }

  ghost predicate BeginsRise(xs: seq<Anchor>) {
    forall i, j :: 0 <= i < j < |xs| ==> xs[i].begin <= xs[j].begin
  }

  lemma {:induction false} InsertAnchorSorted(xs: seq<Anchor>, a: Anchor)
    requires BeginsRise(xs)
    ensures BeginsRise(InsertAnchor(xs, a))
  {
    if xs != [] && xs[|xs|-1].begin > a.begin {
      var t := xs[..|xs|-1];
      InsertAnchorSorted(t, a);
      var r := InsertAnchor(t, a);
      forall i | 0 <= i < |r| ensures r[i].begin <= xs[|xs|-1].begin {
        assert r[i] in r;
        if r[i] in t {
          var k :| 0 <= k < |t| && t[k] == r[i];
          assert xs[k].begin <= xs[|xs|-1].begin;
        }
      }
    }
  }

  lemma {:induction false} SortAnchorsSorted(xs: seq<Anchor>)
    ensures BeginsRise(SortAnchors(xs))
  {
    if xs != [] {
      SortAnchorsSorted(xs[..|xs|-1]);
      InsertAnchorSorted(SortAnchors(xs[..|xs|-1]), xs[|xs|-1]);
    }
  }

  ghost predicate HasBegin(ys: seq<Anchor>, b: u64) {
    exists i :: 0 <= i < |ys| && ys[i].begin == b
  }

  ghost predicate Strict(ys: seq<Anchor>) {
    forall i, j :: 0 <= i < j < |ys| ==> ys[i].begin < ys[j].begin
  }

  lemma StrictSnoc(ys: seq<Anchor>, a: Anchor)
    requires Strict(ys) && (ys != [] ==> ys[|ys|-1].begin < a.begin)
    ensures Strict(ys + [a]) && HasBegin(ys + [a], a.begin) && forall b :: HasBegin(ys, b) ==> HasBegin(ys + [a], b)
  {
    var r := ys + [a];
    assert r[|ys|] == a;
    forall b | HasBegin(ys, b) ensures HasBegin(r, b) {
      var i :| 0 <= i < |ys| && ys[i].begin == b;
      assert r[i].begin == b;
    }
  }

  /** Keeps the first of several anchors with one begin. */
  method Unique(xs: seq<Anchor>) returns (ys: seq<Anchor>)
    requires BeginsRise(xs)
    ensures Strict(ys) && (forall y :: y in ys ==> y in xs) && forall x :: x in xs ==> HasBegin(ys, x.begin)
  {
    ys := [];
    var i := 0;
    while i < |xs|
      invariant 0 <= i <= |xs| && Strict(ys) && forall y :: y in ys ==> y in xs
      invariant if i > 0 then ys != [] && ys[|ys|-1].begin == xs[i-1].begin else ys == []
      invariant forall k :: 0 <= k < i ==> HasBegin(ys, xs[k].begin)
    {
      hide Strict;
      if ys == [] || ys[|ys|-1].begin != xs[i].begin {
        StrictSnoc(ys, xs[i]);
        ys := ys + [xs[i]];
      } else {
        assert HasBegin(ys, ys[|ys|-1].begin);
      }
      i := i + 1;
    }
  }

  /** Some input file has this source. */
  ghost predicate SomeHasKey(files: seq<Input>, b: u64) {
    exists f :: 0 <= f < |files| && HasKey(files[f].index, b)
  }

  /** Edges of a file and its sentinel, as its header counts them. */
  function HeaderSize(f: Input): nat
    requires |f.index| > 0
  {
    f.index[|f.index|-1].offset + 1
  }

  ghost predicate AnchoredIn(files: seq<Input>, anchors: seq<Anchor>) {
    forall a :: a in anchors ==> SomeHasKey(files, a.begin)
  }

  ghost predicate Indexed(files: seq<Input>) {
    forall f :: 0 <= f < |files| ==> KeysIncrease(files[f].index) && |files[f].index| > 0
  }

  /** What the headers add up to, and what the indexes do. */
  ghost function HeaderTotal(files: seq<Input>): nat
    requires Indexed(files)
  {
    if files == [] then 0 else HeaderTotal(files[..|files|-1]) + HeaderSize(files[|files|-1])
  }

  ghost function EdgeTotal(files: seq<Input>): int
    requires Indexed(files)
  {
    if files == [] then 0 else EdgeTotal(files[..|files|-1]) + EdgesIn(files[|files|-1].index)
  }

  function EdgesIn(index: seq<Index>): int
    requires |index| > 0
  {
    index[|index|-1].offset - index[0].offset
  }

  /** Some file's index was cut there, sixteen anchors to a file. */
  ghost predicate SampledIn(files: seq<Input>, a: Anchor) {
    exists f :: 0 <= f < |files| && |files[f].index| > 0 && ShortestRun(files[f].index, a, HeaderSize(files[f]) / 16)
  }

  lemma TotalsStep(files: seq<Input>, n: nat)
    requires Indexed(files) && n < |files|
    ensures Indexed(files[..n]) && Indexed(files[..n+1])
    ensures HeaderTotal(files[..n+1]) == HeaderTotal(files[..n]) + HeaderSize(files[n])
    ensures EdgeTotal(files[..n+1]) == EdgeTotal(files[..n]) + EdgesIn(files[n].index)
  {
    hide KeysIncrease;
    assert files[..n+1][..n] == files[..n];
  }

  /** Samples every file: no edge is left out, and `total` adds up the sizes in their headers. */
  method CollectAnchors(files: seq<Input>) returns (all: seq<Anchor>, total: nat)
    requires Indexed(files)
    ensures AnchoredIn(files, all) && total == HeaderTotal(files)
    ensures TotalSize(all) == EdgeTotal(files) && forall a :: a in all ==> SampledIn(files, a)
  {
    hide HasKey, KeysIncrease, TotalSize, ShortestRun, HeaderTotal, EdgeTotal;
    all, total := [], 0;
    var n := 0;
    NoTotals(files);
    while n < |files|
      invariant 0 <= n <= |files| && AnchoredIn(files, all) && Indexed(files[..n])
      invariant total == HeaderTotal(files[..n]) && TotalSize(all) == EdgeTotal(files[..n])
      invariant forall a :: a in all ==> SampledIn(files, a)
    {
      TotalsStep(files, n);
      total := total + HeaderSize(files[n]);
      var more := SampleAnchors(files[n].index, HeaderSize(files[n]) / 16);
      forall a | a in more ensures SomeHasKey(files, a.begin) && SampledIn(files, a) {
        var i :| 0 <= i < |more| && more[i] == a;
        assert HasKey(files[n].index, more[i].begin);
        assert ShortestRun(files[n].index, more[i], HeaderSize(files[n]) / 16);
      }
      TotalSizeAppend(all, more);
      all := all + more;
      n := n + 1;
    }
    assert files[..n] == files;
  }

  lemma NoTotals(files: seq<Input>)
    ensures Indexed(files[..0]) && HeaderTotal(files[..0]) == 0 && EdgeTotal(files[..0]) == 0 && TotalSize([]) == 0
  {}

  /** What boundaries were chosen from: all samples, those with distinct begins, and the ones taken. */
  datatype Basis = Basis(all: seq<Anchor>, anchors: seq<Anchor>, at: seq<nat>)

  ghost predicate Sampled(files: seq<Input>, basis: Basis)
    requires Indexed(files)
  {
    && TotalSize(basis.all) == EdgeTotal(files) && (forall a :: a in basis.all ==> SampledIn(files, a))
    && Strict(basis.anchors) && (forall a :: a in basis.anchors ==> a in basis.all)
    && forall a :: a in basis.all ==> HasBegin(basis.anchors, a.begin)
  }

  /** The boundaries are at the anchors that first exceed one, two, three … workers' shares of all edges. */
  ghost predicate Bounded(files: seq<Input>, planned: nat, perFile: nat, bs: seq<u64>, basis: Basis)
    requires Indexed(files) && planned > 1
  {
    var target := TargetSize(HeaderTotal(files), planned, perFile);
    && Sampled(files, basis) && Chosen(basis.anchors, target, bs, basis.at)
    && (|bs| < planned - 1 ==>
          Below(basis.anchors, target, |basis.at|, Since(basis.at, |basis.at|), |basis.anchors|))
  }

  /** Samples every file, sorts the anchors, drops repeated ones and chooses the boundaries. */
  method PlanBoundaries(files: seq<Input>, planned: nat, perFile: nat) returns (bs: seq<u64>, ghost basis: Basis)
    requires planned > 1 && Indexed(files)
    ensures Rising(bs) && |bs| < planned && forall b :: b in bs ==> SomeHasKey(files, b)
    ensures Bounded(files, planned, perFile, bs, basis)
  {
    hide HasKey, KeysIncrease, SortAnchors, SomeHasKey, BeginsRise, HasBegin, AnchorAt, Chosen, Below, SampledIn;
    hide TotalSize, HeaderTotal, EdgeTotal;
    var all, total := CollectAnchors(files);
    SortAnchorsSorted(all);
    var anchors := Unique(SortAnchors(all));
    assert AnchoredIn(files, anchors);
    ghost var at;
    bs, at := ChooseBoundaries(anchors, TargetSize(total, planned, perFile), planned);
    basis := Basis(all, anchors, at);
    BoundariesKnown(files, anchors, bs);
  }

  /** Edges per worker, at least one output file of them. */
  function TargetSize(total: nat, planned: nat, perFile: nat): nat
    requires planned > 0
  {
    if total / planned > perFile then total / planned else perFile
  }

  lemma BoundariesKnown(files: seq<Input>, anchors: seq<Anchor>, bs: seq<u64>)
    requires AnchoredIn(files, anchors) && forall i :: 0 <= i < |bs| ==> AnchorAt(anchors, bs[i])
    ensures forall b :: b in bs ==> SomeHasKey(files, b)
  {
    hide SomeHasKey;
    forall b | b in bs ensures SomeHasKey(files, b) {
      var i :| 0 <= i < |bs| && bs[i] == b;
      var a :| a in anchors && a.begin == bs[i];
    }
  }

  // ---- Shares and their ways ----

  /** Consecutive stretches of the sorted pieces. */
  ghost function SlicesOf(xs: seq<WayAnchor>, ss: seq<Share>): seq<seq<WayAnchor>> {
    seq(|ss|, k requires 0 <= k < |ss| => if ss[k].first <= ss[k].last <= |xs| then xs[ss[k].first..ss[k].last] else [])
  }

  /** Sources of one worker all precede those of the next. */
  ghost predicate SlicesApart(slices: seq<seq<WayAnchor>>) {
    forall v, w, x, y :: 0 <= v < w < |slices| && x in slices[v] && y in slices[w] ==> x.end < y.begin
  }

  /** Each way is chained, and the ways together are the slice. */
  ghost predicate Assembled(slice: seq<WayAnchor>, ways: seq<seq<WayAnchor>>, owner: seq<nat>) {
    && |owner| == |slice| && (forall i :: 0 <= i < |slice| ==> owner[i] < |ways|)
    && forall w :: 0 <= w < |ways| ==> Chained(ways[w]) && ways[w] == Pick(slice, owner, w) && ways[w] != []
  }

  lemma {:induction false} SharesJoin(xs: seq<WayAnchor>, ss: seq<Share>, from: nat, to: nat)
    requires Shares(ss, from, to) && from <= to <= |xs|
    ensures Concat(SlicesOf(xs, ss)) == xs[from..to]
    decreases |ss|
  {
    hide SlicesOf;
    if ss == [] {
      NoSlices(xs);
    } else {
      hide Concat;
      SharesWithin(ss[..|ss|-1], from, ss[|ss|-1].first);
      SharesJoin(xs, ss[..|ss|-1], from, ss[|ss|-1].first);
      JoinOneMore(xs, ss, from, to);
    }
  }

  lemma NoSlices(xs: seq<WayAnchor>)
    ensures SlicesOf(xs, []) == []
  {}

  lemma {:induction false} SharesWithin(ss: seq<Share>, from: nat, to: nat)
    requires Shares(ss, from, to)
    ensures from <= to && forall s :: s in ss ==> from <= s.first <= s.last <= to
    decreases |ss|
  {
    if ss != [] {
      SharesWithin(ss[..|ss|-1], from, ss[|ss|-1].first);
      assert ss == ss[..|ss|-1] + [ss[|ss|-1]];
    }
  }

  lemma JoinOneMore(xs: seq<WayAnchor>, ss: seq<Share>, from: nat, to: nat)
    requires ss != [] && from <= ss[|ss|-1].first <= ss[|ss|-1].last == to <= |xs|
    requires Concat(SlicesOf(xs, ss[..|ss|-1])) == xs[from..ss[|ss|-1].first]
    ensures Concat(SlicesOf(xs, ss)) == xs[from..to]
  {
    var t, s := ss[..|ss|-1], ss[|ss|-1];
    assert SlicesOf(xs, ss)[..|t|] == SlicesOf(xs, t);
    assert xs[from..s.first] + xs[s.first..to] == xs[from..to];
  }

  lemma SlicesAreApart(xs: seq<WayAnchor>, ss: seq<Share>)
    requires WorkersApart(xs, ss)
    ensures SlicesApart(SlicesOf(xs, ss))
  {
    hide SlicesOf;
    var sl := SlicesOf(xs, ss);
    forall v, w, x: WayAnchor, y: WayAnchor | 0 <= v < w < |sl| && x in sl[v] && y in sl[w] ensures x.end < y.begin {
      var i := InSlice(xs, ss, v, x);
      var j := InSlice(xs, ss, w, y);
      assert SharesApart(xs, ss[v], ss[w]);
    }
  }

  lemma InSlice(xs: seq<WayAnchor>, ss: seq<Share>, k: nat, x: WayAnchor) returns (i: nat)
    requires k < |SlicesOf(xs, ss)| && x in SlicesOf(xs, ss)[k]
    ensures k < |ss| && ss[k].first <= i < ss[k].last <= |xs| && xs[i] == x
  {
    var sl := SlicesOf(xs, ss)[k];
    var j :| 0 <= j < |sl| && sl[j] == x;
    i := ss[k].first + j;
  }

  lemma SliceQualifies(xs: seq<WayAnchor>, bs: seq<u64>, lanes: nat, s: Share)
    requires Orderly(xs, bs) && LanesApart(xs) && LanesBelow(xs, lanes) && s.first <= s.last <= |xs|
    ensures var sl := xs[s.first..s.last]; ByBegin(sl) && LanesApart(sl) && LanesBelow(sl, lanes)
    ensures forall i :: 0 <= i < s.last - s.first ==> xs[s.first..s.last][i].begin <= xs[s.first..s.last][i].end
  {
    var sl := xs[s.first..s.last];
    forall i | 0 <= i < |sl| ensures sl[i].begin <= sl[i].end {
      assert sl[i] == xs[s.first + i] && sl[i] in xs;
      assert Clear(sl[i], bs);
    }
    forall i, j | 0 <= i < j < |sl|
      ensures sl[i].begin <= sl[j].begin && (sl[i].lane == sl[j].lane ==> sl[i].end < sl[j].begin) {
      assert sl[i] == xs[s.first + i] && sl[j] == xs[s.first + j];
    }
  }

  /**
   A plan: the pieces cut from the files, dealt to workers in order of their sources,
   and each worker's pieces assembled into ways.
   */
  ghost predicate Planned(files: seq<Input>, cuts: seq<seq<Piece>>, slices: seq<seq<WayAnchor>>,
                          plan: seq<seq<seq<WayAnchor>>>, owners: seq<seq<nat>>, lanes: nat) {
    && |cuts| == |files| && CutInto(files, cuts, Concat(slices)) && SlicesApart(slices)
    && |plan| == |owners| == |slices|
    && forall k :: 0 <= k < |plan| ==> slices[k] != [] && |plan[k]| <= lanes && Assembled(slices[k], plan[k], owners[k])
  }

  /** No boundary falls between two pieces of one worker. */
  ghost predicate SplitAtAll(slices: seq<seq<WayAnchor>>, bs: seq<u64>) {
    forall k, b, x, y :: 0 <= k < |slices| && b in bs && x in slices[k] && y in slices[k] && x.begin < b ==> y.begin < b
  }

  lemma SlicesSplit(xs: seq<WayAnchor>, ss: seq<Share>, bs: seq<u64>)
    requires AllUndivided(xs, ss, bs)
    ensures SplitAtAll(SlicesOf(xs, ss), bs)
  {
    hide SlicesOf;
    var sl := SlicesOf(xs, ss);
    forall k, b, x: WayAnchor, y: WayAnchor | 0 <= k < |sl| && b in bs && x in sl[k] && y in sl[k] && x.begin < b
      ensures y.begin < b
    {
      var i := InSlice(xs, ss, k, x);
      var j := InSlice(xs, ss, k, y);
      assert Undivided(xs, ss[k], bs);
    }
  }

  /**
   From the input files to each worker's merge ways. Level-0 files have a lane each
   and the disjoint files of level 1 share one more: no worker merges more ways.
   */
  method PlanCompaction(files: seq<Input>, planned: nat, perFile: nat, ghost lanes: nat)
      returns (plan: seq<seq<seq<WayAnchor>>>, ghost cuts: seq<seq<Piece>>, ghost slices: seq<seq<WayAnchor>>,
        ghost owners: seq<seq<nat>>, ghost bs: seq<u64>, ghost basis: Basis)
    requires planned > 1 && Indexed(files) && forall f :: 0 <= f < |files| ==> files[f].lane < lanes
    requires forall f, g :: 0 <= f < g < |files| ==> FilesApart(files[f], files[g])
    ensures |plan| <= planned && Planned(files, cuts, slices, plan, owners, lanes)
    ensures Bounded(files, planned, perFile, bs, basis) && SplitAtAll(slices, bs)
  {
    hide KeysIncrease, FilesApart, HasKey, Orderly, Covered, LanesApart, LanesBelow, CutInto, Shares, WorkersApart;
    hide SlicesApart, Concat;
    hide ByBegin, Assembled, Bounded, AllUndivided, SplitAtAll;
    var bounds;
    bounds, basis := PlanBoundaries(files, planned, perFile);
    bs := bounds;
    var xs, ss;
    xs, ss, cuts := PlanWorkers(files, bounds, lanes);
    SlicesSplit(xs, ss, bs);
    SharesJoin(xs, ss, 0, |xs|);
    SharesWithin(ss, 0, |xs|);
    SlicesAreApart(xs, ss);
    slices := SlicesOf(xs, ss);
    assert xs[0..|xs|] == xs;
    plan, owners := [], [];
    while |plan| < |ss|
      invariant |plan| == |owners| <= |ss|
      invariant forall k :: 0 <= k < |plan| ==>
          slices[k] != [] && |plan[k]| <= lanes && Assembled(slices[k], plan[k], owners[k])
      decreases |ss| - |plan|
    {
      var s := ss[|plan|];
      assert s in ss;
      SliceQualifies(xs, bs, lanes, s);
      var ways;
      ghost var owner;
      ways, owner := AssembleWays(xs[s.first..s.last], lanes);
      assert Assembled(xs[s.first..s.last], ways, owner) by { AssembledBy(xs[s.first..s.last], ways, owner); }
      plan, owners := plan + [ways], owners + [owner];
    }
  }

  lemma AssembledBy(slice: seq<WayAnchor>, ways: seq<seq<WayAnchor>>, owner: seq<nat>)
    requires |owner| == |slice| && (forall i :: 0 <= i < |slice| ==> owner[i] < |ways|)
    requires forall w :: 0 <= w < |ways| ==> Chained(ways[w]) && ways[w] == Pick(slice, owner, w)
    requires forall w :: 0 <= w < |ways| ==> ways[w] != []
    ensures Assembled(slice, ways, owner)
  {
    hide Chained, Pick;
  }
}
