/**
 Planning a parallel compaction: boundaries taken from the input files, the pieces
 each file is cut into, the assignment of pieces to workers, and the assembly of
 one worker's pieces into merge ways.
 */
module Subcompactions {
  import opened Records
  import opened Topology
  import opened Interleaving

  // ---- Boundaries ----

  datatype Anchor = Anchor(begin: u64, size: nat)

  /** `k` is the source of some group, not the sentinel. */
  ghost predicate HasKey(index: seq<Index>, k: u64) {
    exists i :: 0 <= i < |index| - 1 && index[i].key == k
  }

  function TotalSize(anchors: seq<Anchor>): nat {
    if anchors == [] then 0 else TotalSize(anchors[..|anchors|-1]) + anchors[|anchors|-1].size
  }

  lemma TotalSizeStep(anchors: seq<Anchor>, a: Anchor)
    ensures TotalSize(anchors + [a]) == TotalSize(anchors) + a.size
  {
    assert (anchors + [a])[..|anchors|] == anchors;
  }

  /** The anchor stands for consecutive sources, and all but the last of them hold at most `per` edges. */
  ghost predicate ShortestRun(index: seq<Index>, x: Anchor, per: nat) {
    exists a, b :: RunIs(index, x, per, a, b)
  }

  ghost predicate RunIs(index: seq<Index>, x: Anchor, per: nat, a: nat, b: nat) {
    && a < b < |index| && index[a].key == x.begin
    && x.size == index[b].offset - index[a].offset && index[b-1].offset - index[a].offset <= per
  }

  /**
   Samples a file's index into the shortest anchors of more than `per` edges; each begins
   at one of its sources and no edge is left out.
   */
  method SampleAnchors(index: seq<Index>, per: nat) returns (anchors: seq<Anchor>)
    requires KeysIncrease(index) && |index| > 0
    ensures forall i :: 0 <= i < |anchors| ==> HasKey(index, anchors[i].begin)
    ensures forall i, j :: 0 <= i < j < |anchors| ==> anchors[i].begin < anchors[j].begin
    ensures forall i :: 0 <= i < |anchors| - 1 ==> anchors[i].size > per
    ensures forall i :: 0 <= i < |anchors| ==> ShortestRun(index, anchors[i], per)
    ensures TotalSize(anchors) == index[|index|-1].offset - index[0].offset
  {
    hide TotalSize, ShortestRun;
    anchors := [];
    assert TotalSize([]) == 0 by { NoSize(); }
    var offset, src, size := index[0].offset, index[0].key, 0;
    ghost var at := 0;
    var j := 0;
    while j < |index|
      invariant 0 <= j <= |index| && 0 <= at < |index| && at <= j && offset == index[at].offset && src == index[at].key
      invariant size > 0 ==> at < |index| - 1
      invariant TotalSize(anchors) == offset - index[0].offset && forall i :: 0 <= i < |anchors| ==>
          anchors[i].size > per
      invariant j > 0 ==> size == index[j-1].offset - offset <= per
      invariant j == 0 ==> size == 0
      invariant forall i :: 0 <= i < |anchors| ==> ShortestRun(index, anchors[i], per)
      invariant forall i :: 0 <= i < |anchors| ==> HasKey(index, anchors[i].begin) && anchors[i].begin < src
      invariant forall i, k :: 0 <= i < k < |anchors| ==> anchors[i].begin < anchors[k].begin
    {
      assert at < j ==> index[at].offset <= index[j].offset && index[at].key < index[j].key;
      size := index[j].offset - offset;
      if size > per {
        assert HasKey(index, src);
        IsShortest(index, Anchor(src, size), per, at, j);
        TotalSizeStep(anchors, Anchor(src, size));
        anchors := anchors + [Anchor(src, size)];
        size := 0;
        offset := index[j].offset;
        src := index[j].key;
        at := j;
      }
      j := j + 1;
    }
    if size > 0 {
      assert HasKey(index, src);
      assert index[|index|-2].offset <= index[|index|-1].offset;
      IsShortest(index, Anchor(src, size), per, at, |index| - 1);
      TotalSizeStep(anchors, Anchor(src, size));
      anchors := anchors + [Anchor(src, size)];
    }
  }

  lemma IsShortest(index: seq<Index>, x: Anchor, per: nat, a: nat, b: nat)
    requires RunIs(index, x, per, a, b)
    ensures ShortestRun(index, x, per)
  {}

  lemma NoSize()
    ensures TotalSize([]) == 0
  {}

  ghost predicate Rising(bs: seq<u64>) {
    forall i, j :: 0 <= i < j < |bs| ==> bs[i] < bs[j]
  }

  ghost predicate AnchorAt(anchors: seq<Anchor>, b: u64) {
    exists a :: a in anchors && a.begin == b
  }

  /** Edges up to and including anchor `i`. */
  function Reach(anchors: seq<Anchor>, i: nat): nat
    requires i < |anchors|
  {
    TotalSize(anchors[..i+1])
  }

  /** What the first `k + 1` workers should get together. */
  function Quota(target: nat, k: nat): nat {
    (k + 1) * target
  }

  /** The anchors looked at between boundary `k - 1` and boundary `k`. */
  function Since(at: seq<nat>, k: nat): nat
    requires k <= |at|
  {
    if k == 0 then 0 else at[k-1] + 1
  }

  /** Anchors from `from` up to `to` stay within the share of the first `k + 1` workers. */
  ghost predicate Below(anchors: seq<Anchor>, target: nat, k: nat, from: nat, to: nat) {
    forall i :: from <= i < to && i < |anchors| ==> Reach(anchors, i) <= Quota(target, k)
  }

  /** Boundary `k` is at the first anchor, after the one before, that exceeds the share of `k + 1` workers. */
  ghost predicate ChosenAt(anchors: seq<Anchor>, target: nat, boundaries: seq<u64>, at: seq<nat>, k: nat)
    requires k < |at| == |boundaries|
  {
    && Since(at, k) <= at[k] < |anchors| && boundaries[k] == anchors[at[k]].begin
    && Reach(anchors, at[k]) > Quota(target, k) && Below(anchors, target, k, Since(at, k), at[k])
  }

  ghost predicate Chosen(anchors: seq<Anchor>, target: nat, boundaries: seq<u64>, at: seq<nat>) {
    |at| == |boundaries| && forall k :: 0 <= k < |at| ==> ChosenAt(anchors, target, boundaries, at, k)
  }

  lemma ChooseHere(anchors: seq<Anchor>, target: nat, boundaries: seq<u64>, at: seq<nat>, i: nat)
    requires Chosen(anchors, target, boundaries, at) && Since(at, |at|) <= i < |anchors|
    requires Reach(anchors, i) > Quota(target, |at|) && Below(anchors, target, |at|, Since(at, |at|), i)
    ensures Chosen(anchors, target, boundaries + [anchors[i].begin], at + [i])
  {
    hide Below, Reach, Quota;
    var at', bs' := at + [i], boundaries + [anchors[i].begin];
    forall k | 0 <= k < |at'| ensures ChosenAt(anchors, target, bs', at', k) {
      if k < |at| {
        assert ChosenAt(anchors, target, boundaries, at, k);
      }
      assert Since(at', k) == Since(at, k);
    }
  }

  lemma NothingChosen(anchors: seq<Anchor>, target: nat)
    ensures Chosen(anchors, target, [], []) && Below(anchors, target, 0, 0, 0) && TotalSize(anchors[..0]) == 0
  {}

  lemma StillBelow(anchors: seq<Anchor>, target: nat, k: nat, from: nat, i: nat)
    requires i < |anchors| && Below(anchors, target, k, from, i) && Reach(anchors, i) <= Quota(target, k)
    ensures Below(anchors, target, k, from, i + 1)
  {
    hide Reach;
  }

  lemma NextThreshold(target: nat, k: nat)
    ensures Quota(target, 0) == target && Quota(target, k + 1) == Quota(target, k) + target
  {}

  /**
   Walks the sorted, duplicate-free anchors and starts a new range at each size
   threshold, until the planned number of ranges is reached.
   */
  method ChooseBoundaries(anchors: seq<Anchor>, target: nat, planned: nat)
      returns (boundaries: seq<u64>, ghost at: seq<nat>)
    requires planned > 1 && forall i, j :: 0 <= i < j < |anchors| ==> anchors[i].begin < anchors[j].begin
    ensures Rising(boundaries) && |boundaries| < planned
    ensures forall i :: 0 <= i < |boundaries| ==> AnchorAt(anchors, boundaries[i])
    ensures Chosen(anchors, target, boundaries, at)
    ensures |boundaries| < planned - 1 ==> Below(anchors, target, |at|, Since(at, |at|), |anchors|)
  {
    hide Chosen, Below, TotalSize, Quota;
    boundaries, at := [], [];
    var threshold, total, actual := target, 0, 1;
    var i := 0;
    NothingChosen(anchors, target);
    NextThreshold(target, 0);
    while i < |anchors| && actual != planned
      invariant 0 <= i <= |anchors| && actual == 1 + |boundaries| <= planned && |at| == |boundaries|
      invariant Rising(boundaries)
      invariant forall j :: 0 <= j < |boundaries| ==> AnchorAt(anchors, boundaries[j])
      invariant forall j :: 0 <= j < |boundaries| && i < |anchors| ==> boundaries[j] < anchors[i].begin
      invariant total == TotalSize(anchors[..i]) && threshold == Quota(target, |at|)
      invariant Chosen(anchors, target, boundaries, at) && Since(at, |at|) <= i
      invariant Below(anchors, target, |at|, Since(at, |at|), i)
    {
      total := total + anchors[i].size;
      TotalSizeStep(anchors[..i], anchors[i]);
      assert anchors[..i] + [anchors[i]] == anchors[..i+1];
      if total > threshold {
        ChooseHere(anchors, target, boundaries, at, i);
        NextThreshold(target, |at|);
        threshold := threshold + target;
        actual := actual + 1;
        assert anchors[i] in anchors;
        boundaries, at := boundaries + [anchors[i].begin], at + [i];
        NoneBetween(anchors, target, |at|, i + 1);
      } else {
        StillBelow(anchors, target, |at|, Since(at, |at|), i);
      }
      i := i + 1;
    }
  }

  lemma NoneBetween(anchors: seq<Anchor>, target: nat, k: nat, i: nat)
    ensures Below(anchors, target, k, i, i)
  {}

  lemma {:induction false} TotalSizeAppend(a: seq<Anchor>, b: seq<Anchor>)
    ensures TotalSize(a + b) == TotalSize(a) + TotalSize(b)
    decreases |b|
  {
    if b == [] {
      assert a + b == a;
    } else {
      TotalSizeAppend(a, b[..|b|-1]);
      assert (a + b)[..|a + b|-1] == a + b[..|b|-1];
    }
  }

  /** Between two boundaries lies less than one worker's share, the anchor of the first boundary not counted. */
  lemma RangesBalanced(anchors: seq<Anchor>, target: nat, boundaries: seq<u64>, at: seq<nat>, k: nat)
    requires Chosen(anchors, target, boundaries, at) && 0 < k < |at|
    ensures at[k-1] + 1 <= at[k] < |anchors|
    ensures at[k-1] + 1 < at[k] ==> TotalSize(anchors[at[k-1] + 1..at[k]]) < target
  {
    hide TotalSize, Quota;
    var p, q := at[k-1], at[k];
    assert ChosenAt(anchors, target, boundaries, at, k - 1) && ChosenAt(anchors, target, boundaries, at, k);
    if p + 1 < q {
      assert Reach(anchors, q - 1) <= Quota(target, k);
      assert Reach(anchors, p) > Quota(target, k - 1);
      NextThreshold(target, k - 1);
      assert anchors[..p+1] + anchors[p+1..q] == anchors[..q];
      TotalSizeAppend(anchors[..p+1], anchors[p+1..q]);
    }
  }

  // ---- Cutting one file ----

  method LowBound(index: seq<Index>, key: u64, last: nat) returns (r: nat)
    requires KeysIncrease(index) && last <= |index|
    ensures r <= last
    ensures forall i :: 0 <= i < r ==> index[i].key < key
    ensures forall i :: r <= i < last ==> index[i].key >= key
  {
    var start, end := 0, last;
    while start < end
      invariant 0 <= start <= end <= last
      invariant forall i :: 0 <= i < start ==> index[i].key < key
      invariant forall i :: end <= i < last ==> index[i].key >= key
    {
      var mid := (start + end) / 2;
      if index[mid].key >= key {
        end := mid;
      } else {
        start := mid + 1;
      }
    }
    r := start;
  }

  /** Index positions `[first, last)` of one file. */
  datatype Piece = Piece(first: nat, last: nat)

  /** Consecutive non-empty pieces that cover `[0, n)` exactly once. */
  ghost predicate Partition(ps: seq<Piece>, n: nat) {
    && (n > 0 ==> |ps| > 0 && ps[0].first == 0 && ps[|ps|-1].last == n)
    && (n == 0 ==> ps == [])
    && (forall i :: 0 <= i < |ps| ==> ps[i].first < ps[i].last <= n)
    && (forall i :: 0 <= i < |ps| - 1 ==> ps[i].last == ps[i+1].first)
  }

  /** No boundary falls inside the piece. */
  ghost predicate Uncut(index: seq<Index>, p: Piece, bs: seq<u64>) {
    p.first < p.last <= |index| && forall b :: b in bs ==> index[p.last-1].key < b || b <= index[p.first].key
  }

  /** A boundary separates the source at `first` from the one before. */
  ghost predicate CutAt(index: seq<Index>, bs: seq<u64>, first: nat) {
    0 < first < |index| && exists b :: b in bs && index[first-1].key < b <= index[first].key
  }

  /** Some piece starts at source `k`. */
  ghost predicate StartsAt(index: seq<Index>, ps: seq<Piece>, k: u64) {
    exists i :: 0 <= i < |ps| && ps[i].first < |index| && index[ps[i].first].key == k
  }

  /** Every boundary seen so far is at or below the source where the next piece starts. */
  ghost predicate Passed(index: seq<Index>, bs: seq<u64>, i: nat, last: nat)
    requires i <= |bs| && last < |index|
  {
    forall b :: b in bs[..i] ==> b <= index[last].key
  }

  ghost predicate Started(index: seq<Index>, ps: seq<Piece>, bs: seq<u64>, i: nat, last: nat)
    requires i <= |bs| && last < |index|
  {
    forall b :: b in bs[..i] && HasKey(index, b) ==> StartsAt(index, ps, b) || index[last].key == b
  }

  lemma CutStep(index: seq<Index>, ps: seq<Piece>, bs: seq<u64>, i: nat, last: nat, j: nat)
    requires KeysIncrease(index) && Rising(bs) && i < |bs| && last < j < |index|
    requires Passed(index, bs, i, last) && Started(index, ps, bs, i, last) && Partition(ps, last)
    requires forall k :: 0 <= k < |ps| ==> Uncut(index, ps[k], bs)
    requires forall k :: 0 <= k < j ==> index[k].key < bs[i]
    ensures var qs := ps + [Piece(last, j)];
            && Partition(qs, j) && (forall k :: 0 <= k < |qs| ==> Uncut(index, qs[k], bs))
            && forall b :: b in bs[..i] && HasKey(index, b) ==> StartsAt(index, qs, b)
  {
    var qs := ps + [Piece(last, j)];
    forall b | b in bs ensures index[j-1].key < b || b <= index[last].key {
      var k :| 0 <= k < |bs| && bs[k] == b;
      if k < i {
        assert b in bs[..i];
      } else {
        assert bs[i] <= b;
      }
    }
    assert Uncut(index, qs[|ps|], bs);
    forall b | b in bs[..i] && HasKey(index, b) ensures StartsAt(index, qs, b) {
      if StartsAt(index, ps, b) {
        var k :| 0 <= k < |ps| && ps[k].first < |index| && index[ps[k].first].key == b;
        assert qs[k] == ps[k];
      } else {
        assert qs[|ps|].first == last;
      }
    }
  }

  lemma LastPiece(index: seq<Index>, ps: seq<Piece>, bs: seq<u64>, last: nat)
    requires KeysIncrease(index) && last < |index| - 1
    requires Passed(index, bs, |bs|, last) && Started(index, ps, bs, |bs|, last) && Partition(ps, last)
    requires forall k :: 0 <= k < |ps| ==> Uncut(index, ps[k], bs)
    ensures var qs := ps + [Piece(last, |index| - 1)];
            && Partition(qs, |index| - 1) && (forall k :: 0 <= k < |qs| ==> Uncut(index, qs[k], bs))
            && forall b :: b in bs && HasKey(index, b) ==> StartsAt(index, qs, b)
  {
    assert bs[..|bs|] == bs;
    var qs := ps + [Piece(last, |index| - 1)];
    assert Uncut(index, qs[|ps|], bs);
    forall b | b in bs && HasKey(index, b) ensures StartsAt(index, qs, b) {
      if StartsAt(index, ps, b) {
        var k :| 0 <= k < |ps| && ps[k].first < |index| && index[ps[k].first].key == b;
        assert qs[k] == ps[k];
      } else {
        assert qs[|ps|].first == last;
      }
    }
  }

  lemma PastTheEnd(index: seq<Index>, ps: seq<Piece>, bs: seq<u64>, i: nat)
    requires Rising(bs) && i < |bs|
    requires forall k :: 0 <= k < |index| - 1 ==> index[k].key < bs[i]
    requires forall b :: b in bs[..i] && HasKey(index, b) ==> StartsAt(index, ps, b)
    ensures forall b :: b in bs && HasKey(index, b) ==> StartsAt(index, ps, b)
  {
    forall b | b in bs && b !in bs[..i] ensures !HasKey(index, b) {
      var k :| 0 <= k < |bs| && bs[k] == b;
      assert bs[i] <= bs[k];
    }
  }

  /**
   Cuts one file at the boundaries and nowhere else: the pieces partition its sources,
   none crosses a boundary, and a boundary that is one of its sources starts a piece.
   */
  method CutFile(index: seq<Index>, bs: seq<u64>) returns (ps: seq<Piece>)
    requires KeysIncrease(index) && Rising(bs)
    ensures Partition(ps, if |index| <= 1 then 0 else |index| - 1)
    ensures forall k :: 0 <= k < |ps| ==> Uncut(index, ps[k], bs)
    ensures forall k :: 0 < k < |ps| ==> CutAt(index, bs, ps[k].first)
    ensures forall b :: b in bs && HasKey(index, b) ==> StartsAt(index, ps, b)
  {
    hide Uncut, StartsAt, HasKey, CutAt;
    ps := [];
    if |index| <= 1 {
      NoKeys(index, bs);
      return;
    }
    var src, j, last := index[0].key, 0, 0;
    var i := 0;
    assert bs[..0] == [];
    while i < |bs|
      invariant 0 <= i <= |bs| && last < |index| - 1 && j < |index| - 1 && src == index[last].key
      invariant Partition(ps, last) && forall k :: 0 <= k < |ps| ==> Uncut(index, ps[k], bs)
      invariant Passed(index, bs, i, last) && Started(index, ps, bs, i, last)
      invariant last > 0 ==> forall m :: i <= m < |bs| ==> index[last-1].key < bs[m]
      invariant (last > 0 ==> CutAt(index, bs, last)) && forall k :: 0 < k < |ps| ==> CutAt(index, bs, ps[k].first)
    {
      j := LowBound(index, bs[i], |index| - 1);
      assert bs[..i+1] == bs[..i] + [bs[i]];
      if j == 0 || bs[i] < src || j == last {
        Skipped(index, ps, bs, i, last, j);
      } else {
        CutStep(index, ps, bs, i, last, j);
        ps := ps + [Piece(last, j)];
        src := index[j].key;
        last := j;
        if j == |index| - 1 {
          PastTheEnd(index, ps, bs, i);
          return;
        }
        Landed(index, ps, bs, i, j);
        CutsHere(index, bs, i, j);
      }
      i := i + 1;
    }
    if j < |index| - 1 {
      LastPiece(index, ps, bs, last);
      ps := ps + [Piece(last, |index| - 1)];
    }
  }

  lemma CutsHere(index: seq<Index>, bs: seq<u64>, i: nat, j: nat)
    requires i < |bs| && 0 < j < |index| && index[j-1].key < bs[i] <= index[j].key
    ensures CutAt(index, bs, j)
  {
    assert bs[i] in bs;
  }

  lemma NoKeys(index: seq<Index>, bs: seq<u64>)
    requires |index| <= 1
    ensures forall b :: b in bs ==> !HasKey(index, b)
  {}

  /** A boundary that cuts nothing off is at the start of the piece being built. */
  lemma Skipped(index: seq<Index>, ps: seq<Piece>, bs: seq<u64>, i: nat, last: nat, j: nat)
    requires KeysIncrease(index) && i < |bs| && last < |index| - 1 && j <= |index| - 1
    requires Passed(index, bs, i, last) && Started(index, ps, bs, i, last)
    requires last > 0 ==> index[last-1].key < bs[i]
    requires forall k :: 0 <= k < j ==> index[k].key < bs[i]
    requires forall k :: j <= k < |index| - 1 ==> index[k].key >= bs[i]
    requires j == 0 || bs[i] < index[last].key || j == last
    ensures j == last && Passed(index, bs, i + 1, last) && Started(index, ps, bs, i + 1, last)
  {
    hide StartsAt;
    assert bs[..i+1] == bs[..i] + [bs[i]];
    assert j >= last;
    if HasKey(index, bs[i]) {
      var k :| 0 <= k < |index| - 1 && index[k].key == bs[i];
      assert k >= j;
    }
  }

  /** A cut lands on the boundary's own source, if the file has it. */
  lemma Landed(index: seq<Index>, ps: seq<Piece>, bs: seq<u64>, i: nat, j: nat)
    requires KeysIncrease(index) && Rising(bs) && i < |bs| && 0 < j < |index| - 1
    requires forall k :: 0 <= k < j ==> index[k].key < bs[i]
    requires forall k :: j <= k < |index| - 1 ==> index[k].key >= bs[i]
    requires forall b :: b in bs[..i] && HasKey(index, b) ==> StartsAt(index, ps, b)
    ensures Passed(index, bs, i + 1, j) && Started(index, ps, bs, i + 1, j)
    ensures forall m :: i + 1 <= m < |bs| ==> index[j-1].key < bs[m]
  {
    hide StartsAt;
    assert bs[..i+1] == bs[..i] + [bs[i]];
    forall b | b in bs[..i] ensures b < bs[i] {
      var m :| 0 <= m < i && bs[m] == b;
    }
    if HasKey(index, bs[i]) {
      var k :| 0 <= k < |index| - 1 && index[k].key == bs[i];
      assert k >= j;
    }
    forall m | i + 1 <= m < |bs| ensures index[j-1].key < bs[m] {
      assert bs[i] < bs[m];
    }
  }

  // ---- Assigning pieces to workers ----

  /** A piece of some input file: its lane tells overlapping files apart. */
  datatype WayAnchor = WayAnchor(begin: u64, end: u64, lane: nat, file: nat, piece: Piece)

  ghost predicate ByBegin(xs: seq<WayAnchor>) {
    forall i, j :: 0 <= i < j < |xs| ==> xs[i].begin <= xs[j].begin
  }

  ghost predicate Clear(x: WayAnchor, bs: seq<u64>) {
    x.begin <= x.end && forall b :: b in bs ==> x.end < b || b <= x.begin
  }

  /** Positions `[first, last)` of the sorted pieces. */
  datatype Share = Share(first: nat, last: nat)

  /** The shares are consecutive and cover all pieces: each goes to exactly one worker. */
  ghost predicate Shares(ss: seq<Share>, from: nat, to: nat) {
    if ss == [] then from == to
    else ss[|ss|-1].first <= ss[|ss|-1].last == to && Shares(ss[..|ss|-1], from, ss[|ss|-1].first)
  }

  /** Everything before the share ends below `b`, everything from it on begins at or above. */
  ghost predicate SplitAt(xs: seq<WayAnchor>, cnt: nat, b: u64)
    requires cnt <= |xs|
  {
    (forall i :: 0 <= i < cnt ==> xs[i].end < b) && (forall i :: cnt <= i < |xs| ==> xs[i].begin >= b)
  }

  ghost predicate SharesApart(xs: seq<WayAnchor>, s: Share, t: Share) {
    forall i, j :: s.first <= i < s.last && t.first <= j < t.last && i < |xs| && j < |xs| ==> xs[i].end < xs[j].begin
  }

  /** Sources of different workers are apart, whichever workers they are. */
  ghost predicate WorkersApart(xs: seq<WayAnchor>, ss: seq<Share>) {
    forall v, w :: 0 <= v < w < |ss| ==> SharesApart(xs, ss[v], ss[w])
  }

  /** No boundary falls inside the share. */
  ghost predicate Undivided(xs: seq<WayAnchor>, s: Share, bs: seq<u64>) {
    forall b, i, j :: b in bs && s.first <= i < s.last && s.first <= j < s.last && s.last <= |xs| && xs[i].begin < b ==>
      xs[j].begin < b
  }

  ghost predicate AllUndivided(xs: seq<WayAnchor>, ss: seq<Share>, bs: seq<u64>) {
    forall k :: 0 <= k < |ss| ==> Undivided(xs, ss[k], bs)
  }

  /** Skips the pieces that begin below `b`; one begins at it. */
  method SkipBelow(xs: seq<WayAnchor>, b: u64, from: nat, ghost hit: nat) returns (cnt: nat, last: nat)
    requires ByBegin(xs) && from <= hit < |xs| && xs[hit].begin == b
    ensures from <= cnt < |xs| && last == cnt
    ensures xs[cnt].begin >= b && forall j :: from <= j < cnt ==> xs[j].begin < b
  {
    cnt := from;
    var i := from;
    last := from;
    while i < |xs|
      invariant from <= i == cnt <= hit
      invariant forall j :: from <= j < i ==> xs[j].begin < b
    {
      last := i;
      if xs[i].begin >= b {
        break;
      }
      i := i + 1;
      cnt := cnt + 1;
    }
  }

  /**
   Hands each worker the pieces below its boundary, the rest to the caller. Every
   boundary starts a piece, so the scan always stops before the end and no piece is
   lost; no piece crosses a boundary, so the workers' ranges are disjoint.
   */
  method AssignShares(xs: seq<WayAnchor>, bs: seq<u64>) returns (ss: seq<Share>)
    requires ByBegin(xs) && Rising(bs)
    requires forall i :: 0 <= i < |xs| ==> Clear(xs[i], bs)
    requires forall b :: b in bs ==> exists i :: 0 <= i < |xs| && xs[i].begin == b
    ensures Shares(ss, 0, |xs|) && |ss| <= |bs| + 1 && forall s :: s in ss ==> s.first < s.last
    ensures WorkersApart(xs, ss) && AllUndivided(xs, ss, bs)
  {
    hide Shares, WorkersApart, Clear, SplitAt, AllUndivided, Undivided;
    ss := [];
    NoShares(xs);
    var cnt, first, last := 0, 0, 0;
    var k := 0;
    while k < |bs|
      invariant 0 <= k <= |bs| && cnt <= |xs| && Shares(ss, 0, cnt) && WorkersApart(xs, ss)
      invariant |ss| <= k && forall s :: s in ss ==> s.first < s.last <= cnt
      invariant AllUndivided(xs, ss, bs)
      invariant if k > 0 then SplitAt(xs, cnt, bs[k-1]) else ss == [] && cnt == 0
    {
      first := cnt;
      assert bs[k] in bs;
      ghost var hit :| 0 <= hit < |xs| && xs[hit].begin == bs[k];
      assert xs[hit].begin <= xs[hit].end by { ClearIsSpan(xs[hit], bs); }
      BelowIsPassed(xs, bs, k, first, hit);
      cnt, last := SkipBelow(xs, bs[k], first, hit);
      SplitHere(xs, bs, k, first, cnt);
      OneRange(xs, ss, bs, k, first, cnt);
      if first != last {
        ShareStep(xs, ss, first, last, if k > 0 then bs[k-1] else 0);
        ss := ss + [Share(first, last)];
      }
      k := k + 1;
    }
    if cnt != |xs| {
      OneRange(xs, ss, bs, |bs|, cnt, |xs|);
      ShareStep(xs, ss, cnt, |xs|, if |bs| > 0 then bs[|bs|-1] else 0);
      ss := ss + [Share(cnt, |xs|)];
    }
  }

  lemma BelowIsPassed(xs: seq<WayAnchor>, bs: seq<u64>, k: nat, first: nat, hit: nat)
    requires Rising(bs) && k < |bs| && first <= |xs| && hit < |xs| && xs[hit].begin == bs[k]
    requires if k > 0 then SplitAt(xs, first, bs[k-1]) else first == 0
    requires xs[hit].begin <= xs[hit].end
    ensures first <= hit
  {}

  lemma SplitHere(xs: seq<WayAnchor>, bs: seq<u64>, k: nat, first: nat, cnt: nat)
    requires ByBegin(xs) && Rising(bs) && k < |bs| && first <= cnt < |xs|
    requires forall i :: 0 <= i < |xs| ==> Clear(xs[i], bs)
    requires if k > 0 then SplitAt(xs, first, bs[k-1]) else first == 0
    requires xs[cnt].begin >= bs[k] && forall j :: first <= j < cnt ==> xs[j].begin < bs[k]
    ensures SplitAt(xs, cnt, bs[k])
  {
    forall i | 0 <= i < cnt ensures xs[i].end < bs[k] {
      assert Clear(xs[i], bs);
      assert bs[k] in bs;
    }
    assert forall i :: cnt < i < |xs| ==> xs[cnt].begin <= xs[i].begin;
  }

  lemma OneRange(xs: seq<WayAnchor>, ss: seq<Share>, bs: seq<u64>, k: nat, first: nat, last: nat)
    requires Rising(bs) && k <= |bs| && first <= last <= |xs|
    requires k > 0 ==> SplitAt(xs, first, bs[k-1])
    requires k < |bs| ==> SplitAt(xs, last, bs[k])
    requires AllUndivided(xs, ss, bs) && forall i :: 0 <= i < |xs| ==> Clear(xs[i], bs)
    ensures AllUndivided(xs, ss + [Share(first, last)], bs)
  {
    UndividedRange(xs, bs, k, first, last);
    hide Undivided;
  }

  lemma UndividedRange(xs: seq<WayAnchor>, bs: seq<u64>, k: nat, first: nat, last: nat)
    requires Rising(bs) && k <= |bs| && first <= last <= |xs|
    requires k > 0 ==> SplitAt(xs, first, bs[k-1])
    requires k < |bs| ==> SplitAt(xs, last, bs[k])
    requires forall i :: 0 <= i < |xs| ==> Clear(xs[i], bs)
    ensures Undivided(xs, Share(first, last), bs)
  {
    forall b, i, j | b in bs && first <= i < last && first <= j < last && xs[i].begin < b ensures xs[j].begin < b {
      var m :| 0 <= m < |bs| && bs[m] == b;
      assert k > 0 ==> bs[k-1] <= xs[i].begin;
      assert m < k ==> bs[m] <= bs[k-1];
      assert Clear(xs[j], bs);
      if k < |bs| {
        assert xs[j].end < bs[k];
      }
    }
  }

  lemma ShareStep(xs: seq<WayAnchor>, ss: seq<Share>, first: nat, last: nat, b: u64)
    requires first <= last <= |xs| && Shares(ss, 0, first) && WorkersApart(xs, ss)
    requires (forall s :: s in ss ==> s.last <= first) && (ss != [] ==> SplitAt(xs, first, b))
    ensures Shares(ss + [Share(first, last)], 0, last) && WorkersApart(xs, ss + [Share(first, last)])
  {
    var tt := ss + [Share(first, last)];
    assert tt[..|ss|] == ss;
    forall v, w | 0 <= v < w < |tt| ensures SharesApart(xs, tt[v], tt[w]) {
      assert tt[v] == ss[v];
      if w < |ss| {
        assert SharesApart(xs, ss[v], ss[w]);
      }
    }
  }

  lemma ClearIsSpan(x: WayAnchor, bs: seq<u64>)
    requires Clear(x, bs)
    ensures x.begin <= x.end
  {}

  lemma NoShares(xs: seq<WayAnchor>)
    ensures Shares([], 0, 0) && WorkersApart(xs, []) && forall bs :: AllUndivided(xs, [], bs)
  {}

  // ---- Assembling one worker's pieces into merge ways ----

  /** Pieces of one way follow each other without overlap. */
  ghost predicate Chained(way: seq<WayAnchor>) {
    forall i, j :: 0 <= i < j < |way| ==> way[i].end < way[j].begin
  }

  /** Pieces of one lane do not overlap: they come from one file, or from files of a sorted level. */
  ghost predicate LanesApart(xs: seq<WayAnchor>) {
    forall i, j :: 0 <= i < j < |xs| && xs[i].lane == xs[j].lane ==> xs[i].end < xs[j].begin
  }

  ghost predicate LanesBelow(xs: seq<WayAnchor>, lanes: nat) {
    forall i :: 0 <= i < |xs| ==> xs[i].lane < lanes
  }

  /** `tails[w]` is the position in `xs` of the last piece of way `w`. */
  ghost predicate Tails(xs: seq<WayAnchor>, n: nat, ends: seq<u64>, tails: seq<nat>)
    requires n <= |xs|
  {
    && |tails| == |ends|
    && (forall w :: 0 <= w < |tails| ==> tails[w] < n && xs[tails[w]].end == ends[w])
    && (forall v, w :: 0 <= v < w < |tails| ==> tails[v] != tails[w])
  }

  lemma {:induction false} DistinctBounded(s: seq<nat>, n: nat)
    requires forall i :: 0 <= i < |s| ==> s[i] < n
    requires forall i, j :: 0 <= i < j < |s| ==> s[i] != s[j]
    ensures |s| <= n
    decreases n
  {
    if s != [] {
      assert s[0] < n;
      if n - 1 in s {
        var k :| 0 <= k < |s| && s[k] == n - 1;
        DistinctBounded(s[..k] + s[k+1..], n - 1);
      } else {
        DistinctBounded(s, n - 1);
      }
    }
  }

  /** A piece that fits no way overlaps the last piece of each at one point, so all their lanes differ. */
  lemma NewWayNeedsNewLane(xs: seq<WayAnchor>, n: nat, ends: seq<u64>, tails: seq<nat>, lanes: nat)
    requires n < |xs| && ByBegin(xs) && LanesApart(xs) && LanesBelow(xs, lanes)
    requires Tails(xs, n, ends, tails) && forall w :: 0 <= w < |ends| ==> xs[n].begin <= ends[w]
    ensures |ends| + 1 <= lanes
  {
    var ps := tails + [n];
    var s := seq(|ps|, w requires 0 <= w < |ps| => xs[ps[w]].lane);
    forall v, w | 0 <= v < w < |s| ensures s[v] != s[w] {
      var a, b := ps[v], ps[w];
      assert xs[a].end >= xs[n].begin;
      assert w < |tails| ==> xs[b].end >= xs[n].begin;
      assert xs[a].begin <= xs[n].begin && xs[b].begin <= xs[n].begin;
    }
    DistinctBounded(s, lanes);
  }

  /**
   First fit, in order of begin: every piece joins exactly one way, each way is
   chained, and there are never more ways than lanes.
   */
  method AssembleWays(xs: seq<WayAnchor>, ghost lanes: nat) returns (ways: seq<seq<WayAnchor>>, ghost owner: seq<nat>)
    requires ByBegin(xs) && forall i :: 0 <= i < |xs| ==> xs[i].begin <= xs[i].end
    ensures |owner| == |xs| && forall w :: 0 <= w < |ways| ==> Chained(ways[w]) && ways[w] == Pick(xs, owner, w)
    ensures (forall i :: 0 <= i < |xs| ==> owner[i] < |ways|) && forall w :: 0 <= w < |ways| ==> ways[w] != []
    ensures LanesApart(xs) && LanesBelow(xs, lanes) ==> |ways| <= lanes
  {
    hide LanesApart, LanesBelow, Pick;
    var ends: seq<u64> := [];
    ways := [];
    owner := [];
    ghost var tails: seq<nat> := [];
    var i := 0;
    while i < |xs|
      invariant 0 <= i <= |xs| && |owner| == i && |ends| == |ways|
      invariant Tails(xs, i, ends, tails)
      invariant forall w :: 0 <= w < |ways| ==> Placed(xs, i, owner, ways[w], w, ends[w])
      invariant forall j :: 0 <= j < i ==> owner[j] < |ways|
      invariant LanesApart(xs) && LanesBelow(xs, lanes) ==> |ways| <= lanes
    {
      var w := 0;
      while w < |ends| && xs[i].begin <= ends[w]
        invariant 0 <= w <= |ends|
        invariant forall v :: 0 <= v < w ==> xs[i].begin <= ends[v]
      {
        w := w + 1;
      }
      if w < |ends| {
        forall v | 0 <= v < |ways| && v != w ensures Placed(xs, i + 1, owner + [w], ways[v], v, ends[v]) {
          PlaceOther(xs, i, owner, ways[v], v, ends[v], w);
        }
        PlaceHere(xs, i, owner, ways[w], w, ends[w]);
        ends := ends[w := xs[i].end];
        ways := ways[w := ways[w] + [xs[i]]];
        tails := tails[w := i];
      } else {
        if LanesApart(xs) && LanesBelow(xs, lanes) {
          NewWayNeedsNewLane(xs, i, ends, tails, lanes);
        }
        forall v | 0 <= v < |ways| ensures Placed(xs, i + 1, owner + [w], ways[v], v, ends[v]) {
          PlaceOther(xs, i, owner, ways[v], v, ends[v], w);
        }
        PlaceFirst(xs, i, owner, w);
        ends := ends + [xs[i].end];
        ways := ways + [[xs[i]]];
        tails := tails + [i];
      }
      owner := owner + [w];
      i := i + 1;
    }
    assert xs[..i] == xs;
  }

  /** Way `w` holds the pieces given to it so far, chained, ending at `end`. */
  ghost predicate Placed(xs: seq<WayAnchor>, n: nat, owner: seq<nat>, way: seq<WayAnchor>, w: nat, end: u64) {
    && n <= |xs| && |owner| == n && way == Pick(xs[..n], owner, w) && Chained(way)
    && way != [] && way[|way|-1].end == end
  }

  lemma PlaceOther(xs: seq<WayAnchor>, n: nat, owner: seq<nat>, way: seq<WayAnchor>, v: nat, end: u64, w: nat)
    requires Placed(xs, n, owner, way, v, end) && n < |xs| && v != w
    ensures Placed(xs, n + 1, owner + [w], way, v, end)
  {
    PickStep(xs[..n], owner, xs[n], w, v);
    assert xs[..n+1] == xs[..n] + [xs[n]];
  }

  lemma PlaceHere(xs: seq<WayAnchor>, n: nat, owner: seq<nat>, way: seq<WayAnchor>, w: nat, end: u64)
    requires Placed(xs, n, owner, way, w, end) && n < |xs| && end < xs[n].begin
    requires forall i :: 0 <= i < |xs| ==> xs[i].begin <= xs[i].end
    ensures Placed(xs, n + 1, owner + [w], way + [xs[n]], w, xs[n].end)
  {
    PickStep(xs[..n], owner, xs[n], w, w);
    assert xs[..n+1] == xs[..n] + [xs[n]];
    PickMembers(xs[..n], owner, w);
    var way' := way + [xs[n]];
    forall i, j | 0 <= i < j < |way'| ensures way'[i].end < way'[j].begin {
      if j == |way| && i < |way| - 1 {
        assert way[i].end < way[|way|-1].begin;
        assert way[|way|-1] in xs[..n];
      }
    }
  }

  lemma PlaceFirst(xs: seq<WayAnchor>, n: nat, owner: seq<nat>, w: nat)
    requires n < |xs| && |owner| == n && forall j :: 0 <= j < n ==> owner[j] < w
    ensures Placed(xs, n + 1, owner + [w], [xs[n]], w, xs[n].end)
  {
    PickNone(xs[..n], owner, w);
    PickStep(xs[..n], owner, xs[n], w, w);
    assert xs[..n+1] == xs[..n] + [xs[n]];
  }

  // ---- The whole plan ----

  /** An input file: level-0 files have a lane each, the files of level 1 share the last one. */
  datatype Input = Input(index: seq<Index>, lane: nat, id: nat)

  function AnchorOf(f: Input, p: Piece): WayAnchor
    requires p.first < p.last <= |f.index|
  {
    WayAnchor(f.index[p.first].key, f.index[p.last-1].key, f.lane, f.id, p)
  }

  ghost predicate NoOverlap(x: WayAnchor, y: WayAnchor) {
    x.lane == y.lane ==> x.end < y.begin || y.end < x.begin
  }

  ghost predicate PairsApart(xs: seq<WayAnchor>) {
    forall i, j :: 0 <= i < j < |xs| ==> NoOverlap(xs[i], xs[j])
  }

  /** After the last piece that does not begin later. */
  function Position(xs: seq<WayAnchor>, a: WayAnchor): (p: nat)
    ensures p <= |xs| && (p > 0 ==> xs[p-1].begin <= a.begin)
    ensures forall i :: p <= i < |xs| ==> a.begin < xs[i].begin
  {
    if xs == [] || xs[|xs|-1].begin <= a.begin then |xs| else Position(xs[..|xs|-1], a)
  }

  /** Sorted insertion: what collecting the pieces and sorting them by begin amounts to. */
  function InsertByBegin(xs: seq<WayAnchor>, a: WayAnchor): (r: seq<WayAnchor>)
    ensures exists p :: 0 <= p <= |xs| && r == xs[..p] + [a] + xs[p..]
  {
    var p := Position(xs, a);
    xs[..p] + [a] + xs[p..]
  }

  lemma InsertKeepsByBegin(xs: seq<WayAnchor>, a: WayAnchor)
    requires ByBegin(xs)
    ensures ByBegin(InsertByBegin(xs, a))
  {
    var p := Position(xs, a);
    assert forall i :: 0 <= i < p ==> xs[i].begin <= xs[p-1].begin;
  }

  lemma InsertKeepsPairs(xs: seq<WayAnchor>, a: WayAnchor)
    requires PairsApart(xs) && forall x :: x in xs ==> NoOverlap(x, a)
    ensures PairsApart(InsertByBegin(xs, a))
    ensures forall x :: x in InsertByBegin(xs, a) <==> x in xs || x == a
  {
    hide InsertByBegin, NoOverlap;
    var r := InsertByBegin(xs, a);
    var p :| 0 <= p <= |xs| && r == xs[..p] + [a] + xs[p..];
    forall i, j | 0 <= i < j < |r| ensures NoOverlap(r[i], r[j]) {
      if i == p {
        assert r[j] == xs[j-1];
        Symmetric(xs[j-1], a);
      } else if j == p {
        assert r[i] == xs[i];
      } else {
        assert r[i] == xs[if i < p then i else i - 1] && r[j] == xs[if j < p then j else j - 1];
      }
    }
    assert r[p] == a;
    forall x | x in xs ensures x in r {
      var i :| 0 <= i < |xs| && xs[i] == x;
      assert r[if i < p then i else i + 1] == x;
    }
  }

  lemma Symmetric(x: WayAnchor, y: WayAnchor)
    requires NoOverlap(x, y)
    ensures NoOverlap(y, x)
  {}

  /** Two files of one lane have disjoint source ranges. */
  ghost predicate FilesApart(f: Input, g: Input) {
    f.lane == g.lane && |f.index| > 1 && |g.index| > 1 ==>
      f.index[|f.index|-2].key < g.index[0].key || g.index[|g.index|-2].key < f.index[0].key
  }

  /** `x` is a piece of `f`. */
  ghost predicate PieceOf(f: Input, x: WayAnchor) {
    x.piece.first < x.piece.last < |f.index| && x == AnchorOf(f, x.piece)
  }

  /** `x` is a piece of `f` and holds its source `i`. */
  ghost predicate InPiece(f: Input, x: WayAnchor, i: int) {
    PieceOf(f, x) && x.piece.first <= i < x.piece.last
  }

  /** Source `i` of the file is in one of the pieces. */
  ghost predicate HasSource(xs: seq<WayAnchor>, f: Input, i: int) {
    exists j :: 0 <= j < |xs| && InPiece(f, xs[j], i)
  }

  /**
   From the first `n` files: every piece belongs to one, every source is in a piece,
   and every boundary among the sources starts one.
   */
  ghost predicate Covered(files: seq<Input>, n: nat, bs: seq<u64>, xs: seq<WayAnchor>)
    requires n <= |files|
  {
    && (forall x :: x in xs ==> exists f :: 0 <= f < n && PieceOf(files[f], x))
    && (forall f, i :: 0 <= f < n && 0 <= i < |files[f].index| - 1 ==> HasSource(xs, files[f], i))
    && forall b, f :: b in bs && 0 <= f < n && HasKey(files[f].index, b) ==> Begins(xs, b)
  }

  ghost predicate Begins(xs: seq<WayAnchor>, b: u64) {
    exists i :: 0 <= i < |xs| && xs[i].begin == b
  }

  /** Sorted, clear of boundaries, apart within a lane. */
  ghost predicate Orderly(xs: seq<WayAnchor>, bs: seq<u64>) {
    ByBegin(xs) && PairsApart(xs) && forall x :: x in xs ==> Clear(x, bs)
  }

  lemma PieceRange(f: Input, x: WayAnchor)
    requires KeysIncrease(f.index) && PieceOf(f, x)
    ensures f.index[0].key <= x.begin <= x.end <= f.index[|f.index|-2].key && |f.index| > 1
  {
    assert x.piece.first > 0 ==> f.index[0].key < f.index[x.piece.first].key;
  }

  lemma PiecesOfTwoFiles(f: Input, g: Input, x: WayAnchor, y: WayAnchor)
    requires KeysIncrease(f.index) && KeysIncrease(g.index) && FilesApart(f, g) && PieceOf(f, x) && PieceOf(g, y)
    ensures NoOverlap(x, y)
  {
    PieceRange(f, x);
    PieceRange(g, y);
  }

  lemma {:induction false} PartitionRises(ps: seq<Piece>, n: nat, i: nat, j: nat)
    requires Partition(ps, n) && i < j < |ps|
    ensures ps[i].last <= ps[j].first
    decreases j
  {
    if i < j - 1 {
      PartitionRises(ps, n, i, j - 1);
    }
  }

  /** The piece of a partition that holds position `i`. */
  lemma PieceWith(ps: seq<Piece>, n: nat, i: nat) returns (m: nat)
    requires Partition(ps, n) && i < n
    ensures m < |ps| && ps[m].first <= i < ps[m].last
  {
    m := 0;
    while ps[m].last <= i
      invariant m < |ps| && ps[m].first <= i
      decreases |ps| - m
    {
      m := m + 1;
    }
  }

  /** Sources of a file; the last index entry is the sentinel. */
  function Groups(f: Input): nat {
    if |f.index| <= 1 then 0 else |f.index| - 1
  }

  /** The pieces one file is cut into, as anchors. */
  ghost function AnchorsOf(f: Input, ps: seq<Piece>): seq<WayAnchor> {
    if ps == [] then []
    else
      var p := ps[|ps|-1];
      AnchorsOf(f, ps[..|ps|-1]) + if p.first < p.last <= |f.index| then [AnchorOf(f, p)] else []
  }

  /** The pieces of the first files, all of them. */
  ghost function AllAnchors(files: seq<Input>, cuts: seq<seq<Piece>>): multiset<WayAnchor>
    requires |cuts| <= |files|
  {
    if cuts == [] then multiset{}
    else AllAnchors(files, cuts[..|cuts|-1]) + multiset(AnchorsOf(files[|cuts|-1], cuts[|cuts|-1]))
  }

  /** The plan holds exactly the pieces of each file's partition. */
  ghost predicate CutInto(files: seq<Input>, cuts: seq<seq<Piece>>, xs: seq<WayAnchor>) {
    && |cuts| <= |files| && multiset(xs) == AllAnchors(files, cuts)
    && forall f :: 0 <= f < |cuts| ==> Partition(cuts[f], Groups(files[f]))
  }

  lemma CutOneMore(files: seq<Input>, cuts: seq<seq<Piece>>, before: seq<WayAnchor>, ps: seq<Piece>, xs: seq<WayAnchor>)
    requires CutInto(files, cuts, before) && |cuts| < |files| && Partition(ps, Groups(files[|cuts|]))
    requires multiset(xs) == multiset(before) + multiset(AnchorsOf(files[|cuts|], ps))
    ensures CutInto(files, cuts + [ps], xs)
  {
    var more := cuts + [ps];
    assert more[..|cuts|] == cuts;
  }

  lemma AnchorsStep(f: Input, ps: seq<Piece>, k: nat)
    requires k < |ps| && ps[k].first < ps[k].last <= |f.index|
    ensures AnchorsOf(f, ps[..k+1]) == AnchorsOf(f, ps[..k]) + [AnchorOf(f, ps[k])]
  {
    assert ps[..k+1][..k] == ps[..k];
  }

  lemma InsertMultiset(xs: seq<WayAnchor>, a: WayAnchor)
    ensures multiset(InsertByBegin(xs, a)) == multiset(xs) + multiset{a}
  {
    var p := Position(xs, a);
    assert xs == xs[..p] + xs[p..];
  }

  /** Adds one file's pieces to the plan. */
  method AddFile(files: seq<Input>, n: nat, bs: seq<u64>, before: seq<WayAnchor>, ghost cuts: seq<seq<Piece>>)
      returns (xs: seq<WayAnchor>, ghost more: seq<seq<Piece>>)
    requires |cuts| == n && CutInto(files, cuts, before)
    requires n < |files| && Rising(bs) && (forall f :: 0 <= f <= n ==> KeysIncrease(files[f].index))
    requires forall f :: 0 <= f < n ==> FilesApart(files[f], files[n])
    requires Orderly(before, bs) && Covered(files, n, bs, before)
    ensures Orderly(xs, bs) && Covered(files, n + 1, bs, xs)
    ensures |more| == n + 1 && CutInto(files, more, xs)
  {
    hide CutInto, AnchorsOf, Covered, Rising, PieceOf;
    hide Orderly, KeysIncrease, InsertByBegin, Uncut, NoOverlap, FilesApart, HasKey, StartsAt, Begins, Partition;
    hide HasSource;
    var f := files[n];
    var ps := CutFile(f.index, bs);
    assert |f.index| <= 1 ==> ps == [] by { NoPieces(ps, f.index); }
    xs := before;
    assert ps[..0] == [] && multiset(xs) == multiset(before) + multiset(AnchorsOf(f, ps[..0])) by { NoAnchors(f); }
    var k := 0;
    while k < |ps|
      invariant 0 <= k <= |ps| && Orderly(xs, bs)
      invariant multiset(xs) == multiset(before) + multiset(AnchorsOf(f, ps[..k]))
      invariant forall x :: x in xs ==> x in before || exists m :: 0 <= m < k && FromPiece(f, ps[m], x)
      invariant forall x :: x in before ==> x in xs
      invariant forall m :: 0 <= m < k ==> ps[m].first < ps[m].last < |f.index| && AnchorOf(f, ps[m]) in xs
    {
      PieceBounds(ps, f.index, k);
      var a := AnchorOf(f, ps[k]);
      NewPieceApart(files, n, bs, before, ps, k, xs);
      OrderlyStep(f, ps[k], bs, xs);
      InsertMultiset(xs, a);
      AnchorsStep(f, ps, k);
      xs := InsertByBegin(xs, a);
      k := k + 1;
    }
    CoveredStep(files, n, bs, before, ps, xs);
    assert ps[..|ps|] == ps;
    CutOneMore(files, cuts, before, ps, xs);
    more := cuts + [ps];
  }

  /** The next piece of a file overlaps none of its lane. */
  lemma NewPieceApart(files: seq<Input>, n: nat, bs: seq<u64>, before: seq<WayAnchor>, ps: seq<Piece>, k: nat,
                      xs: seq<WayAnchor>)
    requires n < |files| && (forall f :: 0 <= f <= n ==> KeysIncrease(files[f].index))
    requires forall f :: 0 <= f < n ==> FilesApart(files[f], files[n])
    requires Covered(files, n, bs, before) && Partition(ps, Groups(files[n])) && k < |ps|
    requires forall x :: x in xs ==> x in before || exists m :: 0 <= m < k && FromPiece(files[n], ps[m], x)
    ensures ps[k].first < ps[k].last < |files[n].index|
    ensures forall x :: x in xs ==> NoOverlap(x, AnchorOf(files[n], ps[k]))
  {
    hide KeysIncrease, NoOverlap, FilesApart, HasKey, Begins, Partition, HasSource;
    var f := files[n];
    PieceBounds(ps, f.index, k);
    var a := AnchorOf(f, ps[k]);
    forall x | x in xs ensures NoOverlap(x, a) {
      if x in before {
        var g :| 0 <= g < n && PieceOf(files[g], x);
        PiecesOfTwoFiles(files[g], f, x, a);
      } else {
        var m :| 0 <= m < k && FromPiece(f, ps[m], x);
        PiecesOfOneFile(f, ps, m, k);
      }
    }
  }

  lemma NoAnchors(f: Input)
    ensures AnchorsOf(f, []) == []
  {}

  ghost predicate FromPiece(f: Input, p: Piece, x: WayAnchor) {
    p.first < p.last < |f.index| && x == AnchorOf(f, p)
  }

  lemma NoPieces(ps: seq<Piece>, index: seq<Index>)
    requires Partition(ps, if |index| <= 1 then 0 else |index| - 1)
    ensures |index| <= 1 ==> ps == []
  {}

  lemma PieceBounds(ps: seq<Piece>, index: seq<Index>, k: nat)
    requires Partition(ps, if |index| <= 1 then 0 else |index| - 1) && k < |ps|
    ensures ps[k].first < ps[k].last < |index|
  {}

  lemma PiecesOfOneFile(f: Input, ps: seq<Piece>, m: nat, k: nat)
    requires KeysIncrease(f.index) && Partition(ps, if |f.index| <= 1 then 0 else |f.index| - 1) && m < k < |ps|
    ensures ps[m].first < ps[m].last < |f.index| && ps[k].first < ps[k].last < |f.index|
    ensures NoOverlap(AnchorOf(f, ps[m]), AnchorOf(f, ps[k]))
  {
    PieceBounds(ps, f.index, m);
    PieceBounds(ps, f.index, k);
    PartitionRises(ps, if |f.index| <= 1 then 0 else |f.index| - 1, m, k);
  }

  lemma OrderlyStep(f: Input, p: Piece, bs: seq<u64>, xs: seq<WayAnchor>)
    requires KeysIncrease(f.index) && p.first < p.last < |f.index| && Uncut(f.index, p, bs)
    requires Orderly(xs, bs) && forall x :: x in xs ==> NoOverlap(x, AnchorOf(f, p))
    ensures Orderly(InsertByBegin(xs, AnchorOf(f, p)), bs)
    ensures forall x :: x in InsertByBegin(xs, AnchorOf(f, p)) <==> x in xs || x == AnchorOf(f, p)
  {
    hide InsertByBegin, PairsApart, ByBegin, NoOverlap;
    var a := AnchorOf(f, p);
    InsertKeepsByBegin(xs, a);
    InsertKeepsPairs(xs, a);
    assert Clear(a, bs);
  }

  lemma CoveredStep(files: seq<Input>, n: nat, bs: seq<u64>, before: seq<WayAnchor>, ps: seq<Piece>, xs: seq<WayAnchor>)
    requires n < |files| && Covered(files, n, bs, before)
    requires Partition(ps, if |files[n].index| <= 1 then 0 else |files[n].index| - 1)
    requires forall b :: b in bs && HasKey(files[n].index, b) ==> StartsAt(files[n].index, ps, b)
    requires forall x :: x in xs ==> x in before || exists m :: 0 <= m < |ps| && FromPiece(files[n], ps[m], x)
    requires forall x :: x in before ==> x in xs
    requires forall m :: 0 <= m < |ps| ==>
        ps[m].first < ps[m].last < |files[n].index| && AnchorOf(files[n], ps[m]) in xs
    ensures Covered(files, n + 1, bs, xs)
  {
    hide HasKey;
    forall x | x in xs ensures exists f :: 0 <= f < n + 1 && PieceOf(files[f], x) {
      if x in before {
        var f :| 0 <= f < n && PieceOf(files[f], x);
      } else {
        assert PieceOf(files[n], x);
      }
    }
    forall f, i | 0 <= f < n + 1 && 0 <= i < |files[f].index| - 1 ensures HasSource(xs, files[f], i) {
      if f < n {
        assert HasSource(before, files[f], i);
        var j :| 0 <= j < |before| && InPiece(files[f], before[j], i);
        assert before[j] in xs;
      } else {
        var m := PieceWith(ps, |files[n].index| - 1, i);
        var a := AnchorOf(files[n], ps[m]);
        assert a in xs && InPiece(files[n], a, i);
      }
    }
    forall b, f | b in bs && 0 <= f < n + 1 && HasKey(files[f].index, b) ensures Begins(xs, b) {
      if f < n {
        assert Begins(before, b);
        var i :| 0 <= i < |before| && before[i].begin == b;
        assert before[i] in xs;
      } else {
        var m :| 0 <= m < |ps| && ps[m].first < |files[n].index| && files[n].index[ps[m].first].key == b;
        assert AnchorOf(files[n], ps[m]) in xs;
      }
    }
  }

  /** Cuts every input file and collects the pieces in order of their first source. */
  method PlanPieces(files: seq<Input>, bs: seq<u64>) returns (xs: seq<WayAnchor>, ghost cuts: seq<seq<Piece>>)
    requires Rising(bs) && (forall f :: 0 <= f < |files| ==> KeysIncrease(files[f].index))
    requires forall f, g :: 0 <= f < g < |files| ==> FilesApart(files[f], files[g])
    ensures Orderly(xs, bs) && Covered(files, |files|, bs, xs)
    ensures |cuts| == |files| && CutInto(files, cuts, xs)
  {
    hide FilesApart, KeysIncrease, HasKey;
    xs, cuts := [], [];
    var n := 0;
    while n < |files|
      invariant 0 <= n <= |files| && Orderly(xs, bs) && Covered(files, n, bs, xs)
      invariant |cuts| == n && CutInto(files, cuts, xs)
    {
      xs, cuts := AddFile(files, n, bs, xs, cuts);
      n := n + 1;
    }
  }

  /**
   With boundaries taken from the files' own sources, workers get disjoint source
   ranges that together hold every piece once; one worker needs no more merge ways
   than there are lanes.
   */
  lemma PlannedInputsQualify(files: seq<Input>, bs: seq<u64>, xs: seq<WayAnchor>, lanes: nat)
    requires Orderly(xs, bs) && Covered(files, |files|, bs, xs)
    requires forall b :: b in bs ==> exists f :: 0 <= f < |files| && HasKey(files[f].index, b)
    requires forall f :: 0 <= f < |files| ==> files[f].lane < lanes
    ensures ByBegin(xs) && (forall i :: 0 <= i < |xs| ==> Clear(xs[i], bs))
    ensures forall b :: b in bs ==> exists i :: 0 <= i < |xs| && xs[i].begin == b
    ensures LanesApart(xs) && LanesBelow(xs, lanes)
  {
    hide HasKey;
    forall b | b in bs ensures exists i :: 0 <= i < |xs| && xs[i].begin == b {
      var f :| 0 <= f < |files| && HasKey(files[f].index, b);
      assert Begins(xs, b);
    }
    forall i, j | 0 <= i < j < |xs| && xs[i].lane == xs[j].lane ensures xs[i].end < xs[j].begin {
      assert NoOverlap(xs[i], xs[j]);
      assert xs[j] in xs;
    }
    forall i | 0 <= i < |xs| ensures xs[i].lane < lanes {
      assert xs[i] in xs;
      var f :| 0 <= f < |files| && PieceOf(files[f], xs[i]);
    }
  }

  /** Every source of every input file is in exactly one piece. */
  lemma SourceInOnePiece(files: seq<Input>, bs: seq<u64>, xs: seq<WayAnchor>, f: nat, i: nat)
    requires Orderly(xs, bs) && Covered(files, |files|, bs, xs) && f < |files| && KeysIncrease(files[f].index)
    requires i < |files[f].index| - 1
    ensures HasSource(xs, files[f], i)
    ensures forall j, k :: 0 <= j < k < |xs| && InPiece(files[f], xs[j], i) ==> !InPiece(files[f], xs[k], i)
  {
    hide HasKey;
    forall j, k | 0 <= j < k < |xs| && InPiece(files[f], xs[j], i) ensures !InPiece(files[f], xs[k], i) {
      assert NoOverlap(xs[j], xs[k]);
      KeyInPiece(files[f], xs[j], i);
      if InPiece(files[f], xs[k], i) {
        KeyInPiece(files[f], xs[k], i);
      }
    }
  }

  lemma KeyInPiece(f: Input, x: WayAnchor, i: nat)
    requires KeysIncrease(f.index) && InPiece(f, x, i)
    ensures x.begin <= f.index[i].key <= x.end
  {}

  /** The plan and its assignment, from the files and boundaries among their sources. */
  method PlanWorkers(files: seq<Input>, bs: seq<u64>, ghost lanes: nat)
      returns (xs: seq<WayAnchor>, ss: seq<Share>, ghost cuts: seq<seq<Piece>>)
    requires Rising(bs) && (forall f :: 0 <= f < |files| ==> KeysIncrease(files[f].index) && files[f].lane < lanes)
    requires forall f, g :: 0 <= f < g < |files| ==> FilesApart(files[f], files[g])
    requires forall b :: b in bs ==> exists f :: 0 <= f < |files| && HasKey(files[f].index, b)
    ensures Orderly(xs, bs) && Covered(files, |files|, bs, xs) && LanesApart(xs) && LanesBelow(xs, lanes)
    ensures |cuts| == |files| && CutInto(files, cuts, xs)
    ensures Shares(ss, 0, |xs|) && WorkersApart(xs, ss) && |ss| <= |bs| + 1
    ensures (forall s :: s in ss ==> s.first < s.last) && AllUndivided(xs, ss, bs)
  {
    hide AllUndivided;
    hide Orderly, Covered, KeysIncrease, FilesApart, HasKey, Shares, WorkersApart, CutInto, LanesApart, LanesBelow;
    xs, cuts := PlanPieces(files, bs);
    PlannedInputsQualify(files, bs, xs, lanes);
    ss := AssignShares(xs, bs);
  }
}
