/** The merges of a compaction: k-way over overlapping files, two-way over sorted levels. */
module EdgeMerge {
  import opened Records
  import opened Topology
  import opened Interleaving

  datatype Edge = Edge(src: u64, body: Body, props: seq<Bytes>)

  /** By source, then destination, then newest first. */
  predicate Less(a: Edge, b: Edge) {
    || a.src < b.src
    || (a.src == b.src && (a.body.dst < b.body.dst || (a.body.dst == b.body.dst && a.body.sequence > b.body.sequence)))
  }

  ghost predicate SortedEdges(s: seq<Edge>) {
    forall i, j :: 0 <= i < j < |s| ==> !Less(s[j], s[i])
  }

  /** The merge order: smaller edge first, among equals the lower way. */
  predicate Leads(a: Edge, v: nat, b: Edge, w: nat) {
    Less(a, b) || (!Less(b, a) && v <= w)
  }

  lemma LeadsIsTotal(a: Edge, u: nat, b: Edge, v: nat, c: Edge, w: nat)
    ensures Leads(a, u, b, v) || Leads(b, v, a, u)
    ensures Leads(a, u, b, v) && Leads(b, v, c, w) ==> Leads(a, u, c, w)
  {}

  /** `out` interleaves the ways, each in its own order, led by the merge order. */
  ghost predicate IsMerge(out: seq<Edge>, from: seq<nat>, ways: seq<seq<Edge>>) {
    && |from| == |out|
    && (forall i :: 0 <= i < |from| ==> from[i] < |ways|)
    && (forall w :: 0 <= w < |ways| ==> Pick(out, from, w) == ways[w])
    && (forall i, j :: 0 <= i < j < |out| ==> Leads(out[i], from[i], out[j], from[j]))
  }

  /** A merge is sorted and holds every record of every way exactly once. */
  lemma MergeIsSortedPermutation(out: seq<Edge>, from: seq<nat>, ways: seq<seq<Edge>>)
    requires IsMerge(out, from, ways)
    ensures SortedEdges(out) && multiset(out) == AllOf(ways)
  {
    forall i, j | 0 <= i < j < |out| ensures !Less(out[j], out[i]) {
      assert Leads(out[i], from[i], out[j], from[j]);
    }
    PickAll(out, from, |ways|);
    AllPicked(out, from, ways, |ways|);
    assert ways[..|ways|] == ways;
  }

  // ---- The k-way merge ----

  function CountTrue(s: seq<bool>): nat {
    if s == [] then 0 else CountTrue(s[..|s|-1]) + if s[|s|-1] then 1 else 0
  }

  lemma {:induction false} CountDrop(s: seq<bool>, i: nat)
    requires i < |s| && s[i]
    ensures CountTrue(s[i := false]) + 1 == CountTrue(s)
  {
    if i < |s| - 1 {
      CountDrop(s[..|s|-1], i);
      assert s[i := false][..|s|-1] == s[..|s|-1][i := false];
    } else {
      assert s[i := false][..|s|-1] == s[..|s|-1];
    }
  }

  lemma {:induction false} CountSome(s: seq<bool>)
    ensures CountTrue(s) > 0 <==> exists i :: 0 <= i < |s| && s[i]
    ensures CountTrue(s) <= |s|
  {
    if s != [] {
      CountSome(s[..|s|-1]);
      assert s == s[..|s|-1] + [s[|s|-1]];
    }
  }

  lemma {:induction false} CountAll(n: nat)
    ensures CountTrue(seq(n, i => true)) == n
  {
    if n > 0 {
      CountAll(n - 1);
      assert seq(n, i => true)[..n-1] == seq(n - 1, i => true);
    }
  }

  ghost predicate LeadsAll(m: nat, cache: seq<Edge>, status: seq<bool>)
    requires m < |cache| == |status|
  {
    forall w :: 0 <= w < |cache| && status[w] ==> Leads(cache[m], m, cache[w], w)
  }

  /** Scans for the least cached edge; the lowest way wins ties. */
  method FindMin(cache: seq<Edge>, status: seq<bool>) returns (m: nat)
    requires |cache| == |status| && exists w :: 0 <= w < |status| && status[w]
    ensures m < |cache| && status[m] && LeadsAll(m, cache, status)
  {
    m := 0;
    var first := true;
    var ptr := 0;
    while ptr < |cache|
      invariant 0 <= ptr <= |cache|
      invariant first ==> forall w :: 0 <= w < ptr ==> !status[w]
      invariant !first ==> m < ptr && status[m] && forall w :: 0 <= w < ptr && status[w] ==>
          Leads(cache[m], m, cache[w], w)
    {
      if first && status[ptr] {
        m := ptr;
        first := false;
      } else if status[ptr] && Less(cache[ptr], cache[m]) {
        m := ptr;
      }
      ptr := ptr + 1;
    }
  }

  /** Cursors: `pos[w]` records of way `w` are written, the next one is cached while the way is open. */
  ghost predicate Cursors(ways: seq<seq<Edge>>, pos: seq<nat>, cache: seq<Edge>, status: seq<bool>) {
    && |pos| == |ways| && |cache| == |ways| && |status| == |ways|
    && forall w :: 0 <= w < |ways| ==>
         pos[w] <= |ways[w]| && (status[w] <==> pos[w] < |ways[w]|) && (status[w] ==> cache[w] == ways[w][pos[w]])
  }

  ghost predicate Written(ways: seq<seq<Edge>>, pos: seq<nat>, out: seq<Edge>, from: seq<nat>) {
    && |pos| == |ways| && |from| == |out|
    && (forall i :: 0 <= i < |from| ==> from[i] < |ways|)
    && (forall w :: 0 <= w < |ways| ==> pos[w] <= |ways[w]| && Pick(out, from, w) == ways[w][..pos[w]])
    && (forall i, j :: 0 <= i < j < |out| ==> Leads(out[i], from[i], out[j], from[j]))
  }

  /** Everything written leads everything cached. */
  ghost predicate Ahead(out: seq<Edge>, from: seq<nat>, cache: seq<Edge>, status: seq<bool>) {
    && |from| == |out| && |cache| == |status|
    && forall i, w :: 0 <= i < |out| && 0 <= w < |cache| && status[w] ==> Leads(out[i], from[i], cache[w], w)
  }

  lemma WriteKeeps(ways: seq<seq<Edge>>, pos: seq<nat>, cache: seq<Edge>, status: seq<bool>, out: seq<Edge>,
                   from: seq<nat>, m: nat)
    requires Cursors(ways, pos, cache, status) && Written(ways, pos, out, from) && Ahead(out, from, cache, status)
    requires m < |ways| && status[m]
    ensures Written(ways, pos[m := pos[m] + 1], out + [cache[m]], from + [m])
  {
    hide Leads;
    var x, p := cache[m], pos[m := pos[m] + 1];
    forall w | 0 <= w < |ways| ensures Pick(out + [x], from + [m], w) == ways[w][..p[w]] {
      PickStep(out, from, x, m, w);
      assert ways[m][..pos[m] + 1] == ways[m][..pos[m]] + [ways[m][pos[m]]];
    }
  }

  lemma AheadKeeps(ways: seq<seq<Edge>>, pos: seq<nat>, cache: seq<Edge>, status: seq<bool>, out: seq<Edge>,
                   from: seq<nat>, m: nat,
                   cache': seq<Edge>, status': seq<bool>)
    requires Cursors(ways, pos, cache, status) && Ahead(out, from, cache, status)
    requires m < |ways| && status[m] && LeadsAll(m, cache, status) && SortedEdges(ways[m])
    requires |status'| == |cache'| == |cache|
    requires forall w :: 0 <= w < |ways| && w != m ==> status'[w] == status[w] && cache'[w] == cache[w]
    requires status'[m] ==> pos[m] + 1 < |ways[m]| && cache'[m] == ways[m][pos[m] + 1]
    ensures Ahead(out + [cache[m]], from + [m], cache', status')
  {
    var x := cache[m];
    forall w | 0 <= w < |cache'| && status'[w] ensures Leads(x, m, cache'[w], w) {
      if w != m {
        assert Leads(cache[m], m, cache[w], w);
      }
    }
    forall i, w | 0 <= i < |out| && 0 <= w < |cache'| && status'[w] ensures Leads(out[i], from[i], cache'[w], w) {
      assert Leads(out[i], from[i], cache[m], m);
      LeadsIsTotal(out[i], from[i], x, m, cache'[w], w);
    }
  }

  function Left(ways: seq<seq<Edge>>, pos: seq<nat>): int
    requires |pos| == |ways|
  {
    if ways == [] then 0 else Left(ways[..|ways|-1], pos[..|ways|-1]) + |ways[|ways|-1]| - pos[|ways|-1]
  }

  lemma {:induction false} LeftStep(ways: seq<seq<Edge>>, pos: seq<nat>, m: nat)
    requires |pos| == |ways| && m < |ways|
    ensures Left(ways, pos[m := pos[m] + 1]) == Left(ways, pos) - 1
  {
    var n := |ways| - 1;
    if m < n {
      LeftStep(ways[..n], pos[..n], m);
      assert pos[m := pos[m] + 1][..n] == pos[..n][m := pos[m] + 1];
    } else {
      assert pos[m := pos[m] + 1][..n] == pos[..n];
    }
  }

  lemma {:induction false} LeftNonNegative(ways: seq<seq<Edge>>, pos: seq<nat>)
    requires |pos| == |ways| && forall w :: 0 <= w < |ways| ==> pos[w] <= |ways[w]|
    ensures Left(ways, pos) >= 0
  {
    if ways != [] {
      LeftNonNegative(ways[..|ways|-1], pos[..|ways|-1]);
    }
  }

  /** The loop state of the merge. */
  ghost predicate Merging(ways: seq<seq<Edge>>, pos: seq<nat>, cache: seq<Edge>, status: seq<bool>, out: seq<Edge>,
                          from: seq<nat>) {
    Cursors(ways, pos, cache, status) && Written(ways, pos, out, from) && Ahead(out, from, cache, status)
  }

  lemma MergeStep(ways: seq<seq<Edge>>, pos: seq<nat>, cache: seq<Edge>, status: seq<bool>, out: seq<Edge>,
                  from: seq<nat>, m: nat)
    requires Merging(ways, pos, cache, status, out, from)
    requires m < |ways| && |cache| == |status| == |pos| == |ways| && status[m] && LeadsAll(m, cache, status)
    requires SortedEdges(ways[m])
    ensures pos[m] < |ways[m]| && cache[m] == ways[m][pos[m]]
    ensures var ended := pos[m] + 1 == |ways[m]|;
            Merging(ways, pos[m := pos[m] + 1], if ended then cache else cache[m := ways[m][pos[m] + 1]],
                    if ended then status[m := false] else status, out + [cache[m]], from + [m])
  {
    hide Written, Ahead, SortedEdges, LeadsAll;
    var ended := pos[m] + 1 == |ways[m]|;
    WriteKeeps(ways, pos, cache, status, out, from, m);
    AheadKeeps(ways, pos, cache, status, out, from, m, if ended then cache else cache[m := ways[m][pos[m] + 1]],
               if ended then status[m := false] else status);
  }

  /** Repeatedly writes the least cached edge and reads the next of its way. */
  method MergeWays(ways: seq<seq<Edge>>) returns (out: seq<Edge>, ghost from: seq<nat>)
    requires ways != [] && forall w :: 0 <= w < |ways| ==> ways[w] != [] && SortedEdges(ways[w])
    ensures IsMerge(out, from, ways)
    ensures SortedEdges(out) && multiset(out) == AllOf(ways)
  {
    hide Merging, Leads, Less, SortedEdges, LeadsAll, Left, CountTrue, IsMerge, AllOf;
    var n := |ways|;
    var status := seq(n, i => true);
    var work := n;
    CountAll(n);
    var pos: seq<nat> := seq(n, i => 0);
    var cache := seq(n, i requires 0 <= i < n => ways[i][0]);
    out, from := [], [];
    NothingWritten(ways, pos, cache, status);
    CountSome(status);
    var m: nat := FindMin(cache, status);
    while work > 0
      invariant |pos| == n && |cache| == n && |status| == n && m < n && work == CountTrue(status)
      invariant Merging(ways, pos, cache, status, out, from)
      invariant work > 0 ==> status[m] && LeadsAll(m, cache, status)
      decreases Left(ways, pos), work
    {
      MergeStep(ways, pos, cache, status, out, from, m);
      LeftStep(ways, pos, m);
      LeftBound(ways, pos, cache, status, out, from);
      out := out + [cache[m]];
      from := from + [m];
      pos := pos[m := pos[m] + 1];
      if pos[m] == |ways[m]| {
        CountDrop(status, m);
        status := status[m := false];
        work := work - 1;
        if work <= 0 {
          break;
        }
      } else {
        cache := cache[m := ways[m][pos[m]]];
      }
      CountSome(status);
      m := FindMin(cache, status);
    }
    CountSome(status);
    AllWritten(ways, pos, out, from, cache, status);
    MergeIsSortedPermutation(out, from, ways);
  }

  lemma LeftBound(ways: seq<seq<Edge>>, pos: seq<nat>, cache: seq<Edge>, status: seq<bool>, out: seq<Edge>,
                  from: seq<nat>)
    requires Merging(ways, pos, cache, status, out, from)
    ensures |pos| == |ways| && Left(ways, pos) >= 0
  {
    LeftNonNegative(ways, pos);
  }

  lemma NothingWritten(ways: seq<seq<Edge>>, pos: seq<nat>, cache: seq<Edge>, status: seq<bool>)
    requires |pos| == |cache| == |status| == |ways|
    requires forall w :: 0 <= w < |ways| ==> pos[w] == 0 && status[w] && ways[w] != [] && cache[w] == ways[w][0]
    ensures Merging(ways, pos, cache, status, [], [])
  {}

  lemma AllWritten(ways: seq<seq<Edge>>, pos: seq<nat>, out: seq<Edge>, from: seq<nat>, cache: seq<Edge>,
                   status: seq<bool>)
    requires Merging(ways, pos, cache, status, out, from)
    requires forall w :: 0 <= w < |status| ==> !status[w]
    ensures IsMerge(out, from, ways)
  {
    hide Leads;
    forall w | 0 <= w < |ways| ensures Pick(out, from, w) == ways[w] {
      assert ways[w][..|ways[w]|] == ways[w];
    }
  }

  // ---- The two-way merge ----

  lemma {:induction false} ConcatSplit(files: seq<seq<Edge>>, p: nat)
    requires p < |files|
    ensures |Concat(files[..p])| + |files[p]| == |Concat(files[..p+1])| <= |Concat(files)|
    ensures forall q :: 0 <= q < |files[p]| ==> Concat(files)[|Concat(files[..p])| + q] == files[p][q]
    decreases |files|
  {
    assert files[..p+1][..p] == files[..p];
    if p == |files| - 1 {
      assert files[..p+1] == files;
    } else {
      var t := files[..|files|-1];
      ConcatSplit(t, p);
      assert t[..p] == files[..p] && t[..p+1] == files[..p+1];
    }
  }

  /** Record `q` of file `p` is next, `n` records of the level are done. */
  ghost predicate Cursor(files: seq<seq<Edge>>, p: nat, q: nat, n: nat) {
    p <= |files| && n == |Concat(files[..p])| + q && if p < |files| then q < |files[p]| else q == 0
  }

  lemma CursorReads(files: seq<seq<Edge>>, p: nat, q: nat, n: nat)
    requires Cursor(files, p, q, n)
    ensures n <= |Concat(files)| && (p < |files| <==> n < |Concat(files)|)
    ensures p < |files| ==> files[p][q] == Concat(files)[n]
  {
    if p < |files| {
      ConcatSplit(files, p);
    } else {
      assert files[..p] == files;
    }
  }

  lemma CursorMoves(files: seq<seq<Edge>>, p: nat, q: nat, n: nat)
    requires Cursor(files, p, q, n) && p < |files| && forall f :: 0 <= f < |files| ==> files[f] != []
    ensures if q + 1 < |files[p]| then Cursor(files, p, q + 1, n + 1) else Cursor(files, p + 1, 0, n + 1)
  {
    ConcatSplit(files, p);
  }

  /** Moves to the next record of a level, into the next file when this one ends. */
  method NextOf(files: seq<seq<Edge>>, p: nat, q: nat, ghost n: nat) returns (p': nat, q': nat, ended: bool)
    requires Cursor(files, p, q, n) && p < |files| && forall f :: 0 <= f < |files| ==> files[f] != []
    ensures Cursor(files, p', q', n + 1) && p' == (if ended then p + 1 else p) <= |files|
    ensures n < |Concat(files)| && (p' < |files| <==> n + 1 < |Concat(files)|)
    ensures p' < |files| ==> q' < |files[p']| && files[p'][q'] == Concat(files)[n + 1]
  {
    hide Concat;
    CursorReads(files, p, q, n);
    CursorMoves(files, p, q, n);
    if q + 1 < |files[p]| {
      p', q', ended := p, q + 1, false;
    } else {
      p', q', ended := p + 1, 0, true;
    }
    CursorReads(files, p', q', n + 1);
  }

  /** The merge of two sorted levels, one open file on each side. */
  method MergeTwoLevels(in0: seq<seq<Edge>>, in1: seq<seq<Edge>>) returns (out: seq<Edge>, ghost from: seq<nat>)
    requires in0 != [] && forall f :: f in in0 + in1 ==> f != []
    requires SortedEdges(Concat(in0)) && SortedEdges(Concat(in1))
    ensures IsMerge(out, from, [Concat(in0), Concat(in1)])
    ensures SortedEdges(out) && multiset(out) == AllOf([Concat(in0), Concat(in1)])
  {
    hide Concat, Merging, Leads, Less, SortedEdges, IsMerge, Cursor, LeadsAll, Left, AllOf;
    ghost var ways := [Concat(in0), Concat(in1)];
    ghost var pos: seq<nat> := [0, 0];
    assert forall f :: 0 <= f < |in0| ==> in0[f] in in0 + in1;
    assert forall f :: 0 <= f < |in1| ==> in1[f] in in0 + in1;
    var p0, q0, p1, q1 := 0, 0, 0, 0;
    StartCursor(in0);
    StartCursor(in1);
    CursorReads(in0, 0, 0, 0);
    CursorReads(in1, 0, 0, 0);
    var cache := [in0[0][0], if in1 != [] then in1[0][0] else in0[0][0]];
    var work := |in0| + |in1|;
    out, from := [], [];
    StartTwo(ways, cache, in1 != []);
    var m := 0;
    if in1 != [] && Less(cache[1], cache[0]) {
      m := 1;
    }
    ChooseTwo(cache, true, in1 != [], m);
    while work > 0
      invariant |cache| == 2 && |pos| == 2 && 0 <= m <= 1
      invariant 0 <= p0 <= |in0| && 0 <= p1 <= |in1| && 0 <= q0 && 0 <= q1 && work == |in0| - p0 + |in1| - p1
      invariant Cursor(in0, p0, q0, pos[0]) && Cursor(in1, p1, q1, pos[1])
      invariant Merging(ways, pos, cache, [p0 < |in0|, p1 < |in1|], out, from)
      invariant work > 0 ==> [p0 < |in0|, p1 < |in1|][m] && LeadsAll(m, cache, [p0 < |in0|, p1 < |in1|])
      decreases Left(ways, pos), work
    {
      ghost var status := [p0 < |in0|, p1 < |in1|];
      MergeStep(ways, pos, cache, status, out, from, m);
      LeftStep(ways, pos, m);
      LeftBound(ways, pos, cache, status, out, from);
      out := out + [cache[m]];
      from := from + [m];
      if m == 0 {
        var ended;
        p0, q0, ended := NextOf(in0, p0, q0, pos[0]);
        pos := pos[0 := pos[0] + 1];
        if ended {
          work := work - 1;
        }
        if p0 < |in0| {
          cache := cache[0 := in0[p0][q0]];
        }
      } else {
        var ended;
        p1, q1, ended := NextOf(in1, p1, q1, pos[1]);
        pos := pos[1 := pos[1] + 1];
        if ended {
          work := work - 1;
        }
        if p1 < |in1| {
          cache := cache[1 := in1[p1][q1]];
        }
      }
      assert status[m := false] == [if m == 0 then false else status[0], if m == 1 then false else status[1]];
      if work <= 0 {
        break;
      }
      if p0 == |in0| {
        m := 1;
      } else if p1 == |in1| {
        m := 0;
      } else {
        m := 0;
        if Less(cache[1], cache[0]) {
          m := 1;
        }
      }
      ChooseTwo(cache, p0 < |in0|, p1 < |in1|, m);
    }
    AllWritten(ways, pos, out, from, cache, [p0 < |in0|, p1 < |in1|]);
    MergeIsSortedPermutation(out, from, ways);
  }

  lemma StartCursor(files: seq<seq<Edge>>)
    requires forall f :: 0 <= f < |files| ==> files[f] != []
    ensures Cursor(files, 0, 0, 0)
  {
    assert files[..0] == [];
  }

  lemma StartTwo(ways: seq<seq<Edge>>, cache: seq<Edge>, second: bool)
    requires |ways| == 2 && |cache| == 2 && ways[0] != [] && cache[0] == ways[0][0]
    requires second <==> ways[1] != []
    requires second ==> cache[1] == ways[1][0]
    ensures Merging(ways, [0, 0], cache, [true, second], [], [])
  {}

  lemma ChooseTwo(cache: seq<Edge>, first: bool, second: bool, m: nat)
    requires |cache| == 2 && m <= 1 && (first || second)
    requires m == if !first then 1 else if second && Less(cache[1], cache[0]) then 1 else 0
    ensures [first, second][m] && LeadsAll(m, cache, [first, second])
  {}
}
