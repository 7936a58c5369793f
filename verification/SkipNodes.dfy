/**
 The nodes of a skip list and what its links mean: the nodes in key order, each
 level linking exactly the nodes tall enough for it.
 */
module SkipNodes {
  import opened Records

  datatype Item = Item(dst: u64, sequence: i64, isOut: bool, edgeType: byte, deleted: bool, value: Bytes)

  /** Node 0 is the head; its item is never compared. `next[i]` is the link on level `i`. */
  datatype Node = Node(item: Item, next: seq<Option<nat>>)

  /** By destination, newest first. */
  function Compare(a: Item, b: Item): int {
    if a.dst < b.dst then -1
    else if a.dst > b.dst then 1
    else if a.sequence < b.sequence then 1
    else if a.sequence > b.sequence then -1
    else 0
  }

  function Height(nodes: seq<Node>, id: nat): nat
    requires id < |nodes|
  {
    |nodes[id].next|
  }

  /** Every node has a level, the head all of them. */
  ghost predicate Shaped(nodes: seq<Node>, max: nat) {
    && |nodes| > 0 && |nodes[0].next| == max
    && forall id :: 0 <= id < |nodes| ==> 1 <= |nodes[id].next| <= max
  }

  /** `order` lists every node but the head once, in strict key order. */
  ghost predicate InOrder(nodes: seq<Node>, order: seq<nat>) {
    && |order| + 1 == |nodes|
    && (forall p :: 0 <= p < |order| ==> 0 < order[p] < |nodes|)
    && (forall p, q :: 0 <= p < q < |order| ==>
      order[p] != order[q] && Compare(nodes[order[p]].item, nodes[order[q]].item) < 0)
  }

  /** The node before position `a`: the head in front of everything. */
  function At(order: seq<nat>, a: nat): nat
    requires a <= |order|
  {
    if a == 0 then 0 else order[a-1]
  }

  /** Position `a` is behind a node of level `i`. */
  predicate Reaches(nodes: seq<Node>, order: seq<nat>, a: nat, i: nat)
    requires a <= |order| && At(order, a) < |nodes|
  {
    i < |nodes[At(order, a)].next|
  }

  ghost predicate Known(nodes: seq<Node>, order: seq<nat>) {
    |nodes| > 0 && forall p :: 0 <= p < |order| ==> order[p] < |nodes|
  }

  /** First position from `a` on whose node has level `i`. */
  function NextTall(nodes: seq<Node>, order: seq<nat>, a: nat, i: nat): (b: nat)
    requires Known(nodes, order) && a <= |order|
    ensures a <= b <= |order| && (b < |order| ==> i < |nodes[order[b]].next|)
    ensures forall p :: a <= p < b ==> i >= |nodes[order[p]].next|
    decreases |order| - a
  {
    if a == |order| || i < |nodes[order[a]].next| then a else NextTall(nodes, order, a + 1, i)
  }

  /** Last position up to `c` behind a node of level `i`. */
  function LastTall(nodes: seq<Node>, order: seq<nat>, c: nat, i: nat): (a: nat)
    requires Known(nodes, order) && c <= |order|
    ensures a <= c && (a > 0 ==> i < |nodes[order[a-1]].next|)
    ensures forall p :: a <= p < c ==> i >= |nodes[order[p]].next|
    decreases c
  {
    if c == 0 || i < |nodes[order[c-1]].next| then c else LastTall(nodes, order, c - 1, i)
  }

  /** Both searches are determined by what they find. */
  lemma {:induction false} NextTallIs(nodes: seq<Node>, order: seq<nat>, a: nat, i: nat, b: nat)
    requires Known(nodes, order) && a <= b <= |order| && (b < |order| ==> i < |nodes[order[b]].next|)
    requires forall p :: a <= p < b ==> i >= |nodes[order[p]].next|
    ensures NextTall(nodes, order, a, i) == b
    decreases b - a
  {
    if a < b {
      NextTallIs(nodes, order, a + 1, i, b);
    }
  }

  lemma {:induction false} LastTallIs(nodes: seq<Node>, order: seq<nat>, c: nat, i: nat, a: nat)
    requires Known(nodes, order) && a <= c <= |order| && (a > 0 ==> i < |nodes[order[a-1]].next|)
    requires forall p :: a <= p < c ==> i >= |nodes[order[p]].next|
    ensures LastTall(nodes, order, c, i) == a
    decreases c - a
  {
    if a < c {
      LastTallIs(nodes, order, c - 1, i, a);
    }
  }

  function Link(order: seq<nat>, b: nat): Option<nat> {
    if b < |order| then Some(order[b]) else None
  }

  /** On level `i`, every node of the level points at the next one. */
  ghost predicate Linked(nodes: seq<Node>, order: seq<nat>, i: nat)
    requires Known(nodes, order)
  {
    forall a :: 0 <= a <= |order| && Reaches(nodes, order, a, i) ==>
      nodes[At(order, a)].next[i] == Link(order, NextTall(nodes, order, a, i))
  }

  /** Position of a key: everything before is smaller, everything from it on is not. */
  ghost predicate Rank(nodes: seq<Node>, order: seq<nat>, k: Item, c: nat)
    requires Known(nodes, order)
  {
    && c <= |order|
    && (forall p :: 0 <= p < c ==> Compare(nodes[order[p]].item, k) < 0)
    && (forall p :: c <= p < |order| ==> Compare(nodes[order[p]].item, k) >= 0)
  }

  /** The predecessor of the key with rank `c` on level `i`. */
  function Pred(nodes: seq<Node>, order: seq<nat>, c: nat, i: nat): nat
    requires Known(nodes, order) && c <= |order|
  {
    At(order, LastTall(nodes, order, c, i))
  }

  // ---- The lists of the levels ----

  /** The nodes of level `i` from position `a` on. */
  ghost function Level(nodes: seq<Node>, order: seq<nat>, a: nat, i: nat): seq<nat>
    requires Known(nodes, order) && a <= |order|
    decreases |order| - a
  {
    var b := NextTall(nodes, order, a, i);
    if b == |order| then [] else [order[b]] + Level(nodes, order, b + 1, i)
  }

  /** Following the links of level `i` from `id` visits `l` and ends. */
  ghost predicate Chain(nodes: seq<Node>, id: nat, l: seq<nat>, i: nat)
    decreases |l|
  {
    && id < |nodes| && i < |nodes[id].next|
    && if l == [] then nodes[id].next[i] == None else nodes[id].next[i] == Some(l[0]) && Chain(nodes, l[0], l[1..], i)
  }

  lemma {:induction false} LinksVisitLevel(nodes: seq<Node>, order: seq<nat>, a: nat, i: nat)
    requires Known(nodes, order) && a <= |order| && Linked(nodes, order, i) && Reaches(nodes, order, a, i)
    ensures Chain(nodes, At(order, a), Level(nodes, order, a, i), i)
    decreases |order| - a
  {
    var b := NextTall(nodes, order, a, i);
    if b < |order| {
      LinksVisitLevel(nodes, order, b + 1, i);
    }
  }

  /** `t` is `s` with some elements left out. */
  ghost predicate Subsequence(t: seq<nat>, s: seq<nat>)
    decreases |s|
  {
    if s == [] then t == []
    else (t != [] && t[0] == s[0] && Subsequence(t[1..], s[1..])) || Subsequence(t, s[1..])
  }

  lemma LevelUnfolds(nodes: seq<Node>, order: seq<nat>, a: nat, i: nat)
    requires Known(nodes, order) && a <= |order|
    ensures var b := NextTall(nodes, order, a, i);
            Level(nodes, order, a, i) == if b == |order| then [] else [order[b]] + Level(nodes, order, b + 1, i)
  {}

  lemma SubsequenceStep(t: seq<nat>, s: seq<nat>, x: nat)
    requires Subsequence(t, s)
    ensures Subsequence([x] + t, [x] + s) && Subsequence(t, [x] + s)
  {
    assert ([x] + s)[1..] == s && ([x] + t)[1..] == t;
  }

  /** Each level is a subsequence of the one below. */
  lemma {:induction false} LevelsNest(nodes: seq<Node>, order: seq<nat>, a: nat, i: nat)
    requires Known(nodes, order) && a <= |order|
    ensures Subsequence(Level(nodes, order, a, i + 1), Level(nodes, order, a, i))
    decreases |order| - a
  {
    hide Level, NextTall, Subsequence;
    var b, b' := NextTall(nodes, order, a, i), NextTall(nodes, order, a, i + 1);
    LevelUnfolds(nodes, order, a, i);
    LevelUnfolds(nodes, order, a, i + 1);
    if b < |order| {
      LevelsNest(nodes, order, b + 1, i);
      SubsequenceStep(Level(nodes, order, b + 1, i + 1), Level(nodes, order, b + 1, i), order[b]);
      if b != b' {
        assert b < b';
        NextTallIs(nodes, order, b + 1, i + 1, b');
        LevelUnfolds(nodes, order, b + 1, i + 1);
      }
    } else {
      assert b' == |order|;
      assert Subsequence([], []) by { EmptySubsequence(); }
    }
  }

  lemma EmptySubsequence()
    ensures Subsequence([], [])
  {}

  /** Level 0 is the whole list. */
  lemma {:induction false} LevelZero(nodes: seq<Node>, order: seq<nat>, a: nat)
    requires Known(nodes, order) && a <= |order| && forall p :: 0 <= p < |order| ==> |nodes[order[p]].next| >= 1
    ensures Level(nodes, order, a, 0) == order[a..]
    decreases |order| - a
  {
    if a < |order| {
      LevelZero(nodes, order, a + 1);
      assert order[a..] == [order[a]] + order[a+1..];
    }
  }

  // ---- Inserting a node ----

  /** A new last node of height `h` is linked in behind `prev[i]` on its lowest `n` levels. */
  ghost predicate Splicing(nodes: seq<Node>, nodes': seq<Node>, prev: seq<nat>, item: Item, h: nat, n: nat) {
    && |nodes'| == |nodes| + 1 && n <= h <= |prev|
    && nodes'[|nodes|].item == item && |nodes'[|nodes|].next| == h
    && (forall i :: 0 <= i < h ==> prev[i] < |nodes| && i < |nodes[prev[i]].next|)
    && (forall i :: 0 <= i < n ==> nodes'[|nodes|].next[i] == nodes[prev[i]].next[i])
    && (forall id :: 0 <= id < |nodes| ==> nodes'[id].item == nodes[id].item && |nodes'[id].next| == |nodes[id].next|)
    && (forall id, i :: 0 <= id < |nodes| && 0 <= i < |nodes[id].next| ==>
          nodes'[id].next[i] == if i < n && prev[i] == id then Some(|nodes|) else nodes[id].next[i])
  }

  ghost predicate Spliced(nodes: seq<Node>, nodes': seq<Node>, prev: seq<nat>, item: Item, h: nat) {
    Splicing(nodes, nodes', prev, item, h, h)
  }

  function SetLink(nodes: seq<Node>, id: nat, i: nat, to: Option<nat>): seq<Node>
    requires id < |nodes| && i < |nodes[id].next|
  {
    nodes[id := nodes[id].(next := nodes[id].next[i := to])]
  }

  lemma SplicingStarts(nodes: seq<Node>, prev: seq<nat>, item: Item, h: nat)
    requires h <= |prev| && forall i :: 0 <= i < h ==> prev[i] < |nodes| && i < |nodes[prev[i]].next|
    ensures Splicing(nodes, nodes + [Node.Node(item, seq(h, i => None))], prev, item, h, 0)
  {}

  lemma SplicingLink(nodes: seq<Node>, nodes': seq<Node>, prev: seq<nat>, item: Item, h: nat, n: nat, id: nat, i: nat)
    requires Splicing(nodes, nodes', prev, item, h, n) && id < |nodes| && i < |nodes[id].next|
    ensures id < |nodes'| && i < |nodes'[id].next| && n <= |prev|
    ensures nodes'[id].next[i] == if i < n && prev[i] == id then Some(|nodes|) else nodes[id].next[i]
  {}

  lemma SplicingStep(nodes: seq<Node>, nodes': seq<Node>, prev: seq<nat>, item: Item, h: nat, n: nat)
    requires Splicing(nodes, nodes', prev, item, h, n) && n < h
    ensures prev[n] < |nodes'| && n < |nodes'[prev[n]].next| && |nodes| < |nodes'| && n < |nodes'[|nodes|].next|
    ensures var linked := SetLink(nodes', |nodes|, n, nodes'[prev[n]].next[n]);
            && n < |linked[prev[n]].next|
            && Splicing(nodes, SetLink(linked, prev[n], n, Some(|nodes|)), prev, item, h, n + 1)
  {
    var p := prev[n];
    var linked := SetLink(nodes', |nodes|, n, nodes'[p].next[n]);
    var done := SetLink(linked, p, n, Some(|nodes|));
    assert linked[p] == nodes'[p];
    assert done[|nodes|] == linked[|nodes|];
    forall id, i | 0 <= id < |nodes| && 0 <= i < |nodes[id].next|
      ensures done[id].next[i] == if i < n + 1 && prev[i] == id then Some(|nodes|) else nodes[id].next[i]
    {
      SplicingLink(nodes, nodes', prev, item, h, n, id, i);
      if id == p {
        assert done[id].next[i] == if i == n then Some(|nodes|) else nodes'[id].next[i];
      } else {
        assert done[id] == nodes'[id];
      }
    }
  }

  function Insert(order: seq<nat>, c: nat, n: nat): (o: seq<nat>)
    requires c <= |order|
    ensures |o| == |order| + 1 && o[c] == n && o[..c] == order[..c]
    ensures forall p :: 0 <= p < |o| ==> o[p] == if p < c then order[p] else if p == c then n else order[p-1]
  {
    order[..c] + [n] + order[c..]
  }

  /** Where a position of the old order went. */
  function Shift(c: nat, b: nat): nat {
    if b < c then b else b + 1
  }

  lemma ItemAt(nodes: seq<Node>, nodes': seq<Node>, order: seq<nat>, prev: seq<nat>, item: Item, h: nat, c: nat, p: nat)
    requires InOrder(nodes, order) && Spliced(nodes, nodes', prev, item, h) && c <= |order| && p <= |order|
    ensures var o := Insert(order, c, |nodes|);
            && 0 < o[p] < |nodes'|
            && o[p] == (if p < c then order[p] else if p == c then |nodes| else order[p-1])
            && (p < c ==> nodes'[o[p]].item == nodes[order[p]].item)
            && (p == c ==> nodes'[o[p]].item == item)
            && (p > c ==> nodes'[o[p]].item == nodes[order[p-1]].item)
  {
    hide Insert, Compare;
    var o := Insert(order, c, |nodes|);
    assert o[p] == if p < c then order[p] else if p == c then |nodes| else order[p-1];
  }

  lemma InsertKeepsOrder(nodes: seq<Node>, nodes': seq<Node>, order: seq<nat>, prev: seq<nat>, item: Item, h: nat,
                         c: nat)
    requires Known(nodes, order) && InOrder(nodes, order) && Spliced(nodes, nodes', prev, item, h)
    requires Rank(nodes, order, item, c) && (c < |order| ==> Compare(nodes[order[c]].item, item) != 0)
    ensures InOrder(nodes', Insert(order, c, |nodes|)) && Known(nodes', Insert(order, c, |nodes|))
  {
    hide Insert, Compare;
    SplicedShape(nodes, nodes', prev, item, h);
    hide Spliced;
    var o := Insert(order, c, |nodes|);
    forall p | 0 <= p < |o| ensures 0 < o[p] < |nodes'| {
      ItemAt(nodes, nodes', order, prev, item, h, c, p);
    }
    forall p, q | 0 <= p < q < |o| ensures o[p] != o[q] && Compare(nodes'[o[p]].item, nodes'[o[q]].item) < 0 {
      ItemAt(nodes, nodes', order, prev, item, h, c, p);
      ItemAt(nodes, nodes', order, prev, item, h, c, q);
      if q == c {
        assert Compare(nodes[order[p]].item, item) < 0;
      } else if p == c {
        After(nodes, order, item, c, q - 1);
      } else {
        var a, b := if p < c then p else p - 1, if q < c then q else q - 1;
        assert order[a] != order[b] && Compare(nodes[order[a]].item, nodes[order[b]].item) < 0;
      }
    }
  }

  lemma After(nodes: seq<Node>, order: seq<nat>, item: Item, c: nat, p: nat)
    requires Known(nodes, order) && InOrder(nodes, order) && Rank(nodes, order, item, c) && c <= p < |order|
    requires Compare(nodes[order[c]].item, item) != 0
    ensures Compare(item, nodes[order[p]].item) < 0
  {
    assert Compare(nodes[order[c]].item, item) > 0;
    assert c < p ==> Compare(nodes[order[c]].item, nodes[order[p]].item) < 0;
  }

  /** Heights along the new order. */
  lemma InsertedHeights(nodes: seq<Node>, nodes': seq<Node>, order: seq<nat>, c: nat, h: nat)
    requires Known(nodes, order) && c <= |order| && |nodes'| == |nodes| + 1 && |nodes'[|nodes|].next| == h
    requires forall id :: 0 <= id < |nodes| ==> |nodes'[id].next| == |nodes[id].next|
    ensures Known(nodes', Insert(order, c, |nodes|))
    ensures var o := Insert(order, c, |nodes|);
            && (forall p :: 0 <= p < c ==> |nodes'[o[p]].next| == |nodes[order[p]].next|)
            && |nodes'[o[c]].next| == h
            && (forall p :: c < p < |o| ==> |nodes'[o[p]].next| == |nodes[order[p-1]].next|)
  {
    var o := Insert(order, c, |nodes|);
    forall p | 0 <= p < |o| ensures o[p] < |nodes'| {
      assert o[p] == if p < c then order[p] else if p == c then |nodes| else order[p-1];
    }
  }

  /** The next tall node after insertion, seen from an old position. */
  lemma NextTallAfter(nodes: seq<Node>, nodes': seq<Node>, order: seq<nat>, c: nat, h: nat, a: nat, i: nat)
    requires Known(nodes, order) && c <= |order| && a <= |order| && |nodes'| == |nodes| + 1
    requires |nodes'[|nodes|].next| == h
    requires forall id :: 0 <= id < |nodes| ==> |nodes'[id].next| == |nodes[id].next|
    ensures Known(nodes', Insert(order, c, |nodes|))
    ensures var o, b := Insert(order, c, |nodes|), NextTall(nodes, order, a, i);
            && (a <= c ==> NextTall(nodes', o, a, i) == if i < h && b >= c then c else Shift(c, b))
            && (a >= c ==> NextTall(nodes', o, a + 1, i) == b + 1)
  {
    hide Insert, NextTall, Known;
    InsertedHeights(nodes, nodes', order, c, h);
    var o, b := Insert(order, c, |nodes|), NextTall(nodes, order, a, i);
    if a <= c {
      var b' := if i < h && b >= c then c else Shift(c, b);
      forall p | a <= p < b' ensures o[p] < |nodes'| && i >= |nodes'[o[p]].next| {
        HeightAt(nodes, nodes', order, c, h, p);
      }
      if b' < |o| {
        HeightAt(nodes, nodes', order, c, h, b');
      }
      NextTallIs(nodes', o, a, i, b');
    }
    if a >= c {
      forall p | a + 1 <= p < b + 1 ensures o[p] < |nodes'| && i >= |nodes'[o[p]].next| {
        HeightAt(nodes, nodes', order, c, h, p);
      }
      if b + 1 < |o| {
        HeightAt(nodes, nodes', order, c, h, b + 1);
      }
      NextTallIs(nodes', o, a + 1, i, b + 1);
    }
  }

  lemma HeightAt(nodes: seq<Node>, nodes': seq<Node>, order: seq<nat>, c: nat, h: nat, p: nat)
    requires Known(nodes, order) && c <= |order| && |nodes'| == |nodes| + 1 && |nodes'[|nodes|].next| == h
    requires p <= |order|
    requires forall id :: 0 <= id < |nodes| ==> |nodes'[id].next| == |nodes[id].next|
    ensures var o := Insert(order, c, |nodes|);
            && o[p] < |nodes'|
            && (p < c ==> order[p] < |nodes| && |nodes'[o[p]].next| == |nodes[order[p]].next|)
            && (p == c ==> |nodes'[o[p]].next| == h)
            && (p > c ==> order[p-1] < |nodes| && |nodes'[o[p]].next| == |nodes[order[p-1]].next|)
  {
    hide Insert;
    var o := Insert(order, c, |nodes|);
    assert o[p] == if p < c then order[p] else if p == c then |nodes| else order[p-1];
  }

  /** Equal nodes are at equal positions. */
  lemma SamePosition(nodes: seq<Node>, order: seq<nat>, a: nat, b: nat)
    requires InOrder(nodes, order) && a <= |order| && b <= |order| && At(order, a) == At(order, b)
    ensures a == b
  {}

  /** The link of an old position after insertion. */
  lemma OldLink(nodes: seq<Node>, nodes': seq<Node>, order: seq<nat>, prev: seq<nat>, item: Item, h: nat, c: nat,
                a: nat, i: nat)
    requires Known(nodes, order) && InOrder(nodes, order) && Spliced(nodes, nodes', prev, item, h) && c <= |order|
    requires Linked(nodes, order, i) && (i < h ==> prev[i] == Pred(nodes, order, c, i))
    requires a <= |order| && Reaches(nodes, order, a, i)
    ensures var b := NextTall(nodes, order, a, i);
            nodes'[At(order, a)].next[i] == if i < h && a <= c && b >= c then Some(|nodes|) else Link(order, b)
  {
    hide NextTall, LastTall, Splicing;
    var b, l := NextTall(nodes, order, a, i), LastTall(nodes, order, c, i);
    SplicingLink(nodes, nodes', prev, item, h, h, At(order, a), i);
    if i < h {
      if a <= c && b >= c {
        LastTallIs(nodes, order, c, i, a);
      } else if prev[i] == At(order, a) {
        SamePosition(nodes, order, a, l);
      }
    }
  }

  lemma InsertKeepsLinks(nodes: seq<Node>, nodes': seq<Node>, order: seq<nat>, prev: seq<nat>, item: Item, h: nat,
                         c: nat, i: nat)
    requires Known(nodes, order) && InOrder(nodes, order) && Spliced(nodes, nodes', prev, item, h) && c <= |order|
    requires Linked(nodes, order, i) && (i < h ==> prev[i] == Pred(nodes, order, c, i))
    ensures Known(nodes', Insert(order, c, |nodes|)) && Linked(nodes', Insert(order, c, |nodes|), i)
  {
    hide InOrder, NextTall, LastTall, Insert, Linked;
    SplicedShape(nodes, nodes', prev, item, h);
    hide Spliced;
    NextTallAfter(nodes, nodes', order, c, h, c, i);
    var o := Insert(order, c, |nodes|);
    forall a' | 0 <= a' <= |o| && Reaches(nodes', o, a', i)
      ensures nodes'[At(o, a')].next[i] == Link(o, NextTall(nodes', o, a', i))
    {
      if a' == c + 1 {
        NewLink(nodes, nodes', order, prev, item, h, c, i);
      } else {
        var a := if a' <= c then a' else a' - 1;
        assert At(o, a') == At(order, a);
        OldLink(nodes, nodes', order, prev, item, h, c, a, i);
        NextTallAfter(nodes, nodes', order, c, h, a, i);
      }
    }
    LinkedBy(nodes', o, i);
  }

  lemma LinkedBy(nodes: seq<Node>, order: seq<nat>, i: nat)
    requires Known(nodes, order)
    requires forall a :: 0 <= a <= |order| && Reaches(nodes, order, a, i) ==>
        nodes[At(order, a)].next[i] == Link(order, NextTall(nodes, order, a, i))
    ensures Linked(nodes, order, i)
  {}

  lemma SplicedShape(nodes: seq<Node>, nodes': seq<Node>, prev: seq<nat>, item: Item, h: nat)
    requires Spliced(nodes, nodes', prev, item, h)
    ensures |nodes'| == |nodes| + 1 && |nodes'[|nodes|].next| == h
    ensures forall id :: 0 <= id < |nodes| ==> |nodes'[id].next| == |nodes[id].next|
  {}

  lemma NewLink(nodes: seq<Node>, nodes': seq<Node>, order: seq<nat>, prev: seq<nat>, item: Item, h: nat, c: nat,
                i: nat)
    requires Known(nodes, order) && Spliced(nodes, nodes', prev, item, h) && c <= |order| && i < h
    requires Linked(nodes, order, i) && prev[i] == Pred(nodes, order, c, i)
    ensures Known(nodes', Insert(order, c, |nodes|))
    ensures var o := Insert(order, c, |nodes|); nodes'[|nodes|].next[i] == Link(o, NextTall(nodes', o, c + 1, i))
  {
    var l, b := LastTall(nodes, order, c, i), NextTall(nodes, order, c, i);
    NextTallIs(nodes, order, l, i, b);
    NextTallAfter(nodes, nodes', order, c, h, c, i);
    assert Reaches(nodes, order, l, i);
  }
}
