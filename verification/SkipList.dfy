/** The skip list of a memtable vertex, with its fast path for sequential inserts. */
module SkipList {
  import opened Records
  import opened SkipNodes

  // ---- Ranks ----

  ghost function RankOf(nodes: seq<Node>, order: seq<nat>, k: Item): (c: nat)
    requires Known(nodes, order)
    ensures c <= |order|
  {
    if order == [] ||
      Compare(nodes[order[|order|-1]].item, k) < 0 then |order| else RankOf(nodes, order[..|order|-1], k)
  }

  lemma {:induction false} RankExists(nodes: seq<Node>, order: seq<nat>, k: Item)
    requires Known(nodes, order)
    requires forall p, q :: 0 <= p < q < |order| ==> Compare(nodes[order[p]].item, nodes[order[q]].item) < 0
    ensures Rank(nodes, order, k, RankOf(nodes, order, k))
  {
    if order != [] {
      var n := |order| - 1;
      if Compare(nodes[order[n]].item, k) < 0 {
        forall p | 0 <= p < n ensures Compare(nodes[order[p]].item, k) < 0 {
          assert Compare(nodes[order[p]].item, nodes[order[n]].item) < 0;
        }
      } else {
        RankExists(nodes, order[..n], k);
      }
    }
  }

  lemma RankUnique(nodes: seq<Node>, order: seq<nat>, k: Item, c: nat, d: nat)
    requires Known(nodes, order) && Rank(nodes, order, k, c) && Rank(nodes, order, k, d)
    ensures c == d
  {
    hide Compare;
    assert c < |order| ==> Compare(nodes[order[c]].item, k) >= 0;
    assert d < |order| ==> Compare(nodes[order[d]].item, k) >= 0;
  }

  // ---- What one step of a search learns ----

  /** Standing behind position `a` on a level, below the key. */
  ghost predicate Stands(nodes: seq<Node>, order: seq<nat>, x: nat, a: nat, c: nat, level: nat)
    requires Known(nodes, order)
  {
    a <= c <= |order| && x == SkipNodes.At(order, a) && Reaches(nodes, order, a, level)
  }

  lemma SearchStep(nodes: seq<Node>, order: seq<nat>, k: Item, c: nat, x: nat, a: nat, level: nat)
    requires Known(nodes, order) && Rank(nodes, order, k, c) && Linked(nodes, order, level)
    requires Stands(nodes, order, x, a, c, level)
    ensures x < |nodes| && level < |nodes[x].next|
    ensures var next := nodes[x].next[level];
            var b := NextTall(nodes, order, a, level);
            && next == Link(order, b)
            && (next.Some? ==> next.value < |nodes|)
            && (next.Some? && Compare(nodes[next.value].item, k) < 0 ==>
              b < c && Stands(nodes, order, next.value, b + 1, c, level))
            && (!(next.Some? && Compare(nodes[next.value].item, k) < 0) ==> b >= c && Pred(nodes, order, c, level) == x)
  {
    hide Compare, NextTall, LastTall;
    var b := NextTall(nodes, order, a, level);
    if b >= c {
      LastTallIs(nodes, order, c, level, a);
    }
  }

  class MemSkipList {
    const max: nat
    var nodes: seq<Node>
    var height: nat
    var prev: seq<nat>
    var prevHeight: nat
    var size: nat
    ghost var order: seq<nat>   // every node, in key order
    ghost var last: nat         // position of the node inserted last

    ghost predicate Valid()
      reads this
    {
      && Built(nodes, order, max, height) && size == |order|
      && 1 <= height <= max && |prev| == max
      && Remembered(nodes, order, last, prev, prevHeight, height)
    }

    /** The stored items, in key order. */
    ghost function Items(): seq<Item>
      requires Valid()
      reads this
    {
      ItemsOf(nodes, order)
    }

    constructor (max: nat)
      requires max > 0
      ensures Valid() && this.max == max && Items() == []
    {
      this.max := max;
      nodes := [Node.Node(Item(0, 0, true, 0, false, []), seq(max, i => None))];
      height, prev, prevHeight, size := 1, seq(max, i => 0), 1, 0;
      order, last := [], 0;
    }

    predicate IsAfter(k: Item, id: Option<nat>)
      requires id.Some? ==> id.value < |nodes|
      reads this
    {
      id.Some? && Compare(nodes[id.value].item, k) < 0
    }

    /** The predecessors of a key on every level in use. */
    method FindLessThan(k: Item, before: seq<nat>) returns (found: seq<nat>)
      requires Valid() && |before| == max
      ensures |found| == max && Rank(nodes, order, k, RankOf(nodes, order, k))
      ensures forall i :: 0 <= i < height ==> found[i] == Pred(nodes, order, RankOf(nodes, order, k), i)
    {
      hide Compare, NextTall, LastTall, Linked, Remembered, InOrder;
      ghost var c := RankOf(nodes, order, k);
      assert Rank(nodes, order, k, c) by { ListedRank(nodes, order, max, k); }
      found := before;
      var x: nat, level: int := 0, height - 1;
      ghost var a := 0;
      var lastNotAfter: Option<nat> := None;
      while true
        invariant 0 <= level < height && |found| == max
        invariant 0 <= a <= c && Stands(nodes, order, x, a, c, level)
        invariant lastNotAfter.Some? ==> lastNotAfter.value < |nodes| && Compare(nodes[lastNotAfter.value].item, k) >= 0
        invariant forall i :: level < i < height ==> found[i] == Pred(nodes, order, c, i)
        decreases level, c - a
      {
        SearchStep(nodes, order, k, c, x, a, level);
        var next := nodes[x].next[level];
        if next != lastNotAfter && IsAfter(k, next) {
          a := NextTall(nodes, order, a, level) + 1;
          x := next.value;
        } else {
          found := found[level := x];
          if level == 0 {
            return;
          }
          lastNotAfter := next;
          level := level - 1;
        }
      }
    }

    /** The first node whose key is not smaller. */
    method FindGreaterOrEqual(k: Item) returns (r: Option<nat>)
      requires Valid()
      ensures Rank(nodes, order, k, RankOf(nodes, order, k)) && r == Link(order, RankOf(nodes, order, k))
    {
      hide NextTall, LastTall, Linked, Remembered;
      ghost var c := RankOf(nodes, order, k);
      assert Rank(nodes, order, k, c) by { ListedRank(nodes, order, max, k); }
      var x: nat, level: int := 0, height - 1;
      ghost var a := 0;
      var lastBigger: Option<nat> := None;
      while true
        invariant 0 <= level < height
        invariant 0 <= a <= c && Stands(nodes, order, x, a, c, level)
        invariant lastBigger.Some? ==> lastBigger.value < |nodes| && Compare(nodes[lastBigger.value].item, k) > 0
        decreases level, c - a
      {
        SearchStep(nodes, order, k, c, x, a, level);
        var next := nodes[x].next[level];
        ghost var b := NextTall(nodes, order, a, level);
        var cmp := if next.None? || next == lastBigger then 1 else Compare(nodes[next.value].item, k);
        if cmp == 0 || (cmp > 0 && level == 0) {
          if cmp == 0 {
            EqualIsHere(nodes, order, k, c, b);
          } else {
            BottomIsHere(nodes, order, max, a, b, c);
          }
          return next;
        } else if cmp < 0 {
          a := b + 1;
          x := next.value;
        } else {
          lastBigger := next;
          level := level - 1;
        }
      }
    }

    /** Predecessors of a new key: from the cache when it goes right behind the last insert, else by search. */
    method Position(k: Item) returns (ghost c: nat)
      requires Valid()
      modifies this`prev
      ensures |prev| == max && Rank(nodes, order, k, c)
      ensures forall i :: 0 <= i < height ==> prev[i] == Pred(nodes, order, c, i)
    {
      hide Compare, NextTall, LastTall, InOrder, Rank, Pred;
      RememberedBounds(nodes, order, max, last, prev, prevHeight, height);
      var next := nodes[prev[0]].next[0];
      NextBound(nodes, order, max, last, prev, prevHeight, height);
      if !IsAfter(k, next) && (prev[0] == 0 || IsAfter(k, Some(prev[0]))) {
        c := if order == [] then 0 else last + 1;
        FastPathAgrees(nodes, order, max, last, prev, prevHeight, height, k, c);
        ghost var was, up := prev, prevHeight;
        var i := 1;
        while i < prevHeight
          invariant 1 <= i <= prevHeight <= max && |prev| == max
          invariant forall j :: 0 <= j < max ==> prev[j] == if j < i then old(prev[0]) else old(prev[j])
        {
          prev := prev[i := prev[0]];
          i := i + 1;
        }
        forall j | 0 <= j < height ensures prev[j] == Pred(nodes, order, c, j) {
          assert Pred(nodes, order, c, j) == if j < up then was[0] else was[j];
        }
      } else {
        c := RankOf(nodes, order, k);
        var found := FindLessThan(k, prev);
        prev := found;
      }
    }

    /** Links a new last node of height `h` behind its predecessors. */
    method Splice(item: Item, h: nat)
      requires 1 <= h <= |prev| && forall i :: 0 <= i < h ==> prev[i] < |nodes| && i < |nodes[prev[i]].next|
      modifies this`nodes
      ensures Spliced(old(nodes), nodes, prev, item, h)
    {
      hide Splicing;
      var n := |nodes|;
      SplicingStarts(nodes, prev, item, h);
      nodes := nodes + [Node.Node(item, seq(h, i => None))];
      var i := 0;
      while i < h
        invariant 0 <= i <= h && Splicing(old(nodes), nodes, prev, item, h, i)
      {
        SplicingStep(old(nodes), nodes, prev, item, h, i);
        nodes := SetLink(nodes, n, i, nodes[prev[i]].next[i]);
        nodes := SetLink(nodes, prev[i], i, Some(n));
        i := i + 1;
      }
    }

    /** New levels start at the head. */
    method Raise(h: nat, ghost c: nat)
      requires height <= h <= max == |prev| && Known(nodes, order) && c <= |order|
      requires forall j :: 0 <= j < height ==> prev[j] == Pred(nodes, order, c, j)
      modifies this`prev, this`height
      ensures |prev| == max && height == h
      ensures forall j :: 0 <= j < old(height) ==> prev[j] == Pred(nodes, order, c, j)
      ensures forall j :: old(height) <= j < h ==> prev[j] == 0
    {
      hide Pred;
      var i := height;
      while i < h
        invariant old(height) <= i <= h && |prev| == max && height == old(height)
        invariant forall j :: 0 <= j < height ==> prev[j] == Pred(nodes, order, c, j)
        invariant forall j :: height <= j < i ==> prev[j] == 0
      {
        prev := prev[i := 0];
        i := i + 1;
      }
      height := h;
    }

    /** Inserts an item of drawn height `h`; no equal key may be present. */
    method PutEdge(item: Item, h: nat) returns (ghost c: nat)
      requires Valid() && 1 <= h <= max
      requires forall x :: x in Items() ==> Compare(x, item) != 0
      modifies this
      ensures Valid() && size == old(size) + 1 && c <= |old(Items())|
      ensures Items() == old(Items())[..c] + [item] + old(Items())[c..]
      ensures forall i :: 0 <= i < c ==> Compare(old(Items())[i], item) < 0
      ensures forall i :: c <= i < |old(Items())| ==> Compare(item, old(Items())[i]) < 0
    {
      hide Compare, Built, Pred, Rank, Spliced, Remembered, ItemsOf;
      BuiltIsKnown(nodes, order, max, height);
      c := Position(item);
      RankBound(nodes, order, item, c);
      ghost var low := height;
      if h > height {
        Raise(h, c);
      }
      PrevComplete(nodes, order, max, prev, item, c, low, height);
      ghost var nodes0 := nodes;
      Splice(item, h);
      SplicedShape(nodes0, nodes, prev, item, h);
      PutKeeps(nodes0, nodes, order, max, prev, item, h, c, low, height);
      PutItems(nodes0, nodes, order, max, prev, item, h, c);
      prev := prev[0 := |nodes| - 1];
      prevHeight := h;
      size := size + 1;
      order, last := Insert(order, c, |nodes| - 1), c;
    }

    /** The newest record of an edge in one direction and of one type. `newest` bounds every sequence number. */
    method Get(dst: u64, isOut: bool, edgeType: byte, newest: i64) returns (r: Answer)
      requires Valid() && forall x :: x in Items() ==> x.sequence <= newest
      ensures r == AnswerOf(Items(), dst, isOut, edgeType)
    {
      hide Built, Remembered, Rank, RankOf, AnswerOf, Compare, InOrder, Shaped;
      var k := Item(dst, newest, true, 0, false, []);
      BuiltIsKnown(nodes, order, max, height);
      var x := FindGreaterOrEqual(k);
      ghost var c := RankOf(nodes, order, k);
      ghost var p := c;
      Before(nodes, order, max, k, c, isOut, edgeType, newest);
      while x.Some?
        invariant c <= p <= |order| && x == Link(order, p)
        invariant x.Some? ==> x.value < |nodes|
        invariant AnswerOf(ItemsOf(nodes, order), dst, isOut, edgeType) ==
            AnswerOf(ItemsOf(nodes, order)[p..], dst, isOut, edgeType)
        decreases |order| - p
      {
        var item := nodes[x.value].item;
        AnswerStep(ItemsOf(nodes, order), p, dst, isOut, edgeType);
        if item.dst != dst {
          NotBelow(nodes, order, max, k, c, p);
          PastDestination(nodes, order, max, p, dst, isOut, edgeType);
          return Missing;
        }
        if item.isOut == isOut && item.edgeType == edgeType {
          if item.deleted {
            return Deleted;
          }
          return Value(item.value);
        }
        BottomLink(nodes, order, max, height, p);
        x := nodes[x.value].next[0];
        p := p + 1;
      }
      NothingLeft(ItemsOf(nodes, order), p, dst, isOut, edgeType);
      r := Missing;
    }
  }

  /** Every level links its nodes, and no node is taller than the list. */
  ghost predicate Built(nodes: seq<Node>, order: seq<nat>, max: nat, height: nat) {
    && Listed(nodes, order, max)
    && (forall i :: 0 <= i < max ==> Linked(nodes, order, i))
    && (forall p :: 0 <= p < |order| ==> |nodes[order[p]].next| <= height)
  }

  ghost predicate Listed(nodes: seq<Node>, order: seq<nat>, max: nat) {
    Shaped(nodes, max) && Known(nodes, order) && InOrder(nodes, order)
  }

  function ItemsOf(nodes: seq<Node>, order: seq<nat>): (r: seq<Item>)
    requires Known(nodes, order)
    ensures |r| == |order| && forall p :: 0 <= p < |order| ==> r[p] == nodes[order[p]].item
  {
    seq(|order|, p requires 0 <= p < |order| => nodes[order[p]].item)
  }

  /** The cached predecessors belong to the node inserted last. */
  ghost predicate Remembered(nodes: seq<Node>, order: seq<nat>, last: nat, prev: seq<nat>, prevHeight: nat, height: nat)
    requires Known(nodes, order)
  {
    if order == [] then prevHeight == 1 && height == 1 && forall i :: 0 <= i < |prev| ==> prev[i] == 0
    else
      && last < |order| && |prev| > 0 && prev[0] == order[last] && prevHeight == |nodes[order[last]].next| &&
        height <= |prev|
      && forall i :: 1 <= i < height ==> prev[i] == Pred(nodes, order, last, i)
  }

  lemma ListedRank(nodes: seq<Node>, order: seq<nat>, max: nat, k: Item)
    requires Listed(nodes, order, max)
    ensures Rank(nodes, order, k, RankOf(nodes, order, k))
  {
    RankExists(nodes, order, k);
  }

  lemma EqualIsHere(nodes: seq<Node>, order: seq<nat>, k: Item, c: nat, b: nat)
    requires Known(nodes, order) && InOrder(nodes, order) && Rank(nodes, order, k, c) && c <= b < |order|
    requires Compare(nodes[order[b]].item, k) == 0
    ensures b == c
  {
    assert Compare(nodes[order[c]].item, k) >= 0;
  }

  lemma BottomIsHere(nodes: seq<Node>, order: seq<nat>, max: nat, a: nat, b: nat, c: nat)
    requires Listed(nodes, order, max) && a <= c <= b <= |order| && b == NextTall(nodes, order, a, 0)
    ensures b == c
  {
    assert c < |order| ==> |nodes[order[c]].next| >= 1;
  }

  // ---- The fast path ----

  lemma RememberedBounds(nodes: seq<Node>, order: seq<nat>, max: nat, last: nat, prev: seq<nat>, prevHeight: nat,
                         height: nat)
    requires Listed(nodes, order, max) && Remembered(nodes, order, last, prev, prevHeight, height)
    requires 1 <= height <= max == |prev|
    ensures prev[0] < |nodes| && |nodes[prev[0]].next| > 0 && 1 <= prevHeight <= max
  {}

  lemma NextBound(nodes: seq<Node>, order: seq<nat>, max: nat, last: nat, prev: seq<nat>, prevHeight: nat, height: nat)
    requires Listed(nodes, order, max) && Remembered(nodes, order, last, prev, prevHeight, height)
    requires 1 <= height <= max == |prev|
    requires Linked(nodes, order, 0)
    ensures prev[0] < |nodes| && |nodes[prev[0]].next| > 0
    ensures nodes[prev[0]].next[0] == Link(order, if order == [] then 0 else last + 1)
    ensures nodes[prev[0]].next[0].Some? ==> nodes[prev[0]].next[0].value < |nodes|
  {
    var a := if order == [] then 0 else last + 1;
    assert SkipNodes.At(order, a) == prev[0];
    assert Reaches(nodes, order, a, 0);
    NextTallIs(nodes, order, a, 0, a);
  }

  /**
   When the key fits right behind the last insert, the cached predecessors, with the
   levels of that insert filled in, are what a full search finds.
   */
  lemma FastPathAgrees(nodes: seq<Node>, order: seq<nat>, max: nat, last: nat, prev: seq<nat>, prevHeight: nat,
                       height: nat, k: Item, c: nat)
    requires Listed(nodes, order, max) && Remembered(nodes, order, last, prev, prevHeight, height)
    requires 1 <= height <= max == |prev|
    requires Linked(nodes, order, 0) && c == if order == [] then 0 else last + 1
    requires prev[0] < |nodes| && |nodes[prev[0]].next| > 0
    requires (nodes[prev[0]].next[0].Some? ==> nodes[prev[0]].next[0].value < |nodes|)
    requires nodes[prev[0]].next[0].Some? ==> Compare(nodes[nodes[prev[0]].next[0].value].item, k) >= 0
    requires prev[0] == 0 || Compare(nodes[prev[0]].item, k) < 0
    ensures Rank(nodes, order, k, c)
    ensures forall i :: 0 <= i < height ==> Pred(nodes, order, c, i) == if i < prevHeight then prev[0] else prev[i]
  {
    hide Compare, NextTall, LastTall, Pred, Rank, InOrder, Linked;
    NextBound(nodes, order, max, last, prev, prevHeight, height);
    if order == [] {
      StartRank(nodes, k, height);
    } else {
      FastRank(nodes, order, max, last, k);
      forall i | 0 <= i < height ensures Pred(nodes, order, c, i) == if i < prevHeight then prev[0] else prev[i] {
        FastPred(nodes, order, last, i);
      }
    }
  }

  lemma StartRank(nodes: seq<Node>, k: Item, height: nat)
    requires Known(nodes, [])
    ensures Rank(nodes, [], k, 0) && forall i :: 0 <= i < height ==> Pred(nodes, [], 0, i) == 0
  {}

  /** Bigger than the last insert and not bigger than its successor: right behind it. */
  lemma FastRank(nodes: seq<Node>, order: seq<nat>, max: nat, last: nat, k: Item)
    requires Listed(nodes, order, max) && last < |order|
    requires order[last] == 0 || Compare(nodes[order[last]].item, k) < 0
    requires last + 1 < |order| ==> Compare(nodes[order[last+1]].item, k) >= 0
    ensures Rank(nodes, order, k, last + 1)
  {
    hide Compare;
    var c := last + 1;
    forall p | 0 <= p < c ensures Compare(nodes[order[p]].item, k) < 0 {
      if p < last {
        Transitive(nodes[order[p]].item, nodes[order[last]].item, k);
      }
    }
    forall p | c <= p < |order| ensures Compare(nodes[order[p]].item, k) >= 0 {
      if c < p {
        Transitive(nodes[order[c]].item, nodes[order[p]].item, k);
      }
    }
  }

  /** One position further on, the predecessor is that node on its levels and unchanged above. */
  lemma FastPred(nodes: seq<Node>, order: seq<nat>, last: nat, i: nat)
    requires Known(nodes, order) && last < |order|
    ensures Pred(nodes, order, last + 1, i) == if i < |nodes[order[last]].next| then order[last]
      else Pred(nodes, order, last, i)
  {
    hide LastTall;
    LastTallIs(nodes, order, last + 1, i, if i < |nodes[order[last]].next| then last + 1
      else LastTall(nodes, order, last, i));
  }

  lemma Transitive(a: Item, b: Item, c: Item)
    ensures Compare(a, b) < 0 && Compare(b, c) < 0 ==> Compare(a, c) < 0
  {}

  /** Above the tallest node every predecessor is the head. */
  lemma AboveIsHead(nodes: seq<Node>, order: seq<nat>, c: nat, i: nat)
    requires Known(nodes, order) && c <= |order| && forall p :: 0 <= p < |order| ==> |nodes[order[p]].next| <= i
    ensures Pred(nodes, order, c, i) == 0
  {
    hide LastTall;
    LastTallIs(nodes, order, c, i, 0);
  }

  /** In a built list, following level `i` visits its nodes in order, within the level below; level 0 visits all. */
  lemma LevelsOfList(nodes: seq<Node>, order: seq<nat>, max: nat, height: nat, i: nat)
    requires Built(nodes, order, max, height) && i < max
    ensures Chain(nodes, 0, Level(nodes, order, 0, i), i)
    ensures Subsequence(Level(nodes, order, 0, i + 1), Level(nodes, order, 0, i))
    ensures Level(nodes, order, 0, 0) == order
  {
    hide Level, Subsequence, NextTall, InOrder;
    LinksVisitLevel(nodes, order, 0, i);
    LevelsNest(nodes, order, 0, i);
    LevelZero(nodes, order, 0);
    assert order[0..] == order;
  }

  // ---- Inserting ----

  lemma BuiltIsKnown(nodes: seq<Node>, order: seq<nat>, max: nat, height: nat)
    requires Built(nodes, order, max, height)
    ensures Listed(nodes, order, max)
  {}

  /** With the new levels set to the head, every predecessor up to the new height is known. */
  lemma PrevComplete(nodes: seq<Node>, order: seq<nat>, max: nat, prev: seq<nat>, item: Item, c: nat, low: nat,
                     height: nat)
    requires Built(nodes, order, max, low) && low <= height <= max == |prev| && Rank(nodes, order, item, c)
    requires forall j :: 0 <= j < low ==> prev[j] == Pred(nodes, order, c, j)
    requires forall j :: low <= j < height ==> prev[j] == 0
    ensures forall j :: 0 <= j < height ==>
        prev[j] == Pred(nodes, order, c, j) && prev[j] < |nodes| && j < |nodes[prev[j]].next|
  {
    hide LastTall, Compare, InOrder;
    forall j | 0 <= j < height
      ensures prev[j] == Pred(nodes, order, c, j) && prev[j] < |nodes| && j < |nodes[prev[j]].next| {
      if low <= j {
        AboveIsHead(nodes, order, c, j);
      }
    }
  }

  lemma PutKeeps(nodes: seq<Node>, nodes': seq<Node>, order: seq<nat>, max: nat, prev: seq<nat>, item: Item, h: nat,
                 c: nat, low: nat, height: nat)
    requires Built(nodes, order, max, low) && Spliced(nodes, nodes', prev, item, h)
    requires 1 <= h <= height <= max == |prev| && low <= height
    requires Rank(nodes, order, item, c) && forall x :: x in ItemsOf(nodes, order) ==> Compare(x, item) != 0
    requires forall j :: 0 <= j < height ==> prev[j] == Pred(nodes, order, c, j)
    ensures c <= |order|
    ensures var o := Insert(order, c, |nodes|);
            && Built(nodes', o, max, height)
            && Remembered(nodes', o, c, prev[0 := |nodes|], h, height)
  {
    hide Compare, Linked, Pred, Splicing, Insert, Shaped, InOrder, Rank;
    RankBound(nodes, order, item, c);
    var o := Insert(order, c, |nodes|);
    if c < |order| {
      assert ItemsOf(nodes, order)[c] in ItemsOf(nodes, order);
    }
    SplicedShape(nodes, nodes', prev, item, h);
    InsertKeepsOrder(nodes, nodes', order, prev, item, h, c);
    StaysShaped(nodes, nodes', max, h);
    forall i | 0 <= i < max ensures Linked(nodes', o, i) {
      InsertKeepsLinks(nodes, nodes', order, prev, item, h, c, i);
    }
    forall p | 0 <= p < |o| ensures |nodes'[o[p]].next| <= height {
      HeightAt(nodes, nodes', order, c, h, p);
    }
    forall i | 1 <= i < height ensures prev[i] == Pred(nodes', o, c, i) {
      PredStays(nodes, nodes', order, c, h, i);
    }
    HeightAt(nodes, nodes', order, c, h, c);
  }

  lemma RankBound(nodes: seq<Node>, order: seq<nat>, item: Item, c: nat)
    requires Known(nodes, order) && Rank(nodes, order, item, c)
    ensures c <= |order|
  {}

  lemma StaysShaped(nodes: seq<Node>, nodes': seq<Node>, max: nat, h: nat)
    requires Shaped(nodes, max) && 1 <= h <= max && |nodes'| == |nodes| + 1 && |nodes'[|nodes|].next| == h
    requires forall id :: 0 <= id < |nodes| ==> |nodes'[id].next| == |nodes[id].next|
    ensures Shaped(nodes', max)
  {}

  /** Predecessors of the new node's own position did not move. */
  lemma PredStays(nodes: seq<Node>, nodes': seq<Node>, order: seq<nat>, c: nat, h: nat, i: nat)
    requires Known(nodes, order) && c <= |order| && |nodes'| == |nodes| + 1 && |nodes'[|nodes|].next| == h
    requires forall id :: 0 <= id < |nodes| ==> |nodes'[id].next| == |nodes[id].next|
    ensures Known(nodes', Insert(order, c, |nodes|))
    ensures Pred(nodes', Insert(order, c, |nodes|), c, i) == Pred(nodes, order, c, i)
  {
    hide Insert, LastTall;
    InsertedHeights(nodes, nodes', order, c, h);
    var a, o := LastTall(nodes, order, c, i), Insert(order, c, |nodes|);
    forall p | 0 <= p < c ensures o[p] == order[p] && |nodes'[o[p]].next| == |nodes[order[p]].next| {
      HeightAt(nodes, nodes', order, c, h, p);
    }
    LastTallIs(nodes', o, c, i, a);
  }

  lemma PutItems(nodes: seq<Node>, nodes': seq<Node>, order: seq<nat>, max: nat, prev: seq<nat>, item: Item, h: nat,
                 c: nat)
    requires Listed(nodes, order, max) && Spliced(nodes, nodes', prev, item, h) && Rank(nodes, order, item, c)
    requires forall x :: x in ItemsOf(nodes, order) ==> Compare(x, item) != 0
    ensures Known(nodes', Insert(order, c, |nodes|)) && c <= |order|
    ensures var s := ItemsOf(nodes, order);
            && ItemsOf(nodes', Insert(order, c, |nodes|)) == s[..c] + [item] + s[c..]
            && (forall i :: 0 <= i < c ==> Compare(s[i], item) < 0)
            && (forall i :: c <= i < |s| ==> Compare(item, s[i]) < 0)
  {
    hide Compare, Splicing, Insert;
    var s, o := ItemsOf(nodes, order), Insert(order, c, |nodes|);
    SplicedShape(nodes, nodes', prev, item, h);
    forall p | 0 <= p < |o| ensures o[p] < |nodes'| && nodes'[o[p]].item == (s[..c] + [item] + s[c..])[p] {
      ItemAt(nodes, nodes', order, prev, item, h, c, p);
    }
    forall i | c <= i < |s| ensures Compare(item, s[i]) < 0 {
      assert s[c] in s;
      After(nodes, order, item, c, i);
    }
  }

  // ---- Reading ----

  datatype Answer = Missing | Deleted | Value(value: Bytes)

  predicate Wanted(x: Item, dst: u64, isOut: bool, edgeType: byte) {
    x.dst == dst && x.isOut == isOut && x.edgeType == edgeType
  }

  /** The first wanted item decides: its value, or its tombstone. */
  function AnswerOf(s: seq<Item>, dst: u64, isOut: bool, edgeType: byte): Answer {
    if s == [] then Missing
    else if Wanted(s[0], dst, isOut, edgeType) then (if s[0].deleted then Deleted else Value(s[0].value))
    else AnswerOf(s[1..], dst, isOut, edgeType)
  }

  /** Item `i` is wanted and no wanted item is newer. */
  ghost predicate NewestWanted(s: seq<Item>, dst: u64, isOut: bool, edgeType: byte, i: nat) {
    && i < |s| && Wanted(s[i], dst, isOut, edgeType)
    && forall j :: 0 <= j < |s| && Wanted(s[j], dst, isOut, edgeType) ==> s[j].sequence <= s[i].sequence
  }

  /** In key order the answer is that of the newest wanted item, and missing exactly when there is none. */
  lemma {:induction false} AnswerIsNewest(s: seq<Item>, dst: u64, isOut: bool, edgeType: byte)
    requires forall i, j :: 0 <= i < j < |s| ==> Compare(s[i], s[j]) < 0
    ensures AnswerOf(s, dst, isOut, edgeType) == Missing <==>
        forall i :: 0 <= i < |s| ==> !Wanted(s[i], dst, isOut, edgeType)
    ensures AnswerOf(s, dst, isOut, edgeType) != Missing ==>
      exists i: nat :: NewestWanted(s, dst, isOut, edgeType, i)
        && AnswerOf(s, dst, isOut, edgeType) == if s[i].deleted then Deleted else Value(s[i].value)
  {
    if s != [] {
      if Wanted(s[0], dst, isOut, edgeType) {
        assert NewestWanted(s, dst, isOut, edgeType, 0);
      } else {
        var t := s[1..];
        AnswerIsNewest(t, dst, isOut, edgeType);
        assert forall i :: 0 < i < |s| ==> s[i] == t[i-1];
        if AnswerOf(t, dst, isOut, edgeType) != Missing {
          var i: nat :| NewestWanted(t, dst, isOut, edgeType, i)
            && AnswerOf(t, dst, isOut, edgeType) == if t[i].deleted then Deleted else Value(t[i].value);
          assert NewestWanted(s, dst, isOut, edgeType, i + 1);
        }
      }
    }
  }

  lemma {:induction false} AnswerSkips(s: seq<Item>, p: nat, dst: u64, isOut: bool, edgeType: byte)
    requires p <= |s| && forall i :: 0 <= i < p ==> !Wanted(s[i], dst, isOut, edgeType)
    ensures AnswerOf(s, dst, isOut, edgeType) == AnswerOf(s[p..], dst, isOut, edgeType)
    decreases p
  {
    if p > 0 {
      AnswerSkips(s[1..], p - 1, dst, isOut, edgeType);
      assert s[1..][p-1..] == s[p..];
    } else {
      assert s[0..] == s;
    }
  }

  lemma AnswerStep(s: seq<Item>, p: nat, dst: u64, isOut: bool, edgeType: byte)
    requires p < |s|
    ensures AnswerOf(s[p..], dst, isOut, edgeType) ==
      if Wanted(s[p], dst, isOut, edgeType) then (if s[p].deleted then Deleted else Value(s[p].value))
      else AnswerOf(s[p+1..], dst, isOut, edgeType)
  {
    assert s[p..][1..] == s[p+1..];
  }

  lemma Before(nodes: seq<Node>, order: seq<nat>, max: nat, k: Item, c: nat, isOut: bool, edgeType: byte, newest: i64)
    requires Listed(nodes, order, max) && Rank(nodes, order, k, c) && k.sequence == newest
    requires forall x :: x in ItemsOf(nodes, order) ==> x.sequence <= newest
    ensures c <= |order|
    ensures AnswerOf(ItemsOf(nodes, order), k.dst, isOut, edgeType) ==
        AnswerOf(ItemsOf(nodes, order)[c..], k.dst, isOut, edgeType)
  {
    hide AnswerOf, InOrder;
    var s := ItemsOf(nodes, order);
    forall i | 0 <= i < c ensures !Wanted(s[i], k.dst, isOut, edgeType) {
      assert s[i] in s;
    }
    AnswerSkips(s, c, k.dst, isOut, edgeType);
  }

  /** Once a bigger destination is reached nothing wanted follows. */
  lemma PastDestination(nodes: seq<Node>, order: seq<nat>, max: nat, p: nat, dst: u64, isOut: bool, edgeType: byte)
    requires Listed(nodes, order, max) && p < |order| && nodes[order[p]].item.dst > dst
    ensures AnswerOf(ItemsOf(nodes, order)[p..], dst, isOut, edgeType) == Missing
  {
    hide AnswerOf;
    var s := ItemsOf(nodes, order)[p..];
    forall i | 0 <= i < |s| ensures !Wanted(s[i], dst, isOut, edgeType) {
      assert i > 0 ==> Compare(nodes[order[p]].item, nodes[order[p+i]].item) < 0;
    }
    AnswerSkips(s, |s|, dst, isOut, edgeType);
    NothingLeft(s, |s|, dst, isOut, edgeType);
  }

  lemma NothingLeft(s: seq<Item>, p: nat, dst: u64, isOut: bool, edgeType: byte)
    requires p == |s|
    ensures AnswerOf(s[p..], dst, isOut, edgeType) == Missing
  {}

  lemma BottomLink(nodes: seq<Node>, order: seq<nat>, max: nat, height: nat, p: nat)
    requires Built(nodes, order, max, height) && p < |order|
    ensures order[p] < |nodes| && |nodes[order[p]].next| > 0 && nodes[order[p]].next[0] == Link(order, p + 1)
    ensures p + 1 < |order| ==> order[p+1] < |nodes|
  {
    assert Linked(nodes, order, 0);
    assert Reaches(nodes, order, p + 1, 0);
    assert p + 1 < |order| ==> |nodes[order[p+1]].next| >= 1;
    NextTallIs(nodes, order, p + 1, 0, p + 1);
  }

  lemma NotBelow(nodes: seq<Node>, order: seq<nat>, max: nat, k: Item, c: nat, p: nat)
    requires Listed(nodes, order, max) && Rank(nodes, order, k, c) && c <= p < |order|
    ensures nodes[order[p]].item.dst >= k.dst
  {
    assert Compare(nodes[order[p]].item, k) >= 0;
  }
}
