/**
 Sorted topology files: edge bodies grouped by source, an index of the groups, and
 the searches that locate one edge version. Offsets count edges.
 */
module Topology {
  import opened Records

  datatype Body = Body(dst: u64, sequence: i64, isOut: bool, edgeType: byte, deleted: bool)

  datatype Index = Index(key: u64, offset: nat)

  /** The index ends with a sentinel whose offset is the number of edges. */
  datatype Table = Table(index: seq<Index>, bodies: seq<Body>)

  ghost predicate KeysIncrease(index: seq<Index>) {
    forall i, j :: 0 <= i < j < |index| ==> index[i].key < index[j].key && index[i].offset <= index[j].offset
  }

  /** By destination, newest version first. */
  ghost predicate GroupSorted(bodies: seq<Body>, low: nat, high: nat)
    requires low <= high <= |bodies|
  {
    forall i, j :: low <= i < j < high ==>
      bodies[i].dst < bodies[j].dst || (bodies[i].dst == bodies[j].dst && bodies[i].sequence >= bodies[j].sequence)
  }

  ghost predicate Sorted(t: Table) {
    && KeysIncrease(t.index)
    && (forall i :: 0 <= i < |t.index| ==> t.index[i].offset <= |t.bodies|)
    && forall i :: 0 <= i < |t.index| - 1 ==> GroupSorted(t.bodies, t.index[i].offset, t.index[i + 1].offset)
  }

  /** Binary search for a source in the index. */
  method Find(index: seq<Index>, key: u64) returns (r: Option<nat>)
    requires KeysIncrease(index)
    ensures r.Some? ==> r.value < |index| && index[r.value].key == key
    ensures r.None? ==> forall i :: 0 <= i < |index| ==> index[i].key != key
  {
    var start, last := 0, |index| - 1;
    while start <= last
      invariant 0 <= start <= |index| && -1 <= last < |index|
      invariant forall i :: 0 <= i < start ==> index[i].key < key
      invariant forall i :: last < i < |index| ==> index[i].key > key
    {
      var mid := start + (last - start) / 2;
      if index[mid].key == key {
        return Some(mid);
      } else if index[mid].key < key {
        start := mid + 1;
      } else {
        last := mid - 1;
      }
    }
    r := None;
  }

  predicate Matches(b: Body, dst: u64, isOut: bool, edgeType: byte) {
    b.dst == dst && b.isOut == isOut && b.edgeType == edgeType
  }

  /** The first match in the range, by plain scan: the newest version of the edge. */
  function FirstMatch(bodies: seq<Body>, low: nat, high: nat, dst: u64, isOut: bool, edgeType: byte): (r: Option<nat>)
    requires low <= high <= |bodies|
    ensures r.Some? ==> low <= r.value < high && Matches(bodies[r.value], dst, isOut, edgeType)
    ensures r.Some? ==> forall i :: low <= i < r.value ==> !Matches(bodies[i], dst, isOut, edgeType)
    ensures r.None? ==> forall i :: low <= i < high ==> !Matches(bodies[i], dst, isOut, edgeType)
    decreases high - low
  {
    if low == high then None
    else if Matches(bodies[low], dst, isOut, edgeType) then Some(low)
    else FirstMatch(bodies, low + 1, high, dst, isOut, edgeType)
  }

  /** It has the greatest sequence of all matches in a sorted group. */
  lemma FirstMatchIsNewest(bodies: seq<Body>, low: nat, high: nat, dst: u64, isOut: bool, edgeType: byte, i: nat)
    requires low <= i < high <= |bodies| && GroupSorted(bodies, low, high)
    requires Matches(bodies[i], dst, isOut, edgeType)
    ensures var r := FirstMatch(bodies, low, high, dst, isOut, edgeType);
            r.Some? && bodies[r.value].sequence >= bodies[i].sequence
  {}

  /** Skips to the destination by bisection, then scans its versions. */
  method FindEdge(bodies: seq<Body>, low: nat, high: nat, dst: u64, isOut: bool, edgeType: byte)
      returns (r: Option<nat>)
    requires low <= high <= |bodies| && GroupSorted(bodies, low, high)
    ensures r == FirstMatch(bodies, low, high, dst, isOut, edgeType)
  {
    var left, right := low, high;
    while left < right
      invariant low <= left <= right <= high
      invariant forall i :: low <= i < left ==> bodies[i].dst < dst
      invariant forall i :: right <= i < high ==> bodies[i].dst >= dst
    {
      var mid := left + (right - left) / 2;
      if bodies[mid].dst >= dst {
        right := mid;
      } else {
        left := mid + 1;
      }
    }
    var pos := left;
    while pos < high
      invariant left <= pos <= high
      invariant forall i :: low <= i < pos ==> !Matches(bodies[i], dst, isOut, edgeType)
    {
      if bodies[pos].dst != dst {
        assert forall i :: pos <= i < high ==> bodies[i].dst > dst;
        return None;
      }
      if Matches(bodies[pos], dst, isOut, edgeType) {
        return Some(pos);
      }
      pos := pos + 1;
    }
    r := None;
  }

  // ---- Locating a topology record ----

  /** Ordinal `o` is where the record of `k` is stored: the newest live version of its edge. */
  ghost predicate LocatedAt(t: Table, k: Key, o: nat) {
    exists p: nat :: LocatedIn(t, k, p, o)
  }

  ghost predicate LocatedIn(t: Table, k: Key, p: nat, o: nat) {
    && Sorted(t) && p + 1 < |t.index| && t.index[p].key == k.src
    && FirstMatch(t.bodies, t.index[p].offset, t.index[p + 1].offset, k.dst, k.isOut, k.edgeType) == Some(o)
    && !t.bodies[o].deleted && t.bodies[o].sequence == k.base
  }

  lemma GroupsApart(index: seq<Index>, p: nat, r: nat, o: nat)
    requires KeysIncrease(index) && p + 1 < |index| && r + 1 < |index|
    requires index[p].offset <= o < index[p + 1].offset && index[r].offset <= o < index[r + 1].offset
    ensures p == r
  {
  }

  lemma LocatedOnce(t: Table, k: Key, p: nat, o: nat, l: Key, r: nat, q: nat)
    requires LocatedIn(t, k, p, o) && LocatedIn(t, l, r, q)
    ensures k == l <==> o == q
  {
    hide GroupSorted, FirstMatch;
    if o == q {
      GroupsApart(t.index, p, r, o);
    }
  }

  /** No two records share an ordinal, and no record has two. */
  lemma LocationIsInjective(t: Table, k: Key, l: Key, o: nat, q: nat)
    requires LocatedAt(t, k, o) && LocatedAt(t, l, q)
    ensures k == l <==> o == q
  {
    hide LocatedIn;
    var p: nat :| LocatedIn(t, k, p, o);
    var r: nat :| LocatedIn(t, l, r, q);
    LocatedOnce(t, k, p, o, l, r, q);
  }

  method Locate(t: Table, k: Key) returns (r: Option<nat>)
    requires Sorted(t)
    ensures r.Some? ==> r.value < |t.bodies| && LocatedAt(t, k, r.value)
    ensures r.None? ==> forall o: nat :: !LocatedAt(t, k, o)
  {
    var p := Find(t.index, k.src);
    if p.None? || p.value + 1 >= |t.index| {
      return None;
    }
    var o := FindEdge(t.bodies, t.index[p.value].offset, t.index[p.value + 1].offset, k.dst, k.isOut, k.edgeType);
    if o.None? || t.bodies[o.value].deleted || t.bodies[o.value].sequence != k.base {
      return None;
    }
    assert LocatedIn(t, k, p.value, o.value);
    r := o;
  }
}
