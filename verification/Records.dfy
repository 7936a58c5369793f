/**
 Property-update records, their order, and the two ways RichGraph reads a
 sequence of them: by greatest commit (what a lookup does) and by position
 (what a merge into the base column does).
 */
module Records {
  datatype Option<+T> = None | Some(value: T)

  type byte = x: int | 0 <= x < 0x100
  type u32 = x: int | 0 <= x < 0x1_0000_0000
  type u64 = x: int | 0 <= x < 0x1_0000_0000_0000_0000
  type i64 = x: int | -0x8000_0000_0000_0000 <= x < 0x8000_0000_0000_0000

  type Bytes = seq<byte>

  /** The read sequence of a read that wants the newest version. */
  const LATEST: u64 := 0xFFFF_FFFF_FFFF_FFFF

  datatype Kind = Node | Edge

  /** The base column a delta belongs to. */
  datatype Target = Target(kind: Kind, shard: u32, file: u32, generation: u64, property: u32)

  /** One topology record: a property update names the edge version it belongs to. */
  datatype Key = Key(src: u64, dst: u64, isOut: bool, edgeType: byte, base: i64)

  datatype Record = Record(key: Key, commit: u64, value: Bytes)

  /** Three-way order of logical keys: -1, 0 or 1. */
  function CompareKeys(a: Key, b: Key): int {
    if a.src != b.src then (if a.src < b.src then -1 else 1)
    else if a.dst != b.dst then (if a.dst < b.dst then -1 else 1)
    else if a.isOut != b.isOut then (if a.isOut then 1 else -1)
    else if a.edgeType != b.edgeType then (if a.edgeType < b.edgeType then -1 else 1)
    else if a.base != b.base then (if a.base < b.base then -1 else 1)
    else 0
  }

  predicate RecordLess(a: Record, b: Record) {
    var c := CompareKeys(a.key, b.key);
    if c != 0 then c < 0 else a.commit < b.commit
  }

  predicate SameVersion(a: Record, b: Record) {
    CompareKeys(a.key, b.key) == 0 && a.commit == b.commit
  }

  lemma KeyOrderIsTotal(a: Key, b: Key, c: Key)
    ensures CompareKeys(a, b) == 0 <==> a == b
    ensures CompareKeys(a, b) == -CompareKeys(b, a)
    ensures CompareKeys(a, b) <= 0 && CompareKeys(b, c) <= 0 ==> CompareKeys(a, c) <= 0
    ensures CompareKeys(a, b) <= 0 && CompareKeys(b, c) < 0 ==> CompareKeys(a, c) < 0
    ensures CompareKeys(a, b) < 0 && CompareKeys(b, c) <= 0 ==> CompareKeys(a, c) < 0
  {}

  // ---- Reading by commit ----

  /** The later candidate wins unless the earlier one has a strictly greater commit. */
  function Newer(a: Option<Record>, b: Option<Record>): Option<Record> {
    if b.Some? && (a.None? || a.value.commit <= b.value.commit) then b else a
  }

  function IfMatches(x: Record, k: Key, limit: u64): Option<Record> {
    if x.key == k && x.commit <= limit then Some(x) else None
  }

  /** Greatest commit of `k` not above `limit`; among equal commits the last in `s`. */
  function Newest(s: seq<Record>, k: Key, limit: u64): Option<Record> {
    if s == [] then None
    else Newer(Newest(s[..|s|-1], k, limit), IfMatches(s[|s|-1], k, limit))
  }

  lemma {:induction false} NewestAppend(s: seq<Record>, t: seq<Record>, k: Key, limit: u64)
    ensures Newest(s + t, k, limit) == Newer(Newest(s, k, limit), Newest(t, k, limit))
    decreases |t|
  {
    if t == [] {
      assert s + t == s;
    } else {
      NewestAppend(s, t[..|t|-1], k, limit);
      assert (s + t)[..|s + t|-1] == s + t[..|t|-1];
    }
  }

  /** Index `i` holds the newest match: no match has a greater commit, no later one an equal one. */
  ghost predicate NewestAt(s: seq<Record>, k: Key, limit: u64, i: nat) {
    && i < |s| && IfMatches(s[i], k, limit).Some?
    && (forall j :: 0 <= j < |s| && IfMatches(s[j], k, limit).Some? ==>
          if j <= i then s[j].commit <= s[i].commit else s[j].commit < s[i].commit)
  }

  /** Nothing is found exactly when nothing matches. */
  lemma {:induction false} NewestMisses(s: seq<Record>, k: Key, limit: u64)
    ensures Newest(s, k, limit).None? <==> forall i :: 0 <= i < |s| ==> IfMatches(s[i], k, limit).None?
  {
    hide IfMatches;
    if s != [] {
      NewestMisses(s[..|s|-1], k, limit);
      assert forall i :: 0 <= i < |s| - 1 ==> s[..|s|-1][i] == s[i];
    }
  }

  /** Where the record that is found stands. */
  lemma {:induction false} NewestHits(s: seq<Record>, k: Key, limit: u64) returns (i: nat)
    requires Newest(s, k, limit).Some?
    ensures NewestAt(s, k, limit, i) && s[i] == Newest(s, k, limit).value
  {
    var t, n := s[..|s|-1], |s| - 1;
    assert forall j :: 0 <= j < n ==> t[j] == s[j];
    if Newest(t, k, limit).Some? {
      i := NewestHits(t, k, limit);
      if IfMatches(s[n], k, limit).Some? && t[i].commit <= s[n].commit {
        i := n;
      }
    } else {
      NewestMisses(t, k, limit);
      i := n;
    }
  }

  /** What `Newest` means, independently of how it is computed. */
  lemma NewestIsGreatest(s: seq<Record>, k: Key, limit: u64)
    ensures Newest(s, k, limit).None? <==> forall i :: 0 <= i < |s| ==> IfMatches(s[i], k, limit).None?
    ensures Newest(s, k, limit).Some? ==>
      exists i: nat :: NewestAt(s, k, limit, i) && s[i] == Newest(s, k, limit).value
  {
    hide Newest;
    NewestMisses(s, k, limit);
    if Newest(s, k, limit).Some? {
      var i := NewestHits(s, k, limit);
    }
  }

  // ---- Reading by position ----

  /** The last record of `k` in `s`, whatever its commit. */
  function Last(s: seq<Record>, k: Key): Option<Record> {
    if s == [] then None
    else if s[|s|-1].key == k then Some(s[|s|-1])
    else Last(s[..|s|-1], k)
  }

  lemma {:induction false} LastAppend(s: seq<Record>, t: seq<Record>, k: Key)
    ensures Last(s + t, k) == if Last(t, k).Some? then Last(t, k) else Last(s, k)
    decreases |t|
  {
    if t == [] {
      assert s + t == s;
    } else {
      LastAppend(s, t[..|t|-1], k);
      assert (s + t)[..|s + t|-1] == s + t[..|t|-1];
    }
  }

  /** Per key, commits never decrease along the sequence. */
  ghost predicate Ordered(s: seq<Record>) {
    forall i, j :: 0 <= i < j < |s| && s[i].key == s[j].key ==> s[i].commit <= s[j].commit
  }

  lemma OrderedParts(s: seq<Record>, t: seq<Record>)
    requires Ordered(s + t)
    ensures Ordered(s) && Ordered(t)
  {
    assert forall i :: 0 <= i < |s| ==> (s + t)[i] == s[i];
    assert forall i :: 0 <= i < |t| ==> (s + t)[|s| + i] == t[i];
  }

  /** On an ordered sequence the two ways of reading agree. */
  lemma {:induction false} OrderedNewestIsLast(s: seq<Record>, k: Key)
    requires Ordered(s)
    ensures Newest(s, k, LATEST) == Last(s, k)
  {
    if s != [] {
      assert s[..|s|-1] + s[|s|-1..] == s;
      OrderedParts(s[..|s|-1], s[|s|-1..]);
      OrderedNewestIsLast(s[..|s|-1], k);
      LastIsMember(s[..|s|-1], k);
    }
  }

  lemma {:induction false} LastIsMember(s: seq<Record>, k: Key)
    ensures Last(s, k).Some? ==> exists i :: 0 <= i < |s| && s[i] == Last(s, k).value && s[i].key == k
    ensures Last(s, k).None? <==> forall i :: 0 <= i < |s| ==> s[i].key != k
  {
    if s != [] {
      LastIsMember(s[..|s|-1], k);
      assert forall i :: 0 <= i < |s| - 1 ==> s[..|s|-1][i] == s[i];
    }
  }

  // ---- Property columns ----

  /** A base column: the stored value of each topology record of one table. */
  type Column = map<Key, Bytes>

  /** The column after writing the records in order, which is what a merge does. */
  function Overlay(base: Column, s: seq<Record>): Column {
    if s == [] then base
    else Overlay(base, s[..|s|-1])[s[|s|-1].key := s[|s|-1].value]
  }

  function Cell(c: Column, k: Key): Option<Bytes> {
    if k in c then Some(c[k]) else None
  }

  /** What a reader of `base` under the deltas `s` sees: newest delta, else the base slot. */
  function ViewRead(base: Column, s: seq<Record>, k: Key): Option<Bytes> {
    match Newest(s, k, LATEST)
    case Some(r) => Some(r.value)
    case None => Cell(base, k)
  }

  lemma {:induction false} OverlayAppend(base: Column, s: seq<Record>, t: seq<Record>)
    ensures Overlay(base, s + t) == Overlay(Overlay(base, s), t)
    decreases |t|
  {
    if t == [] {
      assert s + t == s;
    } else {
      OverlayAppend(base, s, t[..|t|-1]);
      assert (s + t)[..|s + t|-1] == s + t[..|t|-1];
    }
  }

  lemma {:induction false} OverlayCell(base: Column, s: seq<Record>, k: Key)
    ensures Cell(Overlay(base, s), k) == match Last(s, k) case Some(r) => Some(r.value) case None => Cell(base, k)
  {
    if s != [] {
      OverlayCell(base, s[..|s|-1], k);
    }
  }

  /** Writing a prefix again before the whole sequence changes nothing. */
  lemma OverlayIdempotent(base: Column, p: seq<Record>, q: seq<Record>)
    ensures Overlay(Overlay(base, p), p + q) == Overlay(base, p + q)
  {
    var twice, once := Overlay(Overlay(base, p), p + q), Overlay(base, p + q);
    forall k ensures Cell(twice, k) == Cell(once, k) {
      OverlayCell(Overlay(base, p), p + q, k);
      OverlayCell(base, p + q, k);
      OverlayCell(base, p, k);
      LastAppend(p, q, k);
    }
    SameCells(twice, once);
  }

  lemma SameCells(a: Column, b: Column)
    requires forall k :: Cell(a, k) == Cell(b, k)
    ensures a == b
  {
    forall k ensures k in a <==> k in b {
      assert Cell(a, k) == Cell(b, k);
    }
    forall k | k in a ensures a[k] == b[k] {
      assert Cell(a, k) == Cell(b, k);
    }
  }

  /** Over an ordered chain a reader sees exactly the overlaid column. */
  lemma OrderedViewIsOverlay(base: Column, s: seq<Record>, k: Key)
    requires Ordered(s)
    ensures ViewRead(base, s, k) == Cell(Overlay(base, s), k)
  {
    OrderedNewestIsLast(s, k);
    OverlayCell(base, s, k);
  }

  // ---- When merging a prefix preserves the version read ----

  /** The version read before the merge of `p`, with `q` still in the chain. */
  function VersionBefore(p: seq<Record>, q: seq<Record>, k: Key): Option<Record> {
    Newest(p + q, k, LATEST)
  }

  /** The version read after it: the base slot now holds the last record of `p`. */
  function VersionAfter(p: seq<Record>, q: seq<Record>, k: Key): Option<Record> {
    if Newest(q, k, LATEST).Some? then Newest(q, k, LATEST) else Last(p, k)
  }

  /**
   The merge writes in chain order while a lookup takes the greatest commit, so
   the version read survives exactly when the newest prefix commit does not
   exceed the newest remaining one, or, with nothing remaining, when the last
   prefix record carries the newest prefix commit.
   */
  lemma MergeKeepsVersionIff(p: seq<Record>, q: seq<Record>, k: Key)
    ensures VersionBefore(p, q, k) == VersionAfter(p, q, k) <==>
      (Newest(p, k, LATEST).Some? ==>
        if Newest(q, k, LATEST).Some? then Newest(p, k, LATEST).value.commit <= Newest(q, k, LATEST).value.commit
        else Last(p, k).Some? && Newest(p, k, LATEST).value.commit <= Last(p, k).value.commit)
  {
    NewestAppend(p, q, k, LATEST);
    LastIsMember(p, k);
    NewestIsGreatest(p, k, LATEST);
    if Newest(p, k, LATEST).Some? && Newest(q, k, LATEST).None? &&
      Newest(p, k, LATEST).value.commit <= Last(p, k).value.commit {
      LastOfGreatestCommit(p, k);
    }
  }

  lemma {:induction false} LastOfGreatestCommit(p: seq<Record>, k: Key)
    requires Newest(p, k, LATEST).Some? && Last(p, k).Some?
    requires Newest(p, k, LATEST).value.commit <= Last(p, k).value.commit
    ensures Newest(p, k, LATEST) == Last(p, k)
  {
    var t := p[..|p|-1];
    if p[|p|-1].key == k {
      NewestIsGreatest(t, k, LATEST);
    } else {
      LastOfGreatestCommit(t, k);
    }
  }
}
