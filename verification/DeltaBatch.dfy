/**
 From the records handed to one delta file to the records it stores: a stable
 sort by key and commit, then one record per version, the last submitted one.
 */
module DeltaBatch {
  import opened Records

  ghost predicate NonDecreasing(s: seq<Record>) {
    forall i, j :: 0 <= i < j < |s| ==> !RecordLess(s[j], s[i])
  }

  ghost predicate Increasing(s: seq<Record>) {
    forall i, j :: 0 <= i < j < |s| ==> RecordLess(s[i], s[j])
  }

  /** Puts `x` after everything that is not greater than it. */
  function InsertStable(t: seq<Record>, x: Record): (r: seq<Record>)
    ensures multiset(r) == multiset(t) + multiset{x}
    ensures |r| == |t| + 1
  {
    if t == [] || !RecordLess(x, t[|t|-1]) then t + [x]
    else
      assert t == t[..|t|-1] + [t[|t|-1]];
      InsertStable(t[..|t|-1], x) + [t[|t|-1]]
  }

  /** `std::stable_sort` with `RecordLess`. */
  function StableSort(s: seq<Record>): (r: seq<Record>)
    ensures multiset(r) == multiset(s)
    ensures |r| == |s|
  {
    if s == [] then []
    else
      assert s == s[..|s|-1] + [s[|s|-1]];
      InsertStable(StableSort(s[..|s|-1]), s[|s|-1])
  }

  /** Keeps the later of two adjacent records of one version. */
  function AddVersion(d: seq<Record>, x: Record): seq<Record> {
    if d != [] && SameVersion(d[|d|-1], x) then d[..|d|-1] + [x] else d + [x]
  }

  function Dedupe(s: seq<Record>): seq<Record> {
    if s == [] then [] else AddVersion(Dedupe(s[..|s|-1]), s[|s|-1])
  }

  /** The records a delta file created from `s` holds, in file order. */
  function FileRecords(s: seq<Record>): seq<Record> {
    Dedupe(StableSort(s))
  }

  // ---- Order ----

  lemma RecordOrder(a: Record, b: Record, c: Record)
    ensures !RecordLess(b, a) && !RecordLess(c, b) ==> !RecordLess(c, a)
    ensures RecordLess(a, b) && !RecordLess(c, b) ==> RecordLess(a, c)
    ensures !RecordLess(b, a) && RecordLess(b, c) ==> RecordLess(a, c)
    ensures !RecordLess(a, b) && !RecordLess(b, a) <==> SameVersion(a, b)
    ensures !(RecordLess(a, b) && RecordLess(b, a))
  {
    KeyOrderIsTotal(a.key, b.key, c.key);
    KeyOrderIsTotal(c.key, b.key, a.key);
    KeyOrderIsTotal(b.key, c.key, a.key);
    KeyOrderIsTotal(c.key, a.key, b.key);
  }

  lemma {:induction false} InsertKeepsOrder(t: seq<Record>, x: Record)
    requires NonDecreasing(t)
    ensures NonDecreasing(InsertStable(t, x))
  {
    var r := InsertStable(t, x);
    if t == [] {
    } else if !RecordLess(x, t[|t|-1]) {
      forall i, j | 0 <= i < j < |r| ensures !RecordLess(r[j], r[i]) {
        if j == |t| {
          RecordOrder(r[i], t[|t|-1], x);
        }
      }
    } else {
      var u, y := t[..|t|-1], t[|t|-1];
      InsertKeepsOrder(u, x);
      var v := InsertStable(u, x);
      forall i | 0 <= i < |v| ensures !RecordLess(y, v[i]) {
        assert v[i] in multiset(v);
        if v[i] == x {
          RecordOrder(x, y, x);
        } else {
          assert v[i] in multiset(u);
        }
      }
    }
  }

  lemma {:induction false} SortIsSorted(s: seq<Record>)
    ensures NonDecreasing(StableSort(s))
  {
    if s != [] {
      SortIsSorted(s[..|s|-1]);
      InsertKeepsOrder(StableSort(s[..|s|-1]), s[|s|-1]);
    }
  }

  lemma AddVersionIncreasing(d: seq<Record>, x: Record)
    requires Increasing(d) && (d != [] ==> !RecordLess(x, d[|d|-1]))
    ensures Increasing(AddVersion(d, x))
  {
    if d != [] {
      var y := d[|d|-1];
      RecordOrder(y, x, x);
      forall i | 0 <= i < |d| - 1 ensures RecordLess(d[i], x) {
        RecordOrder(d[i], y, x);
      }
    }
  }

  lemma {:induction false} DedupeIncreasing(s: seq<Record>)
    requires NonDecreasing(s)
    ensures Increasing(Dedupe(s))
    ensures s != [] ==> Dedupe(s) != [] && Dedupe(s)[|Dedupe(s)|-1] == s[|s|-1]
    ensures forall x :: x in Dedupe(s) ==> x in s
  {
    if s != [] {
      var t, x := s[..|s|-1], s[|s|-1];
      DedupeIncreasing(t);
      var d := Dedupe(t);
      if d != [] {
        RecordOrder(d[|d|-1], x, x);
        assert !RecordLess(x, s[|s|-2]);
      }
      AddVersionIncreasing(d, x);
      forall z | z in Dedupe(s) ensures z in s {
        assert z in d || z == x;
        assert t <= s;
      }
    }
  }

  // ---- What a lookup in the file returns ----

  lemma CommuteNewer(a: Option<Record>, x: Record, y: Record, k: Key, limit: u64)
    requires RecordLess(x, y)
    ensures Newer(Newer(a, IfMatches(x, k, limit)), IfMatches(y, k, limit))
         == Newer(Newer(a, IfMatches(y, k, limit)), IfMatches(x, k, limit))
  {
    KeyOrderIsTotal(x.key, y.key, x.key);
  }

  lemma {:induction false} InsertNewest(t: seq<Record>, x: Record, k: Key, limit: u64)
    ensures Newest(InsertStable(t, x), k, limit) == Newer(Newest(t, k, limit), IfMatches(x, k, limit))
  {
    if t == [] || !RecordLess(x, t[|t|-1]) {
      assert (t + [x])[..|t|] == t;
    } else {
      var u, y := t[..|t|-1], t[|t|-1];
      InsertNewest(u, x, k, limit);
      assert (InsertStable(u, x) + [y])[..|t|] == InsertStable(u, x);
      CommuteNewer(Newest(u, k, limit), x, y, k, limit);
    }
  }

  lemma {:induction false} SortNewest(s: seq<Record>, k: Key, limit: u64)
    ensures Newest(StableSort(s), k, limit) == Newest(s, k, limit)
  {
    if s != [] {
      SortNewest(s[..|s|-1], k, limit);
      InsertNewest(StableSort(s[..|s|-1]), s[|s|-1], k, limit);
    }
  }

  lemma {:induction false} DedupeNewest(s: seq<Record>, k: Key, limit: u64)
    ensures Newest(Dedupe(s), k, limit) == Newest(s, k, limit)
  {
    if s != [] {
      var d, x := Dedupe(s[..|s|-1]), s[|s|-1];
      DedupeNewest(s[..|s|-1], k, limit);
      if d != [] && SameVersion(d[|d|-1], x) {
        KeyOrderIsTotal(d[|d|-1].key, x.key, x.key);
        assert (d[..|d|-1] + [x])[..|d|-1] == d[..|d|-1];
      } else {
        assert (d + [x])[..|d|] == d;
      }
    }
  }

  /**
   A file reads like the batch it was created from: the greatest commit not above
   the limit, the last submitted among equal commits. Its records are strictly
   increasing, hence commit-ordered per key, and all come from the batch.
   */
  lemma FileReadsLikeBatch(s: seq<Record>)
    ensures forall k, limit :: Newest(FileRecords(s), k, limit) == Newest(s, k, limit)
    ensures Increasing(FileRecords(s)) && Ordered(FileRecords(s))
    ensures forall x :: x in FileRecords(s) ==> x in s
    ensures s != [] ==> FileRecords(s) != []
  {
    forall k, limit ensures Newest(FileRecords(s), k, limit) == Newest(s, k, limit) {
      SortNewest(s, k, limit);
      DedupeNewest(StableSort(s), k, limit);
    }
    SortIsSorted(s);
    var d := FileRecords(s);
    DedupeIncreasing(StableSort(s));
    forall i, j | 0 <= i < j < |d| && d[i].key == d[j].key ensures d[i].commit <= d[j].commit {
      assert RecordLess(d[i], d[j]);
      KeyOrderIsTotal(d[i].key, d[j].key, d[i].key);
    }
    forall x | x in d ensures x in s {
      assert x in StableSort(s);
      assert x in multiset(StableSort(s));
    }
  }

  /** The last writer of each key is the same in the file as in a commit-ordered batch. */
  lemma FileLast(s: seq<Record>, k: Key)
    requires Ordered(s)
    ensures Last(FileRecords(s), k) == Last(s, k)
  {
    FileReadsLikeBatch(s);
    OrderedNewestIsLast(s, k);
    OrderedNewestIsLast(FileRecords(s), k);
  }

  lemma DedupeStep(s: seq<Record>, i: nat)
    requires i < |s|
    ensures Dedupe(s[..i+1]) == AddVersion(Dedupe(s[..i]), s[i])
  {
    assert s[..i+1][..i] == s[..i];
  }

  /** The loop over the sorted batch that drops superseded versions. */
  method Deduplicate(records: seq<Record>) returns (kept: seq<Record>)
    ensures kept == Dedupe(records)
  {
    hide Dedupe;
    kept := [];
    assert records[..0] == [] && Dedupe([]) == [] by { DedupeNone(); }
    var i := 0;
    while i < |records|
      invariant i <= |records|
      invariant kept == Dedupe(records[..i])
    {
      DedupeStep(records, i);
      if kept != [] && SameVersion(kept[|kept|-1], records[i]) {
        kept := kept[..|kept|-1] + [records[i]];
      } else {
        kept := kept + [records[i]];
      }
      i := i + 1;
    }
    assert records[..i] == records;
  }

  lemma DedupeNone()
    ensures Dedupe([]) == []
  {}
}
