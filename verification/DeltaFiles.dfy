/** Creating, opening and searching one delta file. */
module DeltaFiles {
  import opened Records
  import opened DeltaBatch
  import opened Packing
  import opened DeltaFormat

  // ---- Create ----

  lemma PrefixStep(d: seq<Record>, i: nat)
    requires i < |d| && Storable(d[..i]) && Storable(d[..i+1])
    ensures DisksOf(d[..i+1]) == DisksOf(d[..i]) + [DiskOf(d[i], |ValuesOf(d[..i])|)]
    ensures ValuesOf(d[..i+1]) == ValuesOf(d[..i]) + d[i].value
    ensures MinCommit(d[..i+1]) == if d[i].commit < MinCommit(d[..i]) then d[i].commit else MinCommit(d[..i])
    ensures MaxCommit(d[..i+1]) == if MaxCommit(d[..i]) < d[i].commit then d[i].commit else MaxCommit(d[..i])
  {
    assert d[..i+1][..i] == d[..i];
  }

  lemma {:induction false} ValuesGrow(d: seq<Record>, i: nat)
    requires i <= |d|
    ensures |ValuesOf(d[..i])| <= |ValuesOf(d)|
    decreases |d|
  {
    if i < |d| {
      ValuesGrow(d[..|d|-1], i);
      assert d[..|d|-1][..i] == d[..i];
    } else {
      assert d[..i] == d;
    }
  }

  lemma ValuesStep(d: seq<Record>, i: nat)
    requires i < |d|
    ensures |ValuesOf(d[..i+1])| == |ValuesOf(d[..i])| + |d[i].value|
  {
    assert d[..i+1][..i] == d[..i];
  }

  /**
   Builds the bytes of a delta file. `invalid` is the reserved file id. A file whose
   offsets do not fit 64 bits is refused: its values overflow, or it fails to open.
   */
  method Create(t: Target, generation: u64, records: seq<Record>, invalid: u32) returns (r: Option<Bytes>)
    ensures r.None? <==>
      || records == [] || t.file == invalid || FileSize(FileRecords(records)) > LATEST
      || exists x :: x in FileRecords(records) && |x.value| > 0xFFFF_FFFF
    ensures r.Some? ==> Storable(FileRecords(records)) && r.value == Encode(t, generation, FileRecords(records))
  {
    hide Encode, StableSort, Dedupe, DisksOf, ValuesOf, MinCommit, MaxCommit, HeaderChecksum, Extend, Table, PackHeader;
    if records == [] {
      return None;
    }
    if t.file == invalid {
      return None;
    }
    var d := Deduplicate(StableSort(records));
    if HEADER_BYTES + RECORD_BYTES * |d| > LATEST {
      return None;
    }
    var disks: seq<Disk>, values: Bytes, min: u64, max: u64 := [], [], LATEST, 0;
    var i := 0;
    assert d[..0] == [];
    NothingLaidOut();
    while i < |d|
      invariant i <= |d|
      invariant Storable(d[..i])
      invariant disks == DisksOf(d[..i]) && values == ValuesOf(d[..i])
      invariant min == MinCommit(d[..i]) && max == MaxCommit(d[..i])
    {
      if |d[i].value| > 0xFFFF_FFFF {
        assert d[i] in FileRecords(records);
        return None;
      }
      ValuesGrow(d, i + 1);
      assert d[..i+1] == d[..i] + [d[i]];
      ValuesStep(d, i);
      if HEADER_BYTES + RECORD_BYTES * |d| + |values| > LATEST - |d[i].value| {
        return None;
      }
      PrefixStep(d, i);
      disks := disks + [DiskOf(d[i], |values|)];
      values := values + d[i].value;
      min := if d[i].commit < min then d[i].commit else min;
      max := if max < d[i].commit then d[i].commit else max;
      i := i + 1;
    }
    assert d[..i] == d;
    var payload := Extend(FNV_OFFSET, Table(disks));
    payload := Extend(payload, values);
    var h := Header(MAGIC, VERSION, HEADER_BYTES, KindByte(t.kind), 0, t.shard, t.property, t.file, 0,
                    t.generation, generation, |d|, HEADER_BYTES, HEADER_BYTES + RECORD_BYTES * |d|,
                    |values|, min, max, payload, 0);
    h := h.(checksum := HeaderChecksum(h));
    r := Some(PackHeader(h) + Table(disks) + values);
    EncodeIs(t, generation, d);
  }

  lemma NothingLaidOut()
    ensures Storable([]) && DisksOf([]) == [] && ValuesOf([]) == [] && MinCommit([]) == LATEST && MaxCommit([]) == 0
  {}

  lemma EncodeIs(t: Target, generation: u64, d: seq<Record>)
    requires Storable(d)
    ensures Encode(t, generation, d) == PackHeader(HeaderOf(t, generation, d)) + Table(DisksOf(d)) + ValuesOf(d)
  {}

  // ---- Open ----

  method OpenAndValidate(b: Bytes) returns (r: Option<OpenFile>)
    ensures r.Some? <==> WellFormed(b)
    ensures r.Some? ==> r.value == FileOf(b, UnpackHeader(b))
  {
    hide UnpackHeader, HeaderChecksum, Extend, LoadDisk, RecordLess;
    if |b| < HEADER_BYTES {
      return None;
    }
    var h := UnpackHeader(b);
    if h.magic != MAGIC || h.version != VERSION || h.size != HEADER_BYTES || !(h.kind == 1 || h.kind == 2) {
      return None;
    }
    if HeaderChecksum(h) != h.checksum {
      return None;
    }
    if h.count > (LATEST - h.recordsAt) / RECORD_BYTES {
      return None;
    }
    var recordsEnd := h.recordsAt + h.count * RECORD_BYTES;
    if h.valuesSize > LATEST - h.valuesAt {
      return None;
    }
    if h.recordsAt != HEADER_BYTES || h.valuesAt != recordsEnd || recordsEnd > |b| || h.valuesAt + h.valuesSize != |b| {
      return None;
    }
    if Extend(FNV_OFFSET, b[HEADER_BYTES..]) != h.payload {
      return None;
    }
    assert HeaderOk(h, b);
    var i := 0;
    while i < h.count
      invariant i <= h.count
      invariant forall j :: 0 <= j < i ==> EntryOk(h, b, j)
    {
      if !EntryOk(h, b, i) {
        return None;
      }
      i := i + 1;
    }
    r := Some(FileOf(b, h));
  }

  // ---- Lookup ----

  /** Three-way order against the raw disk record: the direction byte is compared as stored. */
  function CompareDisk(d: Disk, k: Key): int {
    var direction := if k.isOut then 1 else 0;
    if d.src != k.src then (if d.src < k.src then -1 else 1)
    else if d.dst != k.dst then (if d.dst < k.dst then -1 else 1)
    else if d.isOut != direction then (if d.isOut < direction then -1 else 1)
    else if d.edgeType != k.edgeType then (if d.edgeType < k.edgeType then -1 else 1)
    else if d.base != k.base then (if d.base < k.base then -1 else 1)
    else 0
  }

  /** Every direction byte is 0 or 1, which is all `Create` writes but more than validation asks. */
  ghost predicate Canonical(f: OpenFile)
    requires Inside(f)
  {
    forall i: nat :: i < f.meta.count ==> LoadDisk(f.bytes, f.recordsAt, i).isOut <= 1
  }

  /** `x` sorts before the first record a search at `k` and `limit` skips to. */
  predicate Precedes(x: Record, k: Key, limit: Option<u64>) {
    CompareKeys(x.key, k) < 0 || (CompareKeys(x.key, k) == 0 && limit.Some? && x.commit <= limit.value)
  }

  /** `n` splits `s` at the search point, as far as `low` and `high` have been examined. */
  ghost predicate Split(s: seq<Record>, k: Key, limit: Option<u64>, low: nat, high: nat) {
    && low <= high <= |s|
    && (forall i :: 0 <= i < low ==> Precedes(s[i], k, limit))
    && (forall i :: high <= i < |s| ==> !Precedes(s[i], k, limit))
  }

  lemma PrecedesIsDownwardClosed(x: Record, y: Record, k: Key, limit: Option<u64>)
    requires !RecordLess(y, x) && Precedes(y, k, limit)
    ensures Precedes(x, k, limit)
  {
    KeyOrderIsTotal(x.key, y.key, k);
    KeyOrderIsTotal(y.key, k, x.key);
  }

  lemma Probe(s: seq<Record>, k: Key, limit: Option<u64>, low: nat, high: nat, m: nat)
    requires NonDecreasing(s) && Split(s, k, limit, low, high) && low <= m < high
    ensures if Precedes(s[m], k, limit) then Split(s, k, limit, m + 1, high) else Split(s, k, limit, low, m)
  {
    hide RecordLess, Precedes;
    forall i | 0 <= i < m && Precedes(s[m], k, limit) ensures Precedes(s[i], k, limit) {
      PrecedesIsDownwardClosed(s[i], s[m], k, limit);
    }
    forall i | m < i < |s| && Precedes(s[i], k, limit) ensures Precedes(s[m], k, limit) {
      PrecedesIsDownwardClosed(s[m], s[i], k, limit);
    }
  }

  lemma NewestUnique(s: seq<Record>, k: Key, limit: u64, i: nat)
    requires NewestAt(s, k, limit, i)
    ensures Newest(s, k, limit) == Some(s[i])
  {
    NewestIsGreatest(s, k, limit);
    var j: nat :| NewestAt(s, k, limit, j) && s[j] == Newest(s, k, limit).value;
    assert i == j;
  }

  /** Two splits of the sorted records decide the newest version. */
  lemma SearchDecides(s: seq<Record>, k: Key, limit: u64, first: nat, last: nat)
    requires NonDecreasing(s)
    requires Split(s, k, None, first, first) && Split(s, k, Some(limit), last, last)
    ensures first <= last
    ensures Newest(s, k, limit) == if first < last then Some(s[last-1]) else None
    ensures first < last ==> s[last-1].key == k && s[last-1].commit <= limit
  {
    assert last < |s| ==> !Precedes(s[last], k, Some(limit));
    forall i | 0 <= i < |s| ensures IfMatches(s[i], k, limit).Some? <==> first <= i < last {
      KeyOrderIsTotal(s[i].key, k, k);
      assert Precedes(s[i], k, None) <==> i < first;
      assert Precedes(s[i], k, Some(limit)) <==> i < last;
    }
    if first < last {
      forall j | first <= j < last ensures s[j].commit <= s[last-1].commit {
        assert j < last - 1 ==> !RecordLess(s[last-1], s[j]);
      }
      assert NewestAt(s, k, limit, last - 1);
      NewestUnique(s, k, limit, last - 1);
    } else {
      NewestIsGreatest(s, k, limit);
    }
  }

  /** The raw comparison decides `Precedes`, and one probe narrows the split. */
  lemma ProbeFile(f: OpenFile, k: Key, limit: Option<u64>, low: nat, high: nat, m: nat)
    requires Sound(f) && Canonical(f)
    requires Split(Contents(f), k, limit, low, high) && low <= m < high
    ensures var d := LoadDisk(f.bytes, f.recordsAt, m);
            var c := CompareDisk(d, k);
            if c < 0 || (c == 0 && limit.Some? && d.commit <= limit.value)
            then Split(Contents(f), k, limit, m + 1, high) else Split(Contents(f), k, limit, low, m)
  {
    hide LoadDisk, Split, NonDecreasing, RecordLess;
    SplitBound(Contents(f), k, limit, low, high);
    Probe(Contents(f), k, limit, low, high, m);
    assert LoadDisk(f.bytes, f.recordsAt, m).isOut <= 1;
    assert Contents(f)[m] == At(f, m);
  }

  lemma SplitBound(s: seq<Record>, k: Key, limit: Option<u64>, low: nat, high: nat)
    requires Split(s, k, limit, low, high)
    ensures low <= high <= |s|
  {}

  /** What a search of `f` answers: nothing below the header's least commit, else the newest version. */
  ghost function Answer(f: OpenFile, k: Key, limit: u64): Option<Record>
    requires Inside(f)
  {
    if f.meta.min > limit then None else Newest(Contents(f), k, limit)
  }

  lemma NothingToFind(s: seq<Record>, k: Key, limit: u64)
    requires s == []
    ensures Newest(s, k, limit) == None
  {}

  /** The first record that does not compare below the key, by bisection on the raw bytes. */
  ghost function FirstAt(f: OpenFile, k: Key, low: nat, high: nat): (r: nat)
    requires Inside(f) && low <= high <= f.meta.count
    ensures low <= r <= high
    decreases high - low
  {
    if low == high then low
    else
      var middle := low + (high - low) / 2;
      if CompareDisk(LoadDisk(f.bytes, f.recordsAt, middle), k) < 0 then FirstAt(f, k, middle + 1, high)
      else FirstAt(f, k, low, middle)
  }

  predicate Passes(d: Disk, k: Key, limit: u64) {
    CompareDisk(d, k) < 0 || (CompareDisk(d, k) == 0 && d.commit <= limit)
  }

  /** The end of the versions within the limit, by bisection. */
  ghost function EndAt(f: OpenFile, k: Key, limit: u64, low: nat, high: nat): (r: nat)
    requires Inside(f) && low <= high <= f.meta.count
    ensures low <= r <= high
    decreases high - low
  {
    if low == high then low
    else
      var middle := low + (high - low) / 2;
      if Passes(LoadDisk(f.bytes, f.recordsAt, middle), k, limit) then EndAt(f, k, limit, middle + 1, high)
      else EndAt(f, k, limit, low, middle)
  }

  /** Whatever the file holds: what the two bisections find. */
  ghost function Found(f: OpenFile, k: Key, limit: u64): (r: Option<Record>)
    requires Inside(f)
    ensures r.Some? ==>
        exists i :: 0 <= i < f.meta.count && r == Some(At(f, i)) &&
            CompareDisk(LoadDisk(f.bytes, f.recordsAt, i), k) == 0
  {
    if f.meta.min > limit then None
    else
      var first := FirstAt(f, k, 0, f.meta.count);
      if first == f.meta.count || CompareDisk(LoadDisk(f.bytes, f.recordsAt, first), k) != 0 then None
      else
        var last := EndAt(f, k, limit, first, f.meta.count);
        if last == first then None
        else
          var d := LoadDisk(f.bytes, f.recordsAt, last - 1);
          if CompareDisk(d, k) != 0 || d.commit > limit then None else Some(At(f, last - 1))
  }

  lemma FirstUnfolds(f: OpenFile, k: Key, low: nat, high: nat, middle: nat)
    requires Inside(f) && low <= high <= f.meta.count && middle == low + (high - low) / 2
    ensures low == high ==> FirstAt(f, k, low, high) == low
    ensures low < high ==>
      FirstAt(f, k, low, high) ==
        if CompareDisk(LoadDisk(f.bytes, f.recordsAt, middle), k) < 0 then FirstAt(f, k, middle + 1, high)
        else FirstAt(f, k, low, middle)
  {
    hide LoadDisk, CompareDisk;
  }

  lemma EndUnfolds(f: OpenFile, k: Key, limit: u64, low: nat, high: nat, middle: nat)
    requires Inside(f) && low <= high <= f.meta.count && middle == low + (high - low) / 2
    ensures low == high ==> EndAt(f, k, limit, low, high) == low
    ensures low < high ==>
      var d := LoadDisk(f.bytes, f.recordsAt, middle);
      EndAt(f, k, limit, low, high) ==
        if CompareDisk(d, k) < 0 ||
          (CompareDisk(d, k) == 0 && d.commit <= limit) then EndAt(f, k, limit, middle + 1, high)
        else EndAt(f, k, limit, low, middle)
  {
    hide LoadDisk, CompareDisk;
  }

  lemma NothingBelow(f: OpenFile, k: Key)
    requires Inside(f)
    ensures f.meta.count == 0 ==> FirstAt(f, k, 0, f.meta.count) == 0
  {
    hide LoadDisk, CompareDisk;
  }

  /** The two binary searches of a lookup, on any file that points inside itself. */
  method Lookup(f: OpenFile, k: Key, limit: u64) returns (r: Option<Record>)
    requires Inside(f)
    ensures r == Found(f, k, limit)
  {
    hide LoadDisk, CompareDisk, FirstAt, EndAt, Passes;
    if f.meta.count == 0 || f.meta.min > limit {
      NothingBelow(f, k);
      return None;
    }
    var low, high := 0, f.meta.count;
    while low < high
      invariant 0 <= low <= high <= f.meta.count
      invariant FirstAt(f, k, low, high) == FirstAt(f, k, 0, f.meta.count)
    {
      var middle := low + (high - low) / 2;
      FirstUnfolds(f, k, low, high, middle);
      if CompareDisk(LoadDisk(f.bytes, f.recordsAt, middle), k) < 0 {
        low := middle + 1;
      } else {
        high := middle;
      }
    }
    FirstUnfolds(f, k, low, low, low);
    var first := low;
    if first == f.meta.count {
      return None;
    }
    if CompareDisk(LoadDisk(f.bytes, f.recordsAt, first), k) != 0 {
      return None;
    }
    high := f.meta.count;
    while low < high
      invariant first <= low <= high <= f.meta.count
      invariant EndAt(f, k, limit, low, high) == EndAt(f, k, limit, first, f.meta.count)
    {
      var middle := low + (high - low) / 2;
      EndUnfolds(f, k, limit, low, high, middle);
      var record := LoadDisk(f.bytes, f.recordsAt, middle);
      var c := CompareDisk(record, k);
      if c < 0 || (c == 0 && record.commit <= limit) {
        low := middle + 1;
      } else {
        high := middle;
      }
    }
    EndUnfolds(f, k, limit, low, low, low);
    if low == first {
      return None;
    }
    var selected := LoadDisk(f.bytes, f.recordsAt, low - 1);
    if CompareDisk(selected, k) != 0 || selected.commit > limit {
      return None;
    }
    r := Some(At(f, low - 1));
  }

  lemma {:induction false} FirstSplits(f: OpenFile, k: Key, low: nat, high: nat)
    requires Sound(f) && Canonical(f) && low <= high <= f.meta.count && Split(Contents(f), k, None, low, high)
    ensures var r := FirstAt(f, k, low, high); Split(Contents(f), k, None, r, r)
    decreases high - low
  {
    hide LoadDisk, CompareDisk, Split, NonDecreasing, Canonical, Contents;
    if low < high {
      var middle := low + (high - low) / 2;
      ProbeFile(f, k, None, low, high, middle);
      if CompareDisk(LoadDisk(f.bytes, f.recordsAt, middle), k) < 0 {
        FirstSplits(f, k, middle + 1, high);
      } else {
        FirstSplits(f, k, low, middle);
      }
    }
  }

  lemma {:induction false} EndSplits(f: OpenFile, k: Key, limit: u64, low: nat, high: nat)
    requires Sound(f) && Canonical(f) && low <= high <= f.meta.count && Split(Contents(f), k, Some(limit), low, high)
    ensures var r := EndAt(f, k, limit, low, high); Split(Contents(f), k, Some(limit), r, r)
    decreases high - low
  {
    hide LoadDisk, CompareDisk, Split, NonDecreasing, Canonical, Contents;
    if low < high {
      var middle := low + (high - low) / 2;
      ProbeFile(f, k, Some(limit), low, high, middle);
      if Passes(LoadDisk(f.bytes, f.recordsAt, middle), k, limit) {
        EndSplits(f, k, limit, middle + 1, high);
      } else {
        EndSplits(f, k, limit, low, middle);
      }
    }
  }

  /** When all direction bytes are 0 or 1, the bisections find the newest version. */
  lemma FoundIsAnswer(f: OpenFile, k: Key, limit: u64)
    requires Sound(f) && Canonical(f)
    ensures Found(f, k, limit) == Answer(f, k, limit)
  {
    hide LoadDisk, CompareDisk, Newest, NonDecreasing, RecordLess, Split, Canonical, FirstAt, EndAt;
    if f.meta.min <= limit {
      var s := Contents(f);
      WholeSplit(s, k);
      FirstSplits(f, k, 0, f.meta.count);
      var first := FirstAt(f, k, 0, f.meta.count);
      if first < f.meta.count {
        CanonicalOrder(f, k, first);
      }
      if first == f.meta.count || CompareDisk(LoadDisk(f.bytes, f.recordsAt, first), k) != 0 {
        SearchMisses(s, k, limit, first);
      } else {
        SecondSplit(s, k, limit, first);
        EndSplits(f, k, limit, first, f.meta.count);
        var last := EndAt(f, k, limit, first, f.meta.count);
        SearchDecides(s, k, limit, first, last);
        if first < last {
          CanonicalOrder(f, k, last - 1);
        }
      }
    }
  }

  lemma CanonicalOrder(f: OpenFile, k: Key, i: nat)
    requires Sound(f) && Canonical(f) && i < f.meta.count
    ensures CompareDisk(LoadDisk(f.bytes, f.recordsAt, i), k) == CompareKeys(Contents(f)[i].key, k)
    ensures CompareKeys(Contents(f)[i].key, k) == 0 <==> Contents(f)[i].key == k
    ensures LoadDisk(f.bytes, f.recordsAt, i).commit == Contents(f)[i].commit
  {
    hide LoadDisk, NonDecreasing;
    assert LoadDisk(f.bytes, f.recordsAt, i).isOut <= 1;
    assert Contents(f)[i] == At(f, i);
  }

  lemma WholeSplit(s: seq<Record>, k: Key)
    ensures Split(s, k, None, 0, |s|)
  {}

  lemma SecondSplit(s: seq<Record>, k: Key, limit: u64, first: nat)
    requires Split(s, k, None, first, first)
    ensures Split(s, k, Some(limit), first, |s|)
  {}

  lemma SearchMisses(s: seq<Record>, k: Key, limit: u64, first: nat)
    requires NonDecreasing(s) && Split(s, k, None, first, first)
    requires first == |s| || s[first].key != k
    ensures Newest(s, k, limit) == None
  {
    hide RecordLess;
    forall i | 0 <= i < |s| ensures IfMatches(s[i], k, limit).None? {
      if first < i {
        KeyOrderIsTotal(s[first].key, k, k);
        KeysSorted(s, first, i);
      }
      KeyOrderIsTotal(s[i].key, k, k);
      assert i < first ==> Precedes(s[i], k, None);
      assert first < |s| ==> !Precedes(s[first], k, None);
    }
    NewestIsGreatest(s, k, limit);
  }

  lemma KeysSorted(s: seq<Record>, i: nat, j: nat)
    requires NonDecreasing(s) && i < j < |s|
    ensures CompareKeys(s[i].key, s[j].key) <= 0
  {
    assert !RecordLess(s[j], s[i]);
    KeyOrderIsTotal(s[i].key, s[j].key, s[i].key);
  }

  // ---- What lookups rely on and validation does not check ----

  /** The header's least commit is below every record. */
  ghost predicate LowBound(f: OpenFile)
    requires Inside(f)
  {
    forall i :: 0 <= i < f.meta.count ==> f.meta.min <= At(f, i).commit
  }

  /** Both commit bounds of the header hold of every record, which is what pruning relies on. */
  ghost predicate Bounded(f: OpenFile)
    requires Inside(f)
  {
    LowBound(f) && forall i :: 0 <= i < f.meta.count ==> At(f, i).commit <= f.meta.max
  }

  /** Skipping a file by its least commit is right for every key and limit exactly when that bound is true. */
  lemma PruningIff(f: OpenFile)
    requires Inside(f)
    ensures (forall k, limit :: Answer(f, k, limit) == Newest(Contents(f), k, limit)) <==> LowBound(f)
  {
    hide At, Newest;
    var s := Contents(f);
    if LowBound(f) {
      forall k, limit ensures Answer(f, k, limit) == Newest(s, k, limit) {
        PruningIsSound(f, k, limit);
      }
    }
    if !LowBound(f) {
      var i :| 0 <= i < f.meta.count && At(f, i).commit < f.meta.min;
      var x := s[i];
      NewestIsGreatest(s, x.key, x.commit);
      assert IfMatches(s[i], x.key, x.commit).Some?;
      assert Answer(f, x.key, x.commit) == None;
    }
  }

  lemma PruningIsSound(f: OpenFile, k: Key, limit: u64)
    requires Inside(f) && LowBound(f)
    ensures Answer(f, k, limit) == Newest(Contents(f), k, limit)
  {
    hide At, Newest;
    var s := Contents(f);
    if f.meta.min > limit {
      forall i | 0 <= i < |s| ensures IfMatches(s[i], k, limit).None? {
        assert s[i] == At(f, i);
      }
      NewestIsGreatest(s, k, limit);
    }
  }

  /** No version occurs twice, as in every file `Create` writes. */
  ghost predicate Distinct(f: OpenFile)
    requires Inside(f)
  {
    forall i, j :: 0 <= i < j < f.meta.count ==> At(f, i).key != At(f, j).key || At(f, i).commit != At(f, j).commit
  }

  /**
   An accepted file without repeated versions is searched correctly, for every key
   and limit, exactly when its direction bytes are 0 or 1 and its least commit is true.
   */
  lemma LookupIff(f: OpenFile)
    requires Sound(f) && Distinct(f)
    ensures (forall k, limit :: Found(f, k, limit) == Newest(Contents(f), k, limit)) <==> Canonical(f) && LowBound(f)
  {
    hide At, Newest, Found, LoadDisk, NonDecreasing, Distinct;
    var s := Contents(f);
    if Canonical(f) && LowBound(f) {
      hide Canonical, LowBound;
      forall k, limit ensures Found(f, k, limit) == Newest(s, k, limit) {
        FoundIsAnswer(f, k, limit);
        PruningIsSound(f, k, limit);
      }
    } else if !Canonical(f) {
      var i: nat :| i < f.meta.count && LoadDisk(f.bytes, f.recordsAt, i).isOut > 1;
      StrangeByteMisses(f, i);
      assert Found(f, s[i].key, s[i].commit) != Newest(s, s[i].key, s[i].commit);
    } else {
      var i :| 0 <= i < f.meta.count && At(f, i).commit < f.meta.min;
      LowLimitMisses(f, i);
      assert Found(f, s[i].key, s[i].commit) != Newest(s, s[i].key, s[i].commit);
    }
  }

  lemma OnlyVersion(f: OpenFile, i: nat)
    requires Inside(f) && Distinct(f) && i < f.meta.count
    ensures Newest(Contents(f), Contents(f)[i].key, Contents(f)[i].commit) == Some(Contents(f)[i])
  {
    hide At, Newest;
    var s := Contents(f);
    var x := s[i];
    forall j | 0 <= j < |s| && IfMatches(s[j], x.key, x.commit).Some? && j != i ensures s[j].commit < x.commit {
      assert s[j] == At(f, j) && s[i] == At(f, i);
      assert j < i || i < j;
    }
    assert NewestAt(s, x.key, x.commit, i);
    NewestUnique(s, x.key, x.commit, i);
  }

  /** A record whose direction byte is neither 0 nor 1 is never found. */
  lemma StrangeByteMisses(f: OpenFile, i: nat)
    requires Inside(f) && Distinct(f) && i < f.meta.count && LoadDisk(f.bytes, f.recordsAt, i).isOut > 1
    ensures var x := Contents(f)[i]; Found(f, x.key, x.commit) != Newest(Contents(f), x.key, x.commit)
  {
    hide Newest, LoadDisk, FirstAt, EndAt;
    OnlyVersion(f, i);
    var x := Contents(f)[i];
    assert x == At(f, i) && x.key.isOut;
    var r := Found(f, x.key, x.commit);
    if r.Some? {
      var j :| 0 <= j < f.meta.count && r == Some(At(f, j)) &&
        CompareDisk(LoadDisk(f.bytes, f.recordsAt, j), x.key) == 0;
      assert i < j || j < i;
      assert At(f, j) != x;
    }
  }

  /** A record below the header's least commit is not found at its own commit. */
  lemma LowLimitMisses(f: OpenFile, i: nat)
    requires Inside(f) && Distinct(f) && i < f.meta.count && At(f, i).commit < f.meta.min
    ensures var x := Contents(f)[i]; Found(f, x.key, x.commit) != Newest(Contents(f), x.key, x.commit)
  {
    hide At, Newest, LoadDisk, FirstAt, EndAt;
    OnlyVersion(f, i);
  }

  // ---- Accepted files that a lookup gets wrong ----

  /** The bytes of a file with one record, an empty value and any least commit in its header. */
  function OneRecordFile(d: Disk, min: u64): (b: Bytes)
    ensures |b| == HEADER_BYTES + RECORD_BYTES
  {
    PackHeader(OneRecordHeader(d, min)) + Table([d])
  }

  function OneRecordHeader(d: Disk, min: u64): Header {
    var h := Header(MAGIC, VERSION, HEADER_BYTES, 2, 0, 0, 0, 0, 0, 0, 0,
                    1, HEADER_BYTES, HEADER_BYTES + RECORD_BYTES, 0,
                    min, d.commit, Extend(FNV_OFFSET, Table([d])), 0);
    h.(checksum := HeaderChecksum(h))
  }

  lemma OneRecordHeaderOk(d: Disk, min: u64)
    ensures var b := OneRecordFile(d, min); |b| == HEADER_BYTES + RECORD_BYTES && HeaderOk(OneRecordHeader(d, min), b)
  {
    hide PackHeader, Table, Extend;
    var h, b := OneRecordHeader(d, min), OneRecordFile(d, min);
    assert h.(checksum := 0).(checksum := 0) == h.(checksum := 0);
    assert b[HEADER_BYTES..] == Table([d]);
  }

  /** Validation accepts it, whatever the header's least commit and the direction byte say. */
  lemma OneRecordOpens(d: Disk, min: u64)
    requires d.at == 0 && d.size == 0
    ensures WellFormed(OneRecordFile(d, min))
    ensures var f := FileOf(OneRecordFile(d, min), UnpackHeader(OneRecordFile(d, min)));
            && Sound(f) && Distinct(f) && f.meta.count == 1 && f.meta.min == min
            && LoadDisk(f.bytes, f.recordsAt, 0) == d && Contents(f)[0] == Record(KeyOf(d), d.commit, [])
  {
    hide PackHeader, UnpackHeader, Table, Extend, LoadDisk, HeaderChecksum, HeaderOk, Found, NonDecreasing;
    var h, b := OneRecordHeader(d, min), OneRecordFile(d, min);
    HeaderRoundTrip(h, Table([d]));
    OneRecordHeaderOk(d, min);
    TableRoundTrip([d], PackHeader(h), [], 0);
    assert PackHeader(h) + Table([d]) + [] == b;
    assert EntryOk(h, b, 0);
    assert WellFormed(b);
    AcceptedIsSound(b);
  }

  const STRANGE_BYTE := Disk(0, 0, 0, 1, 0, 0, 0, 2)
  const PLAIN := Disk(0, 0, 0, 1, 0, 0, 0, 1)

  /** An accepted file whose direction byte is 2: its record is read back but no lookup finds it. */
  lemma StrangeByteIsMissed()
    ensures var b := OneRecordFile(STRANGE_BYTE, 1);
            && WellFormed(b)
            && var f := FileOf(b, UnpackHeader(b));
            var x := Record(Key(0, 0, true, 0, 0), 1, []);
            && Inside(f) && Contents(f) == [x] && LowBound(f)
            && Newest(Contents(f), x.key, 1) == Some(x) && Found(f, x.key, 1) == None
  {
    hide PackHeader, UnpackHeader, Table, LoadDisk, WellFormed, NonDecreasing, Newest, OneRecordFile, FirstAt, EndAt;
    OneRecordOpens(STRANGE_BYTE, 1);
    var f := FileOf(OneRecordFile(STRANGE_BYTE, 1), UnpackHeader(OneRecordFile(STRANGE_BYTE, 1)));
    OnlyVersion(f, 0);
    assert Contents(f)[0] == At(f, 0);
  }

  /** An accepted file whose header claims a greater least commit: a lookup at the record's commit skips it. */
  lemma WrongBoundIsMissed()
    ensures var b := OneRecordFile(PLAIN, 2);
            && WellFormed(b)
            && var f := FileOf(b, UnpackHeader(b));
            var x := Record(Key(0, 0, true, 0, 0), 1, []);
            && Inside(f) && Contents(f) == [x] && Canonical(f)
            && Newest(Contents(f), x.key, 1) == Some(x) && Found(f, x.key, 1) == None
  {
    hide PackHeader, UnpackHeader, Table, LoadDisk, WellFormed, NonDecreasing, Newest, OneRecordFile, FirstAt, EndAt;
    OneRecordOpens(PLAIN, 2);
    var f := FileOf(OneRecordFile(PLAIN, 2), UnpackHeader(OneRecordFile(PLAIN, 2)));
    OnlyVersion(f, 0);
    assert Contents(f)[0] == At(f, 0);
  }

  // ---- End to end ----

  /**
   Any storable batch makes a file that opens, and a lookup in it returns the value
   of the greatest commit not above the limit, the last submitted among equals.
   */
  lemma CreatedFileReadsLikeBatch(t: Target, generation: u64, records: seq<Record>, k: Key, limit: u64)
    requires Storable(FileRecords(records))
    ensures var b := Encode(t, generation, FileRecords(records));
            && WellFormed(b)
            && var f := FileOf(b, UnpackHeader(b));
            && Sound(f) && Canonical(f) && Bounded(f) && Contents(f) == FileRecords(records)
            && f.meta.target == t && f.meta.generation == generation
            && Found(f, k, limit) == Newest(records, k, limit)
  {
    hide Encode, WellFormed, Newest, RecordLess, LoadDisk, DisksOf, ValuesOf, Table, HeaderChecksum, Extend;
    hide UnpackHeader, Answer, Dedupe, StableSort;
    var d := FileRecords(records);
    FileReadsLikeBatch(records);
    IncreasingIsSorted(d);
    EncodedOpens(t, generation, d);
    EncodedHeader(t, generation, d);
    var f := FileOf(Encode(t, generation, d), HeaderOf(t, generation, d));
    CreatedBounds(f, d);
    PruningIsSound(f, k, limit);
    forall i: nat | i < f.meta.count ensures LoadDisk(f.bytes, f.recordsAt, i).isOut <= 1 {
      EncodedEntry(t, generation, d, i);
      DisksPoint(d, i);
    }
    FoundIsAnswer(f, k, limit);
  }

  lemma CreatedBounds(f: OpenFile, d: seq<Record>)
    requires Inside(f) && Contents(f) == d && f.meta.min == MinCommit(d) && f.meta.max == MaxCommit(d)
    ensures Bounded(f)
  {
    hide At, MinCommit, MaxCommit;
    CommitBounds(d);
    forall i | 0 <= i < f.meta.count ensures f.meta.min <= At(f, i).commit <= f.meta.max {
      assert Contents(f)[i] == At(f, i) && d[i] in d;
    }
  }

  lemma IncreasingIsSorted(d: seq<Record>)
    requires Increasing(d)
    ensures NonDecreasing(d)
  {
    forall i, j | 0 <= i < j < |d| ensures !RecordLess(d[j], d[i]) {
      assert RecordLess(d[i], d[j]);
      RecordOrder(d[i], d[j], d[j]);
    }
  }
}
