/**
 The on-disk form of a delta file: a packed header, a table of sorted records,
 and the value bytes. Written by `Create`, accepted by `OpenAndValidate`, read
 by two binary searches.
 */
module DeltaFormat {
  import opened Records
  import opened DeltaBatch
  import opened Packing

  const MAGIC: u64 := 0x3241_544C_4544_4752  // "RGDELTA2"
  const VERSION: u32 := 2
  const HEADER_BYTES: nat := 120
  const RECORD_BYTES: nat := 48

  /** magic, version, size, kind, pad, shard, property, file, pad, base and file generation,
      count, records at, values at, values size, min and max commit, payload and header checksum */
  const HEADER: seq<nat> := [8, 4, 4, 1, 7] + [4, 4, 4, 4] + [8, 8, 8, 8, 8] + [8, 8, 8, 8, 8]

  /** src, dst, base sequence, commit, value at, value size, edge type, direction, pad */
  const RECORD: seq<nat> := [8, 8, 8, 8, 8] + [4, 1, 1, 2]

  lemma Widths()
    ensures Width(HEADER) == HEADER_BYTES && Width(RECORD) == RECORD_BYTES
    ensures |HEADER| == 19 && |RECORD| == 9
  {
    WidthAppend([8, 4, 4, 1, 7] + [4, 4, 4, 4] + [8, 8, 8, 8, 8], [8, 8, 8, 8, 8]);
    WidthAppend([8, 4, 4, 1, 7] + [4, 4, 4, 4], [8, 8, 8, 8, 8]);
    WidthAppend([8, 4, 4, 1, 7], [4, 4, 4, 4]);
    WidthAppend([8, 8, 8, 8, 8], [4, 1, 1, 2]);
  }

  // ---- Records on disk ----

  datatype Disk = Disk(src: u64, dst: u64, base: i64, commit: u64, at: u64, size: u32, edgeType: byte, isOut: byte)

  function DiskFields(d: Disk): seq<nat> {
    [d.src, d.dst, ToUnsigned(d.base), d.commit, d.at, d.size, d.edgeType, d.isOut, 0]
  }

  function PackDisk(d: Disk): (b: Bytes)
    ensures |b| == RECORD_BYTES
  {
    Widths();
    Pack(DiskFields(d), RECORD)
  }

  lemma RecordFields(b: Bytes)
    requires |b| >= Width(RECORD)
    ensures var v := Unpack(b, RECORD);
            && |v| == 9
            && v[0] <= LATEST && v[1] <= LATEST && v[2] <= LATEST && v[3] <= LATEST && v[4] <= LATEST
            && v[5] < 0x1_0000_0000 && v[6] < 0x100 && v[7] < 0x100
  {
    hide Pow256, Pack, Unpack, Width;
    PackOfUnpack(b, RECORD);
    Powers();
  }

  function UnpackDisk(b: Bytes): Disk
    requires |b| >= RECORD_BYTES
  {
    Widths();
    RecordFields(b);
    var v := Unpack(b, RECORD);
    Disk(v[0], v[1], ToSigned(v[2]), v[3], v[4], v[5], v[6], v[7])
  }

  lemma DiskFits(d: Disk)
    ensures Fits(DiskFields(d), RECORD)
  {
    hide Pow256;
    Powers();
  }

  lemma DiskRoundTrip(d: Disk, rest: Bytes)
    ensures UnpackDisk(PackDisk(d) + rest) == d
  {
    hide Pow256, Pack, Unpack, Width;
    Widths();
    DiskFits(d);
    UnpackOfPack(DiskFields(d), RECORD, rest);
  }

  /** The key and commit a disk record carries, with the direction byte read as a flag. */
  function KeyOf(d: Disk): Key {
    Key(d.src, d.dst, d.isOut != 0, d.edgeType, d.base)
  }

  function RecordIn(d: Disk, values: Bytes): Record
    requires d.at + d.size <= |values|
  {
    Record(KeyOf(d), d.commit, values[d.at..d.at + d.size])
  }

  function Table(ds: seq<Disk>): (b: Bytes)
    ensures |b| == RECORD_BYTES * |ds|
  {
    if ds == [] then [] else PackDisk(ds[0]) + Table(ds[1..])
  }

  /** Record `i` of the table that starts at byte `at`. */
  function LoadDisk(b: Bytes, at: nat, i: nat): Disk
    requires at + RECORD_BYTES * (i + 1) <= |b|
  {
    UnpackDisk(b[at + RECORD_BYTES * i..])
  }

  lemma {:induction false} TableRoundTrip(ds: seq<Disk>, before: Bytes, after: Bytes, i: nat)
    requires i < |ds|
    ensures LoadDisk(before + Table(ds) + after, |before|, i) == ds[i]
    decreases i
  {
    hide PackDisk, UnpackDisk;
    var b := before + Table(ds) + after;
    if i == 0 {
      DiskRoundTrip(ds[0], Table(ds[1..]) + after);
      assert b[|before|..] == PackDisk(ds[0]) + (Table(ds[1..]) + after);
    } else {
      var before' := before + PackDisk(ds[0]);
      TableRoundTrip(ds[1..], before', after, i - 1);
      assert b == before' + Table(ds[1..]) + after;
      assert |before'| + RECORD_BYTES * (i - 1) == |before| + RECORD_BYTES * i;
    }
  }

  // ---- Layout of a record sequence ----

  function ValuesOf(d: seq<Record>): Bytes {
    if d == [] then [] else ValuesOf(d[..|d|-1]) + d[|d|-1].value
  }

  function FileSize(d: seq<Record>): nat {
    HEADER_BYTES + RECORD_BYTES * |d| + |ValuesOf(d)|
  }

  /** Every value has a 32-bit length and the file a 64-bit one. */
  predicate Storable(d: seq<Record>) {
    FileSize(d) <= LATEST && forall x :: x in d ==> |x.value| < 0x1_0000_0000
  }

  lemma StorablePrefix(d: seq<Record>)
    requires Storable(d) && d != []
    ensures Storable(d[..|d|-1])
  {}

  function DiskOf(x: Record, at: u64): Disk
    requires |x.value| < 0x1_0000_0000
  {
    Disk(x.key.src, x.key.dst, x.key.base, x.commit, at, |x.value|, x.key.edgeType, if x.key.isOut then 1 else 0)
  }

  function DisksOf(d: seq<Record>): (ds: seq<Disk>)
    requires Storable(d)
    ensures |ds| == |d|
  {
    if d == [] then []
    else
      StorablePrefix(d);
      DisksOf(d[..|d|-1]) + [DiskOf(d[|d|-1], |ValuesOf(d[..|d|-1])|)]
  }

  /** Each disk record points at its own value and carries its own key and commit. */
  lemma {:induction false} DisksPoint(d: seq<Record>, i: nat)
    requires Storable(d) && i < |d|
    ensures var x := DisksOf(d)[i];
            && x.at + x.size <= |ValuesOf(d)| && RecordIn(x, ValuesOf(d)) == d[i]
            && x.isOut <= 1
  {
    StorablePrefix(d);
    var t := d[..|d|-1];
    assert ValuesOf(d) == ValuesOf(t) + d[|d|-1].value;
    if i < |d| - 1 {
      DisksPoint(t, i);
      assert DisksOf(d)[i] == DisksOf(t)[i];
      var x := DisksOf(t)[i];
      assert ValuesOf(d)[x.at..x.at + x.size] == ValuesOf(t)[x.at..x.at + x.size];
    }
  }

  function MinCommit(d: seq<Record>): u64 {
    if d == [] then LATEST
    else var m := MinCommit(d[..|d|-1]); if d[|d|-1].commit < m then d[|d|-1].commit else m
  }

  function MaxCommit(d: seq<Record>): u64 {
    if d == [] then 0
    else var m := MaxCommit(d[..|d|-1]); if m < d[|d|-1].commit then d[|d|-1].commit else m
  }

  lemma {:induction false} CommitBounds(d: seq<Record>)
    ensures forall x :: x in d ==> MinCommit(d) <= x.commit <= MaxCommit(d)
    ensures d != [] ==> exists x, y :: x in d && y in d && x.commit == MinCommit(d) && y.commit == MaxCommit(d)
  {
    if d != [] {
      var t, z := d[..|d|-1], d[|d|-1];
      CommitBounds(t);
      assert d == t + [z];
      if t != [] {
        var x, y :| x in t && y in t && x.commit == MinCommit(t) && y.commit == MaxCommit(t);
        assert x in d && y in d && z in d;
      } else {
        assert z in d;
      }
    }
  }

  // ---- Header ----

  type u56 = x: int | 0 <= x < 0x100_0000_0000_0000

  datatype Header = Header(
    magic: u64, version: u32, size: u32, kind: byte, pad0: u56,
    shard: u32, property: u32, file: u32, pad1: u32,
    base: u64, generation: u64, count: u64, recordsAt: u64, valuesAt: u64,
    valuesSize: u64, min: u64, max: u64, payload: u64, checksum: u64)

  function HeaderFields(h: Header): seq<nat> {
    [h.magic, h.version, h.size, h.kind, h.pad0] + [h.shard, h.property, h.file, h.pad1]
    + [h.base, h.generation, h.count, h.recordsAt, h.valuesAt]
    + [h.valuesSize, h.min, h.max, h.payload, h.checksum]
  }

  function PackHeader(h: Header): (b: Bytes)
    ensures |b| == HEADER_BYTES
  {
    Widths();
    Pack(HeaderFields(h), HEADER)
  }

  lemma HeaderBounds(b: Bytes)
    requires |b| >= Width(HEADER)
    ensures var v := Unpack(b, HEADER);
            && |v| == 19
            && v[0] <= LATEST && v[1] < 0x1_0000_0000 && v[2] < 0x1_0000_0000 && v[3] < 0x100 &&
              v[4] < 0x100_0000_0000_0000
            && (forall i :: 5 <= i < 9 ==> v[i] < 0x1_0000_0000)
            && (forall i :: 9 <= i < 19 ==> v[i] <= LATEST)
  {
    hide Pow256, Pack, Unpack, Width;
    PackOfUnpack(b, HEADER);
    Powers();
  }

  function UnpackHeader(b: Bytes): Header
    requires |b| >= HEADER_BYTES
  {
    Widths();
    HeaderBounds(b);
    var v := Unpack(b, HEADER);
    Header(v[0], v[1], v[2], v[3], v[4], v[5], v[6], v[7], v[8], v[9], v[10], v[11], v[12], v[13],
           v[14], v[15], v[16], v[17], v[18])
  }

  lemma HeaderFits(h: Header)
    ensures Fits(HeaderFields(h), HEADER)
  {
    hide Pow256;
    Powers();
  }

  lemma HeaderRoundTrip(h: Header, rest: Bytes)
    ensures UnpackHeader(PackHeader(h) + rest) == h
  {
    hide Pow256, Pack, Unpack, Width;
    Widths();
    HeaderFits(h);
    UnpackOfPack(HeaderFields(h), HEADER, rest);
  }

  function HeaderChecksum(h: Header): u64 {
    Extend(FNV_OFFSET, PackHeader(h.(checksum := 0)))
  }

  function KindByte(k: Kind): byte {
    match k case Node => 1 case Edge => 2
  }

  // ---- The whole file ----

  function HeaderOf(t: Target, generation: u64, d: seq<Record>): Header
    requires Storable(d)
  {
    var h := Header(MAGIC, VERSION, HEADER_BYTES, KindByte(t.kind), 0, t.shard, t.property, t.file, 0,
                    t.generation, generation, |d|, HEADER_BYTES, HEADER_BYTES + RECORD_BYTES * |d|,
                    |ValuesOf(d)|, MinCommit(d), MaxCommit(d),
                    Extend(Extend(FNV_OFFSET, Table(DisksOf(d))), ValuesOf(d)), 0);
    h.(checksum := HeaderChecksum(h))
  }

  function Encode(t: Target, generation: u64, d: seq<Record>): (b: Bytes)
    requires Storable(d)
    ensures |b| == FileSize(d)
  {
    PackHeader(HeaderOf(t, generation, d)) + Table(DisksOf(d)) + ValuesOf(d)
  }

  predicate HeaderOk(h: Header, b: Bytes)
    requires |b| >= HEADER_BYTES
  {
    && h.magic == MAGIC && h.version == VERSION && h.size == HEADER_BYTES && (h.kind == 1 || h.kind == 2)
    && HeaderChecksum(h) == h.checksum
    && h.count <= (LATEST - h.recordsAt) / RECORD_BYTES
    && h.valuesSize <= LATEST - h.valuesAt
    && h.recordsAt == HEADER_BYTES && h.valuesAt == h.recordsAt + h.count * RECORD_BYTES
    && h.valuesAt <= |b| && h.valuesAt + h.valuesSize == |b|
    && Extend(FNV_OFFSET, b[HEADER_BYTES..]) == h.payload
  }

  /** Record `i` points inside the value area and does not sort before its predecessor. */
  predicate EntryOk(h: Header, b: Bytes, i: nat)
    requires h.recordsAt + RECORD_BYTES * (i + 1) <= |b|
  {
    var d := LoadDisk(b, h.recordsAt, i);
    && d.at <= h.valuesSize && d.size <= h.valuesSize - d.at
    && (i > 0 ==> var p := LoadDisk(b, h.recordsAt, i - 1);
                  !RecordLess(Record(KeyOf(d), d.commit, []), Record(KeyOf(p), p.commit, [])))
  }

  ghost predicate WellFormed(b: Bytes) {
    && |b| >= HEADER_BYTES
    && var h := UnpackHeader(b);
    && HeaderOk(h, b)
    && forall i :: 0 <= i < h.count ==> EntryOk(h, b, i)
  }

  // ---- An opened file ----

  datatype Meta = Meta(target: Target, generation: u64, count: u64, bytes: u64, min: u64, max: u64, payload: u64)

  datatype OpenFile = OpenFile(bytes: Bytes, meta: Meta, recordsAt: u64, valuesAt: u64)

  function FileOf(b: Bytes, h: Header): OpenFile
    requires |b| <= LATEST
  {
    OpenFile(b,
      Meta(Target(if h.kind == 1 then Node else Edge, h.shard, h.file, h.base, h.property),
           h.generation, h.count, |b|, h.min, h.max, h.payload),
      h.recordsAt, h.valuesAt)
  }

  predicate PointsInside(f: OpenFile, i: nat)
    requires f.valuesAt <= |f.bytes| && f.recordsAt + RECORD_BYTES * (i + 1) <= |f.bytes|
  {
    var d := LoadDisk(f.bytes, f.recordsAt, i);
    f.valuesAt + d.at + d.size <= |f.bytes|
  }

  ghost predicate Inside(f: OpenFile) {
    && f.recordsAt + RECORD_BYTES * f.meta.count <= f.valuesAt <= |f.bytes|
    && forall i :: 0 <= i < f.meta.count ==> PointsInside(f, i)
  }

  function At(f: OpenFile, i: nat): Record
    requires Inside(f) && i < f.meta.count
  {
    assert PointsInside(f, i);
    RecordIn(LoadDisk(f.bytes, f.recordsAt, i), f.bytes[f.valuesAt..])
  }

  /** The records of an opened file, in file order. */
  ghost function Contents(f: OpenFile): (s: seq<Record>)
    requires Inside(f)
    ensures |s| == f.meta.count
  {
    seq(f.meta.count, i requires 0 <= i < f.meta.count => At(f, i))
  }

  ghost predicate Sound(f: OpenFile) {
    Inside(f) && NonDecreasing(Contents(f))
  }

  /** Acceptance makes every value readable and the records sorted. */
  lemma AcceptedIsSound(b: Bytes)
    requires WellFormed(b)
    ensures Sound(FileOf(b, UnpackHeader(b)))
  {
    hide UnpackHeader, LoadDisk, HeaderChecksum, Extend;
    var h := UnpackHeader(b);
    var f := FileOf(b, h);
    forall i | 0 <= i < h.count ensures PointsInside(f, i) {
      assert EntryOk(h, b, i);
    }
    assert Inside(f);
    hide RecordLess;
    forall i | 0 < i < h.count ensures !RecordLess(At(f, i), At(f, i - 1)) {
      assert EntryOk(h, b, i);
      SameOrder(At(f, i), At(f, i - 1));
    }
    Chain(Contents(f));
  }

  lemma SameOrder(a: Record, b: Record)
    ensures RecordLess(a, b) == RecordLess(Record(a.key, a.commit, []), Record(b.key, b.commit, []))
  {}

  lemma {:induction false} Chain(s: seq<Record>)
    requires forall i :: 0 < i < |s| ==> !RecordLess(s[i], s[i-1])
    ensures NonDecreasing(s)
  {
    hide RecordLess;
    if s != [] {
      var t := s[..|s|-1];
      Chain(t);
      var n := |s| - 1;
      forall i | 0 <= i < n ensures !RecordLess(s[n], s[i]) {
        if i == n - 1 {
          assert !RecordLess(s[n], s[n-1]);
        } else {
          assert !RecordLess(t[n-1], t[i]);
          RecordOrder(s[i], s[n-1], s[n]);
        }
      }
      forall i, j | 0 <= i < j < |s| ensures !RecordLess(s[j], s[i]) {
        if j < n {
          assert !RecordLess(t[j], t[i]);
        }
      }
    }
  }

  // ---- A created file opens, and holds what was laid out ----

  lemma EncodedHeader(t: Target, generation: u64, d: seq<Record>)
    requires Storable(d)
    ensures UnpackHeader(Encode(t, generation, d)) == HeaderOf(t, generation, d)
  {
    hide UnpackHeader, PackHeader, HeaderOf, Table, ValuesOf;
    var h := HeaderOf(t, generation, d);
    HeaderRoundTrip(h, Table(DisksOf(d)) + ValuesOf(d));
    assert Encode(t, generation, d) == PackHeader(h) + (Table(DisksOf(d)) + ValuesOf(d));
  }

  lemma EncodedHeaderOk(t: Target, generation: u64, d: seq<Record>)
    requires Storable(d)
    ensures HeaderOk(HeaderOf(t, generation, d), Encode(t, generation, d))
  {
    hide UnpackHeader, PackHeader, Table, ValuesOf, DisksOf, Extend, Mix, MinCommit, MaxCommit;
    var h, b := HeaderOf(t, generation, d), Encode(t, generation, d);
    assert h.(checksum := 0).(checksum := 0) == h.(checksum := 0);
    ExtendAppend(FNV_OFFSET, Table(DisksOf(d)), ValuesOf(d));
    assert b[HEADER_BYTES..] == Table(DisksOf(d)) + ValuesOf(d);
  }

  lemma EncodedEntry(t: Target, generation: u64, d: seq<Record>, i: nat)
    requires Storable(d) && i < |d|
    ensures LoadDisk(Encode(t, generation, d), HEADER_BYTES, i) == DisksOf(d)[i]
  {
    hide PackHeader, Table, ValuesOf, DisksOf, HeaderOf, LoadDisk;
    TableRoundTrip(DisksOf(d), PackHeader(HeaderOf(t, generation, d)), ValuesOf(d), i);
  }

  lemma EncodedEntryOk(t: Target, generation: u64, d: seq<Record>, i: nat)
    requires Storable(d) && NonDecreasing(d) && i < |d|
    ensures EntryOk(HeaderOf(t, generation, d), Encode(t, generation, d), i)
  {
    hide PackHeader, Table, ValuesOf, DisksOf, LoadDisk, RecordLess, HeaderChecksum, Extend, MinCommit, MaxCommit;
    hide Encode;
    EncodedEntry(t, generation, d, i);
    DisksPoint(d, i);
    if i > 0 {
      EncodedEntry(t, generation, d, i - 1);
      DisksPoint(d, i - 1);
      SameOrder(d[i], d[i-1]);
    }
  }

  /**
   For sorted records, the encoded file is accepted, and the opened file holds
   exactly these records under the header's target, generation and commit bounds.
   */
  lemma EncodedOpens(t: Target, generation: u64, d: seq<Record>)
    requires Storable(d) && NonDecreasing(d)
    ensures WellFormed(Encode(t, generation, d))
    ensures var f := FileOf(Encode(t, generation, d), HeaderOf(t, generation, d));
            && Sound(f) && Contents(f) == d
            && f.meta.target == t && f.meta.generation == generation
            && f.meta.min == MinCommit(d) && f.meta.max == MaxCommit(d)
  {
    hide UnpackHeader, Table, ValuesOf, DisksOf, LoadDisk, EntryOk, HeaderOk, HeaderChecksum, Extend, MinCommit;
    hide MaxCommit, Encode;
    var h, b := HeaderOf(t, generation, d), Encode(t, generation, d);
    EncodedHeader(t, generation, d);
    EncodedHeaderOk(t, generation, d);
    forall i | 0 <= i < |d| ensures EntryOk(h, b, i) {
      EncodedEntryOk(t, generation, d, i);
    }
    assert WellFormed(b);
    AcceptedIsSound(b);
    EncodedContents(t, generation, d);
  }

  lemma EncodedContents(t: Target, generation: u64, d: seq<Record>)
    requires Storable(d)
    requires var f := FileOf(Encode(t, generation, d), HeaderOf(t, generation, d)); Inside(f)
    ensures Contents(FileOf(Encode(t, generation, d), HeaderOf(t, generation, d))) == d
  {
    hide PackHeader, Table, ValuesOf, DisksOf, LoadDisk, HeaderChecksum, Extend, MinCommit, MaxCommit;
    var f := FileOf(Encode(t, generation, d), HeaderOf(t, generation, d));
    assert f.bytes[f.valuesAt..] == ValuesOf(d);
    forall i | 0 <= i < |d| ensures Contents(f)[i] == d[i] {
      EncodedEntry(t, generation, d, i);
      DisksPoint(d, i);
    }
  }
}
