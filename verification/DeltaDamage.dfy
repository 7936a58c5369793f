/** What validation of a delta file catches: any byte that changed on its way to the disk and back. */
module DeltaDamage {
  import opened Records
  import opened Packing
  import opened DeltaFormat

  const SUMMED_BYTES: nat := 112   // of the header, in front of its own checksum

  /** The header bytes stand for the header. */
  lemma HeaderBytes(b: Bytes)
    requires |b| >= HEADER_BYTES
    ensures PackHeader(UnpackHeader(b)) == b[..HEADER_BYTES]
  {
    hide Pack, Unpack, Width, Pow256;
    Widths();
    PackOfUnpack(b, HEADER);
    assert HeaderFields(UnpackHeader(b)) == Unpack(b, HEADER);
  }

  function Front(h: Header): seq<nat> {
    [h.magic, h.version, h.size, h.kind, h.pad0] + [h.shard, h.property, h.file, h.pad1]
    + [h.base, h.generation, h.count, h.recordsAt, h.valuesAt]
    + [h.valuesSize, h.min, h.max, h.payload]
  }

  const FRONT: seq<nat> := [8, 4, 4, 1, 7] + [4, 4, 4, 4] + [8, 8, 8, 8, 8] + [8, 8, 8, 8]

  lemma FrontWidth()
    ensures Width(FRONT) == SUMMED_BYTES && |FRONT| == 18 && HEADER[..18] == FRONT && HEADER[18] == 8
  {
    WidthAppend([8, 4, 4, 1, 7] + [4, 4, 4, 4] + [8, 8, 8, 8, 8], [8, 8, 8, 8]);
    WidthAppend([8, 4, 4, 1, 7] + [4, 4, 4, 4], [8, 8, 8, 8, 8]);
    WidthAppend([8, 4, 4, 1, 7], [4, 4, 4, 4]);
  }

  /** A packed header ends with its checksum; nothing else depends on it. */
  lemma HeaderSplits(h: Header)
    ensures |Front(h)| == 18 && |FRONT| == 18 && PackHeader(h) == Pack(Front(h), FRONT) + Le(h.checksum, 8)
    ensures |Pack(Front(h), FRONT)| == SUMMED_BYTES
  {
    hide Pack, Width, Le;
    Widths();
    FrontWidth();
    PackLast(HeaderFields(h), HEADER);
    assert HeaderFields(h)[..18] == Front(h);
  }

  /** What the header checksum is taken over. */
  lemma SummedBytes(b: Bytes)
    requires |b| >= HEADER_BYTES
    ensures PackHeader(UnpackHeader(b).(checksum := 0)) == b[..SUMMED_BYTES] + Le(0, 8)
    ensures b[SUMMED_BYTES..HEADER_BYTES] == Le(UnpackHeader(b).checksum, 8)
  {
    hide PackHeader, UnpackHeader, Pack, Le;
    var h := UnpackHeader(b);
    HeaderBytes(b);
    HeaderSplits(h);
    HeaderSplits(h.(checksum := 0));
    assert Front(h.(checksum := 0)) == Front(h);
    assert b[..HEADER_BYTES][..SUMMED_BYTES] == b[..SUMMED_BYTES];
  }

  /** Damage behind the header: the header reads the same, the payload sum does not. */
  lemma BodyDamage(b: Bytes, i: nat, x: byte)
    requires WellFormed(b) && HEADER_BYTES <= i < |b| && x != b[i]
    ensures !WellFormed(b[i := x])
  {
    hide Pack, Unpack, Width, Extend, LoadDisk, HeaderChecksum, EntryOk;
    var c := b[i := x];
    Widths();
    assert c[..HEADER_BYTES] == b[..HEADER_BYTES];
    UnpackPrefix(b, c, HEADER);
    assert UnpackHeader(c) == UnpackHeader(b);
    OneByteChangesSum(FNV_OFFSET, b[HEADER_BYTES..], i - HEADER_BYTES, x);
    assert c[HEADER_BYTES..] == b[HEADER_BYTES..][i - HEADER_BYTES := x];
  }

  /** Damage in the header, its checksum included: the two no longer agree. */
  lemma HeaderDamage(b: Bytes, i: nat, x: byte)
    requires WellFormed(b) && i < HEADER_BYTES && x != b[i]
    ensures !WellFormed(b[i := x])
  {
    hide PackHeader, UnpackHeader, Extend, LoadDisk, EntryOk, Le;
    var c := b[i := x];
    var g, h := UnpackHeader(b), UnpackHeader(c);
    SummedBytes(b);
    SummedBytes(c);
    if i < SUMMED_BYTES {
      var a := b[..SUMMED_BYTES] + Le(0, 8);
      assert c[..SUMMED_BYTES] + Le(0, 8) == a[i := x];
      OneByteChangesSum(FNV_OFFSET, a, i, x);
      assert c[SUMMED_BYTES..HEADER_BYTES] == b[SUMMED_BYTES..HEADER_BYTES];
      LeSame(g.checksum, h.checksum);
    } else {
      assert c[..SUMMED_BYTES] == b[..SUMMED_BYTES];
      assert c[SUMMED_BYTES..HEADER_BYTES][i - SUMMED_BYTES] == x &&
          b[SUMMED_BYTES..HEADER_BYTES][i - SUMMED_BYTES] == b[i];
      assert g.checksum != h.checksum;
    }
  }

  lemma LeSame(m: u64, n: u64)
    requires Le(m, 8) == Le(n, 8)
    ensures m == n
  {
    hide Le;
    Powers();
    UnLeOfLe(m, 8);
    UnLeOfLe(n, 8);
  }

  /** A file that differs from an accepted one in one byte, wherever, is refused. */
  lemma EveryByteCounts(b: Bytes, i: nat, x: byte)
    requires WellFormed(b) && i < |b| && x != b[i]
    ensures !WellFormed(b[i := x])
  {
    hide WellFormed;
    if i < HEADER_BYTES {
      HeaderDamage(b, i, x);
    } else {
      BodyDamage(b, i, x);
    }
  }

  /** The same bytes under a header that names another payload sum, its own checksum recomputed. */
  function Relabelled(b: Bytes, payload: u64): (r: Bytes)
    requires |b| >= HEADER_BYTES
    ensures |r| == |b|
  {
    var h := UnpackHeader(b).(payload := payload, checksum := 0);
    PackHeader(h.(checksum := HeaderChecksum(h))) + b[HEADER_BYTES..]
  }

  /** The payload sum is compared with the bytes, not only covered by the header's checksum. */
  lemma WrongPayloadSum(b: Bytes, payload: u64)
    requires WellFormed(b) && payload != UnpackHeader(b).payload
    ensures !WellFormed(Relabelled(b, payload))
  {
    hide PackHeader, UnpackHeader, Extend, LoadDisk, EntryOk, HeaderChecksum;
    var h := UnpackHeader(b).(payload := payload, checksum := 0);
    HeaderRoundTrip(h.(checksum := HeaderChecksum(h)), b[HEADER_BYTES..]);
    assert Relabelled(b, payload)[HEADER_BYTES..] == b[HEADER_BYTES..];
  }

  const MAGIC_BYTES: Bytes := [0x52, 0x47, 0x44, 0x45, 0x4C, 0x54, 0x41, 0x32]   // "RGDELTA2"

  lemma MagicSpelled()
    ensures Le(MAGIC, 8) == MAGIC_BYTES && Le(VERSION, 4) == [2, 0, 0, 0] && Le(HEADER_BYTES, 4) == [120, 0, 0, 0]
  {
    Value(MAGIC_BYTES);
    LeOfUnLe(MAGIC_BYTES);
    Small(2);
    Small(120);
  }

  lemma Value(b: Bytes)
    requires b == MAGIC_BYTES
    ensures UnLe(b) == MAGIC
  {
    assert b[1..][1..] == b[2..] && b[2..][1..] == b[3..] && b[3..][1..] == b[4..] && b[4..][1..] == b[5..];
    assert b[5..][1..] == b[6..] && b[6..][1..] == b[7..] && b[7..][1..] == [];
    assert UnLe(b[7..]) == 0x32 && UnLe(b[6..]) == 0x3241 && UnLe(b[5..]) == 0x32_4154 && UnLe(b[4..]) == 0x3241_544C;
    assert UnLe(b[3..]) == 0x32_4154_4C45 && UnLe(b[2..]) == 0x3241_544C_4544 && UnLe(b[1..]) == 0x32_4154_4C45_4447;
  }

  lemma Small(n: byte)
    ensures Le(n, 4) == [n, 0, 0, 0]
  {
    assert Le(0, 1) == [0] && Le(0, 2) == [0, 0] && Le(0, 3) == [0, 0, 0];
  }

  lemma FirstFields(vs: seq<nat>, ws: seq<nat>)
    requires |vs| == |ws| >= 4
    ensures Pack(vs, ws) ==
        Le(vs[0], ws[0]) + Le(vs[1], ws[1]) + Le(vs[2], ws[2]) + Le(vs[3], ws[3]) + Pack(vs[4..], ws[4..])
  {
    hide Le;
    assert vs[1..][1..] == vs[2..] && vs[2..][1..] == vs[3..] && vs[3..][1..] == vs[4..];
    assert ws[1..][1..] == ws[2..] && ws[2..][1..] == ws[3..] && ws[3..][1..] == ws[4..];
    assert Pack(vs[3..], ws[3..]) == Le(vs[3], ws[3]) + Pack(vs[4..], ws[4..]);
    assert Pack(vs[2..], ws[2..]) == Le(vs[2], ws[2]) + Pack(vs[3..], ws[3..]);
    assert Pack(vs[1..], ws[1..]) == Le(vs[1], ws[1]) + Pack(vs[2..], ws[2..]);
  }

  /** An accepted file spells its format, version and header size, names a kind, and has exactly the declared length. */
  lemma AcceptedIsLabelled(b: Bytes)
    requires WellFormed(b)
    ensures b[..8] == MAGIC_BYTES && b[8..12] == [2, 0, 0, 0] && b[12..16] == [120, 0, 0, 0]
    ensures (b[16] == 1 || b[16] == 2)
    ensures |b| == HEADER_BYTES + RECORD_BYTES * UnpackHeader(b).count + UnpackHeader(b).valuesSize
  {
    hide Pack, UnpackHeader, Extend, LoadDisk, EntryOk, HeaderChecksum, Le;
    var h := UnpackHeader(b);
    HeaderBytes(b);
    Widths();
    FirstFields(HeaderFields(h), HEADER);
    MagicSpelled();
    assert Le(h.kind, 1) == [h.kind] by { OneByte(h.kind); }
    var p := b[..HEADER_BYTES];
    assert p[..8] == Le(h.magic, 8) && p[8..12] == Le(h.version, 4) && p[12..16] == Le(h.size, 4) &&
        p[16..17] == [h.kind];
    assert b[..8] == p[..8] && b[8..12] == p[8..12] && b[12..16] == p[12..16] && b[16] == p[16..17][0];
  }

  lemma OneByte(n: byte)
    ensures Le(n, 1) == [n]
  {}
}
