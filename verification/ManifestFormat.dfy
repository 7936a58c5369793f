/** Encoding of manifest edits: which delta files are live, one edit per log record. */
module ManifestFormat {
  import opened Records
  import opened Packing
  import opened DeltaFormat

  type Name = Bytes

  datatype Entry = Entry(name: Name, meta: Meta, persistent: bool)

  datatype Edit = Add(entry: Entry) | Remove(names: seq<Name>)

  const SLASH: byte := 47
  const DOT: byte := 46
  const MANIFEST_MAGIC: u64 := 0x3346_494E_414D_4752  // "RGMANIF3"
  const MANIFEST_VERSION: u32 := 3
  const PAYLOAD_LIMIT: nat := 0x4000_0000
  const LOG_HEADER_BYTES: nat := 36
  const ADD_BYTES: nat := 76

  /** magic, version, type, pad, payload size, edit sequence, checksum */
  const LOG_HEADER: seq<nat> := [8, 4, 1, 3] + [4, 8, 8]

  /** kind, persistent, pad, shard, property, file, base and file generation, count, bytes,
      min and max commit, payload checksum, name size */
  const ADD: seq<nat> := [1, 1, 2, 4, 4, 4] + [8, 8, 8, 8] + [8, 8, 8, 4]

  lemma ManifestWidths()
    ensures Width(LOG_HEADER) == LOG_HEADER_BYTES && Width(ADD) == ADD_BYTES
    ensures |LOG_HEADER| == 7 && |ADD| == 14
  {
    WidthAppend([8, 4, 1, 3], [4, 8, 8]);
    WidthAppend([1, 1, 2, 4, 4, 4] + [8, 8, 8, 8], [8, 8, 8, 4]);
    WidthAppend([1, 1, 2, 4, 4, 4], [8, 8, 8, 8]);
  }

  /** A plain file name: no directory part. */
  predicate ValidName(n: Name) {
    n != [] && SLASH !in n && n != [DOT] && n != [DOT, DOT]
  }

  /** One step of walking a path from a directory, given by the names leading to it. */
  function Enter(dir: seq<Name>, part: Bytes): seq<Name> {
    if part == [] || part == [DOT] then dir
    else if part == [DOT, DOT] then (if dir == [] then [] else dir[..|dir|-1])
    else dir + [part]
  }

  function SlashAt(p: Bytes): (i: nat)
    ensures i <= |p| && SLASH !in p[..i] && (i < |p| ==> p[i] == SLASH)
  {
    if p == [] || p[0] == SLASH then 0
    else
      assert p[1..][..SlashAt(p[1..])] == p[..SlashAt(p[1..]) + 1][1..];
      SlashAt(p[1..]) + 1
  }

  /** Where a relative path leads. */
  function Resolve(dir: seq<Name>, p: Bytes): seq<Name>
    decreases |p|
  {
    var i := SlashAt(p);
    if i == |p| then Enter(dir, p) else Resolve(Enter(dir, p[..i]), p[i+1..])
  }

  lemma {:induction false} ResolvedParts(dir: seq<Name>, p: Bytes)
    requires forall n :: n in dir ==> SLASH !in n
    ensures forall n :: n in Resolve(dir, p) ==> SLASH !in n
    decreases |p|
  {
    var i := SlashAt(p);
    if i < |p| {
      ResolvedParts(Enter(dir, p[..i]), p[i+1..]);
    } else {
      assert p[..i] == p;
    }
  }

  /** A name is valid exactly when, from every directory, it leads to an entry of that very directory under itself. */
  lemma ValidNameIff(n: Name)
    ensures ValidName(n) <==> forall dir :: Resolve(dir, n) == dir + [n]
  {
    var i := SlashAt(n);
    assert i < |n| ==> n[i] in n;
    if !ValidName(n) {
      ResolvedParts([], n);
      assert [n][0] == n;
      assert Resolve([], n) == [n] ==> n in Resolve([], n);
      assert Resolve([], n) != [] + [n];
    }
  }

  // ---- Additions ----

  function AddFields(e: Entry): seq<nat> {
    var m := e.meta;
    [KindByte(m.target.kind), if e.persistent then 1 else 0, 0, m.target.shard, m.target.property, m.target.file]
    + [m.target.generation, m.generation, m.count, m.bytes]
    + [m.min, m.max, m.payload, |e.name|]
  }

  function EncodeAdd(e: Entry): (p: Bytes)
    ensures |p| == ADD_BYTES + |e.name|
  {
    ManifestWidths();
    Pack(AddFields(e), ADD) + e.name
  }

  lemma AddBounds(b: Bytes)
    requires |b| >= Width(ADD)
    ensures var v := Unpack(b, ADD);
            && |v| == 14 && v[0] < 0x100 && v[1] < 0x100
            && (forall i :: 3 <= i < 6 ==> v[i] < 0x1_0000_0000)
            && (forall i :: 6 <= i < 13 ==> v[i] <= LATEST)
  {
    hide Pow256, Pack, Unpack, Width;
    PackOfUnpack(b, ADD);
    Powers();
  }

  function DecodeAdd(p: Bytes): Option<Entry> {
    if |p| < ADD_BYTES then None
    else
      ManifestWidths();
      AddBounds(p);
      var v := Unpack(p, ADD);
      var name := p[ADD_BYTES..];
      if (v[0] != 1 && v[0] != 2) || v[1] > 1 || v[13] != |name| || !ValidName(name) then None
      else
        Some(Entry(name,
          Meta(Target(if v[0] == 1 then Node else Edge, v[3], v[5], v[6], v[4]),
               v[7], v[8], v[9], v[10], v[11], v[12]),
          v[1] != 0))
  }

  lemma AddFits(e: Entry)
    requires |e.name| < 0x1_0000_0000
    ensures Fits(AddFields(e), ADD)
  {
    hide Pow256;
    Powers();
  }

  lemma AddRoundTrip(e: Entry)
    requires ValidName(e.name) && |e.name| < 0x1_0000_0000
    ensures DecodeAdd(EncodeAdd(e)) == Some(e)
  {
    hide Pow256, Pack, Unpack, Width, ValidName;
    ManifestWidths();
    AddFits(e);
    UnpackOfPack(AddFields(e), ADD, e.name);
    assert EncodeAdd(e)[ADD_BYTES..] == e.name;
  }

  /** Where the padding of an addition is zero, it has one spelling, and only plain names decode. */
  lemma AddCanonical(p: Bytes)
    requires DecodeAdd(p).Some?
    ensures var e := DecodeAdd(p).value;
            ValidName(e.name) && |e.name| < 0x1_0000_0000 && (p[2..4] == [0, 0] ==> EncodeAdd(e) == p)
  {
    hide Pow256, Pack, Unpack, Width, ValidName;
    ManifestWidths();
    var e, v := DecodeAdd(p).value, Unpack(p, ADD);
    PackOfUnpack(p, ADD);
    Powers();
    if p[2..4] == [0, 0] {
      PadField(p);
      assert AddFields(e) == v;
      assert p == p[..ADD_BYTES] + p[ADD_BYTES..];
    }
  }

  lemma PadField(p: Bytes)
    requires |p| >= Width(ADD) && |p| >= 4 && p[2..4] == [0, 0]
    ensures Unpack(p, ADD)[2] == 0
  {
    var q := p[1..];
    assert ADD[1..][1..] == ADD[2..] && ADD[0] == 1 && ADD[1] == 1 && ADD[2] == 2;
    assert q[1..] == p[2..] && p[2..][..2] == [0, 0];
    assert Unpack(p, ADD)[1..] == Unpack(q, ADD[1..]) && Unpack(q, ADD[1..])[1..] == Unpack(p[2..], ADD[2..]);
    assert Unpack(p[2..], ADD[2..])[0] == UnLe([0, 0]);
    assert [0, 0][1..] == [0];
  }

  // ---- Removals ----

  function EncodeNames(ns: seq<Name>): Bytes {
    if ns == [] then [] else Le(|ns[0]|, 4) + ns[0] + EncodeNames(ns[1..])
  }

  function EncodeRemove(ns: seq<Name>): Bytes {
    Le(|ns|, 4) + EncodeNames(ns)
  }

  /** `count` names, and nothing after them. */
  function DecodeNames(p: Bytes, count: nat): Option<seq<Name>>
    decreases count
  {
    if count == 0 then (if p == [] then Some([]) else None)
    else if |p| < 4 then None
    else
      var size := UnLe(p[..4]);
      if size > |p| - 4 then None
      else
        var name := p[4..4 + size];
        if !ValidName(name) then None
        else
          match DecodeNames(p[4 + size..], count - 1)
          case None => None
          case Some(rest) => Some([name] + rest)
  }

  function DecodeRemove(p: Bytes): Option<seq<Name>> {
    if |p| < 4 then None else DecodeNames(p[4..], UnLe(p[..4]))
  }

  predicate ValidNames(ns: seq<Name>) {
    |ns| < 0x1_0000_0000 && forall n :: n in ns ==> ValidName(n) && |n| < 0x1_0000_0000
  }

  lemma {:induction false} NamesRoundTrip(ns: seq<Name>)
    requires ValidNames(ns)
    ensures DecodeNames(EncodeNames(ns), |ns|) == Some(ns)
  {
    hide ValidName, Le, UnLe;
    if ns != [] {
      var p := EncodeNames(ns);
      assert p[..4] == Le(|ns[0]|, 4);
      SizeRoundTrip(|ns[0]|);
      assert p[4..4 + |ns[0]|] == ns[0];
      assert p[4 + |ns[0]|..] == EncodeNames(ns[1..]);
      NamesRoundTrip(ns[1..]);
      assert ns[0] in ns && [ns[0]] + ns[1..] == ns;
    }
  }

  lemma SizeRoundTrip(n: nat)
    requires n < 0x1_0000_0000
    ensures UnLe(Le(n, 4)) == n
  {
    Powers();
    UnLeOfLe(n, 4);
  }

  lemma RemoveRoundTrip(ns: seq<Name>)
    requires ValidNames(ns)
    ensures DecodeRemove(EncodeRemove(ns)) == Some(ns)
  {
    hide ValidNames, Le, UnLe;
    assert |ns| < 0x1_0000_0000 by { NamesBound(ns); }
    SizeRoundTrip(|ns|);
    NamesRoundTrip(ns);
    assert EncodeRemove(ns)[..4] == Le(|ns|, 4);
    assert EncodeRemove(ns)[4..] == EncodeNames(ns);
  }

  lemma NamesBound(ns: seq<Name>)
    requires ValidNames(ns)
    ensures |ns| < 0x1_0000_0000
  {}

  lemma {:induction false} DecodedNames(p: Bytes, count: nat)
    requires DecodeNames(p, count).Some? && |p| < 0x1_0000_0000
    ensures forall n :: n in DecodeNames(p, count).value ==> ValidName(n) && |n| < 0x1_0000_0000
    decreases count
  {
    hide ValidName, UnLe;
    if count > 0 {
      DecodedNames(p[4 + UnLe(p[..4])..], count - 1);
    }
  }

  /** Only the canonical encoding decodes: a removal payload has one reading and one spelling. */
  lemma {:induction false} NamesCanonical(p: Bytes, count: nat)
    requires DecodeNames(p, count).Some?
    ensures |DecodeNames(p, count).value| == count && EncodeNames(DecodeNames(p, count).value) == p
    decreases count
  {
    hide ValidName, Le, UnLe;
    if count > 0 {
      var size := UnLe(p[..4]);
      NamesCanonical(p[4 + size..], count - 1);
      LeOfUnLe(p[..4]);
      var ns := DecodeNames(p, count).value;
      assert ns[1..] == DecodeNames(p[4 + size..], count - 1).value;
      assert p == p[..4] + p[4..4 + size] + p[4 + size..];
    }
  }

  lemma RemoveCanonical(p: Bytes)
    requires DecodeRemove(p).Some?
    ensures EncodeRemove(DecodeRemove(p).value) == p
    ensures |p| < 0x1_0000_0000 ==> ValidNames(DecodeRemove(p).value)
  {
    hide Le, UnLe;
    Powers();
    if |p| < 0x1_0000_0000 {
      DecodedNames(p[4..], UnLe(p[..4]));
    }
    NamesCanonical(p[4..], UnLe(p[..4]));
    LeOfUnLe(p[..4]);
    assert p == p[..4] + p[4..];
  }

  // ---- Edits ----

  function TypeOf(e: Edit): byte {
    match e case Add(_) => 1 case Remove(_) => 2
  }

  function Payload(e: Edit): Bytes {
    match e case Add(entry) => EncodeAdd(entry) case Remove(names) => EncodeRemove(names)
  }

  function DecodeEdit(kind: byte, p: Bytes): Option<Edit> {
    if kind == 1 then
      match DecodeAdd(p) case None => None case Some(entry) => Some(Add(entry))
    else
      match DecodeRemove(p) case None => None case Some(names) => Some(Remove(names))
  }

  predicate ValidEdit(e: Edit) {
    match e
    case Add(entry) => ValidName(entry.name) && |entry.name| < 0x1_0000_0000
    case Remove(names) => ValidNames(names)
  }

  lemma EditRoundTrip(e: Edit)
    requires ValidEdit(e)
    ensures DecodeEdit(TypeOf(e), Payload(e)) == Some(e)
  {
    hide ValidName, ValidNames, DecodeAdd, DecodeRemove, EncodeAdd, EncodeRemove;
    match e
    case Add(entry) => AddRoundTrip(entry);
    case Remove(names) => RemoveRoundTrip(names);
  }

  // ---- Log records ----

  type u24 = x: int | 0 <= x < 0x100_0000

  datatype LogHeader = LogHeader(magic: u64, version: u32, kind: byte, pad: u24, size: u32, sequence: u64,
                                 checksum: u64)

  function LogHeaderFields(h: LogHeader): seq<nat> {
    [h.magic, h.version, h.kind, h.pad] + [h.size, h.sequence, h.checksum]
  }

  function PackLogHeader(h: LogHeader): (b: Bytes)
    ensures |b| == LOG_HEADER_BYTES
  {
    ManifestWidths();
    Pack(LogHeaderFields(h), LOG_HEADER)
  }

  lemma LogHeaderBounds(b: Bytes)
    requires |b| >= Width(LOG_HEADER)
    ensures var v := Unpack(b, LOG_HEADER);
            && |v| == 7 && v[0] <= LATEST && v[1] < 0x1_0000_0000 && v[2] < 0x100 && v[3] < 0x100_0000
            && v[4] < 0x1_0000_0000 && v[5] <= LATEST && v[6] <= LATEST
  {
    hide Pow256, Pack, Unpack, Width;
    PackOfUnpack(b, LOG_HEADER);
    Powers();
  }

  function UnpackLogHeader(b: Bytes): LogHeader
    requires |b| >= LOG_HEADER_BYTES
  {
    ManifestWidths();
    LogHeaderBounds(b);
    var v := Unpack(b, LOG_HEADER);
    LogHeader(v[0], v[1], v[2], v[3], v[4], v[5], v[6])
  }

  lemma LogHeaderFits(h: LogHeader)
    ensures Fits(LogHeaderFields(h), LOG_HEADER)
  {
    hide Pow256;
    Powers();
  }

  lemma LogHeaderRoundTrip(h: LogHeader, rest: Bytes)
    ensures UnpackLogHeader(PackLogHeader(h) + rest) == h
  {
    hide Pow256, Pack, Unpack, Width;
    ManifestWidths();
    LogHeaderFits(h);
    UnpackOfPack(LogHeaderFields(h), LOG_HEADER, rest);
  }

  lemma LogHeaderBytes(b: Bytes)
    requires |b| >= LOG_HEADER_BYTES
    ensures PackLogHeader(UnpackLogHeader(b)) == b[..LOG_HEADER_BYTES]
  {
    hide Pack, Unpack, Width, Pow256;
    ManifestWidths();
    PackOfUnpack(b, LOG_HEADER);
    assert LogHeaderFields(UnpackLogHeader(b)) == Unpack(b, LOG_HEADER);
  }

  /** A packed header, field by field. */
  lemma LogHeaderLayout(h: LogHeader)
    ensures PackLogHeader(h) == Le(h.magic, 8) + Le(h.version, 4) + Le(h.kind, 1) + Le(h.pad, 3) + Le(h.size, 4)
                              + Le(h.sequence, 8) + Le(h.checksum, 8)
  {
    hide Le;
    var v, w := LogHeaderFields(h), LOG_HEADER;
    assert v[1..][1..] == v[2..] && v[2..][1..] == v[3..] && v[3..][1..] == v[4..] && v[4..][1..] == v[5..];
    assert w[1..][1..] == w[2..] && w[2..][1..] == w[3..] && w[3..][1..] == w[4..] && w[4..][1..] == w[5..];
    assert v[5..][1..] == v[6..] && v[6..][1..] == [] && w[5..][1..] == w[6..] && w[6..][1..] == [];
    assert Pack(v[6..], w[6..]) == Le(v[6], w[6]) + [];
    assert Pack(v[5..], w[5..]) == Le(v[5], w[5]) + Pack(v[6..], w[6..]);
    assert Pack(v[4..], w[4..]) == Le(v[4], w[4]) + Pack(v[5..], w[5..]);
    assert Pack(v[3..], w[3..]) == Le(v[3], w[3]) + Pack(v[4..], w[4..]);
    assert Pack(v[2..], w[2..]) == Le(v[2], w[2]) + Pack(v[3..], w[3..]);
    assert Pack(v[1..], w[1..]) == Le(v[1], w[1]) + Pack(v[2..], w[2..]);
  }

  lemma SevenParts(a: Bytes, b: Bytes, c: Bytes, d: Bytes, e: Bytes, f: Bytes, g: Bytes)
    requires |a| == 8 && |b| == 4 && |c| == 1 && |d| == 3 && |e| == 4 && |f| == 8 && |g| == 8
    ensures var p := a + b + c + d + e + f + g;
            && p[..8] == a && p[8..12] == b && p[12..13] == c && p[13..16] == d && p[16..20] == e
            && p[20..28] == f && p[28..36] == g
  {}

  /** Where each field of a header is read from. */
  lemma LogFields(b: Bytes)
    requires |b| >= LOG_HEADER_BYTES
    ensures var h := UnpackLogHeader(b);
            && h.magic == UnLe(b[..8]) && h.version == UnLe(b[8..12]) && h.kind == UnLe(b[12..13])
            && h.pad == UnLe(b[13..16]) && h.size == UnLe(b[16..20]) && h.sequence == UnLe(b[20..28])
            && h.checksum == UnLe(b[28..36]) && b[28..36] == Le(h.checksum, 8) && b[13..16] == Le(h.pad, 3)
  {
    hide Le, UnLe, PackLogHeader, UnpackLogHeader, Pow256;
    var h, p := UnpackLogHeader(b), b[..LOG_HEADER_BYTES];
    LogHeaderBytes(b);
    LogHeaderLayout(h);
    Powers();
    SevenParts(Le(h.magic, 8), Le(h.version, 4), Le(h.kind, 1), Le(h.pad, 3), Le(h.size, 4), Le(h.sequence, 8),
               Le(h.checksum, 8));
    assert p[..8] == b[..8] && p[8..12] == b[8..12] && p[12..13] == b[12..13] && p[13..16] == b[13..16];
    assert p[16..20] == b[16..20] && p[20..28] == b[20..28] && p[28..36] == b[28..36];
    UnLeOfLe(h.magic, 8);
    UnLeOfLe(h.version, 4);
    UnLeOfLe(h.kind, 1);
    UnLeOfLe(h.pad, 3);
    UnLeOfLe(h.size, 4);
    UnLeOfLe(h.sequence, 8);
    UnLeOfLe(h.checksum, 8);
  }

  /** What a record's checksum is taken over: its bytes with the checksum field zero. */
  lemma LogSummed(b: Bytes, payload: Bytes)
    requires |b| >= LOG_HEADER_BYTES
    ensures LogChecksum(UnpackLogHeader(b), payload) == Extend(FNV_OFFSET, b[..28] + Le(0, 8) + payload)
  {
    hide Le, UnLe, PackLogHeader, UnpackLogHeader, Pow256, Extend;
    var h := UnpackLogHeader(b);
    LogHeaderBytes(b);
    LogHeaderLayout(h);
    LogHeaderLayout(h.(checksum := 0));
    var p := b[..LOG_HEADER_BYTES];
    assert p[..28] == b[..28];
    assert PackLogHeader(h.(checksum := 0)) == p[..28] + Le(0, 8);
    ExtendAppend(FNV_OFFSET, PackLogHeader(h.(checksum := 0)), payload);
  }

  function LogChecksum(h: LogHeader, payload: Bytes): u64 {
    Extend(Extend(FNV_OFFSET, PackLogHeader(h.(checksum := 0))), payload)
  }

  /** The size field keeps the low 32 bits of the payload length. */
  function HeaderFor(sequence: u64, kind: byte, payload: Bytes): LogHeader {
    var h := LogHeader(MANIFEST_MAGIC, MANIFEST_VERSION, kind, 0, |payload| % 0x1_0000_0000, sequence, 0);
    h.(checksum := LogChecksum(h, payload))
  }

  /** The bytes appended for one edit. */
  function LogRecord(sequence: u64, e: Edit): (b: Bytes)
    ensures |b| == LOG_HEADER_BYTES + |Payload(e)|
  {
    PackLogHeader(HeaderFor(sequence, TypeOf(e), Payload(e))) + Payload(e)
  }
}
