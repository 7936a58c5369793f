/**
 Merging delta files into a fixed-width base column: padded slot writes into an
 output buffer, in chain order, and the proof that the buffer then stands for the
 overlaid column.
 */
module ColumnMerge {
  import opened Records
  import opened Topology
  import opened ColumnChain

  // ---- Fixed-width slots ----

  function Zeros(n: nat): (z: Bytes)
    ensures |z| == n && forall i :: 0 <= i < n ==> z[i] == 0
  {
    seq(n, i => 0)
  }

  /** Oversized values are cut, shorter ones padded with zeros. */
  function Pad(v: Bytes, width: nat): (s: Bytes)
    ensures |s| == width
  {
    if |v| >= width then v[..width] else v + Zeros(width - |v|)
  }

  function Trim(s: Bytes): (v: Bytes)
    ensures |v| <= |s| && v == s[..|v|]
    ensures v != [] ==> v[|v|-1] != 0
  {
    if s != [] && s[|s|-1] == 0 then Trim(s[..|s|-1]) else s
  }

  lemma {:induction false} TrimPadding(v: Bytes, n: nat)
    ensures Trim(v + Zeros(n)) == Trim(v)
    decreases n
  {
    if n == 0 {
      assert v + Zeros(0) == v;
    } else {
      TrimPadding(v, n - 1);
      assert (v + Zeros(n))[..|v| + n - 1] == v + Zeros(n - 1);
    }
  }

  /** A slot gives back exactly the values that fit it and do not end in a zero byte. */
  lemma SlotRoundTripIff(v: Bytes, width: nat)
    ensures Trim(Pad(v, width)) == v <==> |v| <= width && (v == [] || v[|v|-1] != 0)
  {
    if |v| <= width {
      if |v| < width {
        TrimPadding(v, width - |v|);
      } else {
        assert v[..width] == v;
      }
    }
  }

  method TrimTrailingZero(s: Bytes) returns (v: Bytes)
    ensures v == Trim(s)
  {
    v := s;
    while v != [] && v[|v|-1] == 0
      invariant Trim(v) == Trim(s)
      decreases |v|
    {
      v := v[..|v|-1];
    }
  }

  function Patch(col: Bytes, at: nat, s: Bytes): Bytes
    requires at + |s| <= |col|
  {
    col[..at] + s + col[at + |s|..]
  }

  /** Clears the slot, then copies what fits. */
  method WriteSlot(a: array<byte>, at: nat, v: Bytes, width: nat)
    requires at + width <= a.Length
    modifies a
    ensures a[..] == Patch(old(a[..]), at, Pad(v, width))
  {
    var i := 0;
    while i < width
      invariant 0 <= i <= width
      invariant forall j :: 0 <= j < a.Length ==> a[j] == if at <= j < at + i then 0 else old(a[j])
    {
      a[at + i] := 0;
      i := i + 1;
    }
    var copied := if |v| < width then |v| else width;
    i := 0;
    while i < copied
      invariant 0 <= i <= copied
      invariant forall j :: 0 <= j < a.Length ==>
        a[j] == if at <= j < at + i then v[j - at] else if at <= j < at + width then 0 else old(a[j])
    {
      a[at + i] := v[i];
      i := i + 1;
    }
    ghost var s := Pad(v, width);
    assert forall j :: 0 <= j < width ==> s[j] == if j < copied then v[j] else 0;
  }

  // ---- Slots of a column ----

  function SlotStart(width: nat, o: nat): nat {
    o * width
  }

  predicate InColumn(size: nat, width: nat, o: nat) {
    SlotStart(width, o) + width <= size
  }

  function Slot(col: Bytes, width: nat, o: nat): Bytes
    requires InColumn(|col|, width, o)
  {
    col[SlotStart(width, o)..SlotStart(width, o) + width]
  }

  lemma {:induction false} SlotsApart(o: nat, q: nat, width: nat)
    requires o < q
    ensures SlotStart(width, o) + width <= SlotStart(width, q)
    decreases q
  {
    NextSlot(q - 1, width);
    if o < q - 1 {
      SlotsApart(o, q - 1, width);
    }
  }

  lemma NextSlot(o: nat, width: nat)
    ensures SlotStart(width, o + 1) == SlotStart(width, o) + width
  {}

  lemma PatchedSlot(col: Bytes, width: nat, o: nat, q: nat, s: Bytes)
    requires |s| == width && InColumn(|col|, width, o) && InColumn(|col|, width, q)
    ensures |Patch(col, SlotStart(width, o), s)| == |col|
    ensures Slot(Patch(col, SlotStart(width, o), s), width, q) == if q == o then s else Slot(col, width, q)
  {
    hide SlotStart;
    if o < q {
      SlotsApart(o, q, width);
    } else if q < o {
      SlotsApart(q, o, width);
    }
    PatchedRange(col, SlotStart(width, o), SlotStart(width, q), s);
  }

  lemma PatchedRange(col: Bytes, a: nat, b: nat, s: Bytes)
    requires a + |s| <= |col| && b + |s| <= |col| && (a == b || a + |s| <= b || b + |s| <= a)
    ensures Patch(col, a, s)[b..b + |s|] == if a == b then s else col[b..b + |s|]
  {}

  // ---- The merge ----

  /** The records `rs` were written, in order, over `base`. */
  ghost predicate Merged(t: Table, base: Bytes, out: Bytes, width: nat, rs: seq<Record>) {
    && |out| == |base|
    && forall k, o: nat :: LocatedAt(t, k, o) && InColumn(|base|, width, o) ==> SlotMerged(base, out, width, rs, k, o)
  }

  ghost predicate SlotMerged(base: Bytes, out: Bytes, width: nat, rs: seq<Record>, k: Key, o: nat)
    requires |out| == |base| && InColumn(|base|, width, o)
  {
    Slot(out, width, o) == match Last(rs, k) case Some(x) => Pad(x.value, width) case None => Slot(base, width, o)
  }

  ghost predicate Placed(t: Table, size: nat, width: nat, k: Key) {
    exists o: nat :: LocatedAt(t, k, o) && InColumn(size, width, o)
  }

  lemma MergedStep(t: Table, base: Bytes, out: Bytes, width: nat, rs: seq<Record>, x: Record, o: nat)
    requires Merged(t, base, out, width, rs) && LocatedAt(t, x.key, o) && InColumn(|base|, width, o)
    ensures Merged(t, base, Patch(out, SlotStart(width, o), Pad(x.value, width)), width, rs + [x])
  {
    hide LocatedAt, Slot, Patch, Pad, Last, SlotStart;
    var out' := Patch(out, SlotStart(width, o), Pad(x.value, width));
    PatchedSlot(out, width, o, o, Pad(x.value, width));
    forall k, q: nat | LocatedAt(t, k, q) && InColumn(|base|, width, q)
      ensures SlotMerged(base, out', width, rs + [x], k, q)
    {
      assert SlotMerged(base, out, width, rs, k, q);
      LocationIsInjective(t, k, x.key, q, o);
      PatchedSlot(out, width, o, q, Pad(x.value, width));
      LastStep(rs, x, k);
    }
  }

  lemma LastStep(rs: seq<Record>, x: Record, k: Key)
    ensures Last(rs + [x], k) == if x.key == k then Some(x) else Last(rs, k)
  {
    assert (rs + [x])[..|rs|] == rs;
  }

  lemma NothingMerged(t: Table, base: Bytes, width: nat)
    ensures Merged(t, base, base, width, [])
  {}

  /** Writes one file's records into the output buffer, in file order. */
  method WriteRecords(t: Table, out: array<byte>, width: nat, records: seq<Record>, ghost base: Bytes,
                      ghost before: seq<Record>)
    returns (ok: bool)
    requires Sorted(t) && Merged(t, base, out[..], width, before)
    modifies out
    ensures ok <==> forall x :: x in records ==> Placed(t, |base|, width, x.key)
    ensures ok ==> Merged(t, base, out[..], width, before + records)
  {
    hide Merged, Sorted, LocatedAt, Patch, Placed, SlotStart;
    assert out.Length == |base| by { MergedSize(t, base, out[..], width, before); }
    var i := 0;
    assert before + records[..0] == before;
    while i < |records|
      invariant 0 <= i <= |records|
      invariant Merged(t, base, out[..], width, before + records[..i])
      invariant forall j :: 0 <= j < i ==> Placed(t, |base|, width, records[j].key)
    {
      var x := records[i];
      var o := Locate(t, x.key);
      if o.None? || !InColumn(out.Length, width, o.value) {
        Unplaced(t, |base|, width, x.key, o);
        return false;
      }
      MergedStep(t, base, out[..], width, before + records[..i], x, o.value);
      PlacedAt(t, |base|, width, x.key, o.value);
      assert before + records[..i] + [x] == before + records[..i+1];
      WriteSlot(out, SlotStart(width, o.value), x.value, width);
      i := i + 1;
    }
    assert records[..i] == records;
    ok := true;
  }

  lemma MergedSize(t: Table, base: Bytes, out: Bytes, width: nat, rs: seq<Record>)
    requires Merged(t, base, out, width, rs)
    ensures |out| == |base|
  {}

  lemma PlacedAt(t: Table, size: nat, width: nat, k: Key, o: nat)
    requires LocatedAt(t, k, o) && InColumn(size, width, o)
    ensures Placed(t, size, width, k)
  {}

  /** The properties one store keeps: its object kind, its shard and the slot width of each column. */
  datatype Layout = Layout(kind: Kind, shard: u32, widths: seq<nat>)

  /**
   Writes every delta record into a copy of the column readers use now, or of the
   table's own column before the first merge; fails on the first it cannot place.
   Requests for another store, without deltas, for a missing table or for an empty
   column are refused.
   */
  method MergeColumn(me: Layout, target: Target, table: Option<Table>, own: Bytes, current: Option<Bytes>,
                     deltas: seq<DeltaFile>)
      returns (r: Option<Bytes>)
    requires table.Some? ==> Sorted(table.value)
    ensures r.Some? ==>
      && deltas != [] && target.kind == me.kind && target.shard == me.shard && target.property < |me.widths|
      && table.Some?
    ensures r.Some? && current.Some? ==>
      && current.value != []
      && Merged(table.value, current.value, r.value, me.widths[target.property], Flat(deltas))
    ensures r.Some? && current.None? ==>
      && own != []
      && Merged(table.value, own, r.value, me.widths[target.property], Flat(deltas))
    ensures r.Some? ==>
      forall x :: x in Flat(deltas) ==> Placed(table.value, |r.value|, me.widths[target.property], x.key)
    // and nothing else is refused
    ensures r.None? && deltas != [] && target.kind == me.kind && target.shard == me.shard ==>
      || target.property >= |me.widths| || table.None?
      || current == Some([]) || (current.None? && own == [])
      || exists x :: x in Flat(deltas) &&
           !Placed(table.value, if current.Some? then |current.value| else |own|, me.widths[target.property], x.key)
  {
    hide Merged, Sorted, Flat, Placed;
    if deltas == [] || target.kind != me.kind || target.shard != me.shard || target.property >= |me.widths| {
      return None;
    }
    if table.None? {
      return None;
    }
    var base := if current.None? then own else current.value;
    if base == [] {
      return None;
    }
    var t, width := table.value, me.widths[target.property];
    var out := new byte[|base|](i requires 0 <= i < |base| => base[i]);
    assert out[..] == base;
    NothingMerged(t, base, width);
    FlatNone();
    assert deltas[..0] == [];
    var d := 0;
    while d < |deltas|
      invariant 0 <= d <= |deltas|
      invariant Merged(t, base, out[..], width, Flat(deltas[..d]))
      invariant forall x :: x in Flat(deltas[..d]) ==> Placed(t, |base|, width, x.key)
    {
      FlatStep(deltas, d);
      var ok := WriteRecords(t, out, width, deltas[d].records, base, Flat(deltas[..d]));
      if !ok {
        FlatPart(deltas, d);
        return None;
      }
      d := d + 1;
    }
    assert deltas[..d] == deltas;
    MergedSize(t, base, out[..], width, Flat(deltas));
    r := Some(out[..]);
  }

  lemma Unplaced(t: Table, size: nat, width: nat, k: Key, o: Option<nat>)
    requires if o.Some? then LocatedAt(t, k, o.value) &&
        !InColumn(size, width, o.value) else forall q: nat :: !LocatedAt(t, k, q)
    ensures !Placed(t, size, width, k)
  {
    hide LocatedAt, InColumn;
    forall q: nat | LocatedAt(t, k, q) && o.Some? ensures q == o.value {
      LocationIsInjective(t, k, k, q, o.value);
    }
  }

  lemma FlatStep(ds: seq<DeltaFile>, d: nat)
    requires d < |ds|
    ensures Flat(ds[..d+1]) == Flat(ds[..d]) + ds[d].records
  {
    assert ds[..d+1][..d] == ds[..d];
  }

  lemma FlatPart(ds: seq<DeltaFile>, d: nat)
    requires d < |ds|
    ensures forall x :: x in ds[d].records ==> x in Flat(ds)
  {
    FlatStep(ds, d);
    FlatSplit(ds, d + 1);
  }

  // ---- Merging again ----

  /** Merging a second batch over the result of the first is merging both over the original column. */
  lemma MergesCompose(t: Table, own: Bytes, mid: Bytes, out: Bytes, width: nat, a: seq<Record>, b: seq<Record>)
    requires Merged(t, own, mid, width, a) && Merged(t, mid, out, width, b)
    ensures Merged(t, own, out, width, a + b)
  {
    hide LocatedAt, Slot, Pad, Last, InColumn;
    forall k, o: nat | LocatedAt(t, k, o) && InColumn(|own|, width, o)
      ensures SlotMerged(own, out, width, a + b, k, o) {
      assert SlotMerged(own, mid, width, a, k, o) && SlotMerged(mid, out, width, b, k, o);
      LastAppend(a, b, k);
    }
  }

  /** Each column is the merge of the next batch over the one before. */
  ghost predicate MergedInTurn(t: Table, width: nat, cols: seq<Bytes>, batches: seq<seq<DeltaFile>>) {
    && |cols| == |batches| + 1
    && forall i :: 0 <= i < |batches| ==> Merged(t, cols[i], cols[i+1], width, Flat(batches[i]))
  }

  ghost function AllDeltas(batches: seq<seq<DeltaFile>>): seq<DeltaFile> {
    if batches == [] then [] else AllDeltas(batches[..|batches|-1]) + batches[|batches|-1]
  }

  /** Any number of merges, each over the result of the last, loses none of the earlier ones. */
  lemma {:induction false} MergesAddUp(t: Table, width: nat, cols: seq<Bytes>, batches: seq<seq<DeltaFile>>)
    requires MergedInTurn(t, width, cols, batches)
    ensures Merged(t, cols[0], cols[|batches|], width, Flat(AllDeltas(batches)))
  {
    hide Merged, Flat;
    if batches == [] {
      NothingMerged(t, cols[0], width);
      FlatNone();
    } else {
      var n := |batches| - 1;
      MergesAddUp(t, width, cols[..n+1], batches[..n]);
      MergesCompose(t, cols[0], cols[n], cols[n+1], width, Flat(AllDeltas(batches[..n])), Flat(batches[n]));
      FlatAppend(AllDeltas(batches[..n]), batches[n]);
    }
  }

  // ---- What the merged column stands for ----

  /** The column bytes hold exactly the values of `c`. */
  ghost predicate Stands(t: Table, col: Bytes, width: nat, c: Column) {
    && (forall k :: k in c <==> Placed(t, |col|, width, k))
    && (forall k, o: nat :: k in c && LocatedAt(t, k, o) && InColumn(|col|, width, o) ==>
      c[k] == Trim(Slot(col, width, o)))
  }

  predicate Storable(v: Bytes, width: nat) {
    |v| <= width && (v == [] || v[|v|-1] != 0)
  }

  /** The in-place merge refines overlaying the column with the records. */
  lemma MergeRefinesOverlay(t: Table, base: Bytes, out: Bytes, width: nat, rs: seq<Record>, c: Column)
    requires Merged(t, base, out, width, rs) && Stands(t, base, width, c)
    requires forall x :: x in rs ==> Placed(t, |base|, width, x.key) && Storable(x.value, width)
    ensures Stands(t, out, width, Overlay(c, rs))
  {
    hide LocatedAt, Slot, InColumn, Trim, Pad, Overlay, Last, Merged, SlotMerged;
    assert |out| == |base| by { MergedSize(t, base, out, width, rs); }
    var c' := Overlay(c, rs);
    forall k ensures k in c' <==> Placed(t, |out|, width, k) {
      OverlaidKeys(t, |base|, width, rs, c, k);
    }
    forall k, o: nat | k in c' && LocatedAt(t, k, o) && InColumn(|out|, width, o)
      ensures c'[k] == Trim(Slot(out, width, o))
    {
      OverlaidValue(t, base, out, width, rs, c, k, o);
    }
  }

  lemma OverlaidKeys(t: Table, size: nat, width: nat, rs: seq<Record>, c: Column, k: Key)
    requires (forall l :: l in c <==> Placed(t, size, width, l)) && forall x :: x in rs ==>
        Placed(t, size, width, x.key)
    ensures k in Overlay(c, rs) <==> Placed(t, size, width, k)
  {
    hide Placed, Overlay, Last;
    OverlayCell(c, rs, k);
    LastIsMember(rs, k);
  }

  lemma OverlaidValue(t: Table, base: Bytes, out: Bytes, width: nat, rs: seq<Record>, c: Column, k: Key, o: nat)
    requires Merged(t, base, out, width, rs) && Stands(t, base, width, c)
    requires forall x :: x in rs ==> Storable(x.value, width)
    requires k in Overlay(c, rs) && LocatedAt(t, k, o) && InColumn(|out|, width, o)
    ensures Overlay(c, rs)[k] == Trim(Slot(out, width, o))
  {
    hide LocatedAt, Slot, InColumn, Trim, Pad, Overlay, Last, Placed;
    OverlayCell(c, rs, k);
    LastIsMember(rs, k);
    assert SlotMerged(base, out, width, rs, k, o);
    if Last(rs, k).Some? {
      SlotRoundTripIff(Last(rs, k).value.value, width);
    }
  }

  /**
   The merge of a chain's captured prefix over the bytes of the view it was captured
   from: they stand for exactly the column that the renamed base is, in every state the
   invariant allows, so what readers saw before is what the merge builds on.
   */
  lemma MergeRefinesRename(c: Col, who: Owner, durable: bool, nextGen: nat, t: Table, current: Bytes, out: Bytes,
                           width: nat)
    requires ColInv(c, true, durable, nextGen) && c.chain.Some? && MergeOf(c, who).Running?
    requires Stands(t, current, width, c.chain.value.view.base)
    requires Merged(t, current, out, width, Flat(MergeOf(c, who).batch))
    requires forall x :: x in Flat(MergeOf(c, who).batch) ==>
        Placed(t, |current|, width, x.key) && Storable(x.value, width)
    ensures Stands(t, out, width, RenameBase(c, who).stored)
    ensures PrefixUnchanged(c, who) ==> Stands(t, out, width, PublishMerge(c, who, 1).chain.value.view.base)
  {
    hide Stands, Merged, Flat, Placed, Overlay, Ordered, Generations, Agrees, History;
    MergeRefinesOverlay(t, current, out, width, Flat(MergeOf(c, who).batch), c.chain.value.view.base);
    assert MergeOf(c, who).base == c.chain.value.view.base;
  }
}
