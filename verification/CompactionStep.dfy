/**
 One pass of the compaction loop as an object: pick, select, merge, write, record, or
 move the files down unchanged. Proved to be a step of the run model.
 */
module CompactionStep {
  import opened Records
  import opened Topology
  import opened Interleaving
  import opened EdgeMerge
  import opened TableWriter
  import opened TableStreams
  import opened CompactionInputs
  import opened LevelIndex
  import opened CompactionRun
  import Subcompactions
  import opened ParallelMerge
  import opened LevelRuns

  // ---- Inputs and their edges ----

  lemma {:induction false} WaysOf(ins: seq<OutFile>, invalid: u64) returns (ways: seq<seq<Edge>>)
    requires forall f :: f in ins ==> Sound(f, invalid)
    ensures InputsHold(ins, ways, invalid)
  {
    hide Stored;
    if ins == [] {
      ways := [];
    } else {
      var n := |ins| - 1;
      ways := WaysOf(ins[..n], invalid);
      assert ins[n] in ins;
      var w :| Stored(ins[n], w, invalid);
      HoldOneMore(ins[..n], ways, ins[n], w, invalid);
      assert ins == ins[..n] + [ins[n]];
      ways := ways + [w];
    }
  }

  lemma HoldOneMore(ins: seq<OutFile>, ways: seq<seq<Edge>>, f: OutFile, w: seq<Edge>, invalid: u64)
    requires InputsHold(ins, ways, invalid) && Stored(f, w, invalid)
    ensures InputsHold(ins + [f], ways + [w], invalid)
  {
    hide FileOf, SortedEdges, InRange;
  }

  /** A stored file can be read back through its index. */
  lemma StoredTells(f: OutFile, w: seq<Edge>, invalid: u64)
    requires Stored(f, w, invalid)
    ensures Tells(f, w) && |f.table.index| > 1 && f.table.index[0].offset == 0
    ensures f.table.index[|f.table.index|-1].offset == |w|
    ensures f.table.index[0].key == f.min && f.table.index[|f.table.index|-2].key == f.max
  {
    hide SortedEdges, IndexOf, Delimited, Increasing, KeysIncrease, Sorted;
    FileIsSortedTable(f.id, w, invalid);
    var x := f.table.index;
    DelimitedStart(w, x);
    SortedKeys(f.table);
    SourceAt(w, x, 0);
    SourceAt(w, x, |x| - 2);
  }

  lemma SortedKeys(t: Table)
    requires Sorted(t)
    ensures KeysIncrease(t.index)
  {}

  lemma HoldTells(ins: seq<OutFile>, ways: seq<seq<Edge>>, invalid: u64)
    requires InputsHold(ins, ways, invalid)
    ensures Given(ins, ways)
    ensures forall f :: 0 <= f < |ins| ==> Stored(ins[f], ways[f], invalid)
  {
    hide Tells, FileOf, SortedEdges, InRange;
    forall f | 0 <= f < |ins| ensures Tells(ins[f], ways[f]) && Stored(ins[f], ways[f], invalid) {
      StoredTells(ins[f], ways[f], invalid);
    }
  }

  method ReadFile(f: OutFile, ghost w: seq<Edge>, ghost invalid: u64) returns (es: seq<Edge>)
    requires Stored(f, w, invalid)
    ensures es == w
  {
    hide Stored, Tells;
    StoredTells(f, w, invalid);
    es := ReadPiece(f, 0, |f.table.index| - 1, w);
  }

  /** Reads every file of a list to its end. */
  method ReadAll(ins: seq<OutFile>, ghost ways: seq<seq<Edge>>, ghost invalid: u64) returns (r: seq<seq<Edge>>)
    requires InputsHold(ins, ways, invalid)
    ensures r == ways
  {
    hide InputsHold, Tells, Stored, Given;
    WaysSorted(ins, ways, invalid);
    r := [];
    while |r| < |ins|
      invariant |r| <= |ins| && forall i :: 0 <= i < |r| ==> r[i] == ways[i]
      decreases |ins| - |r|
    {
      var f := ins[|r|];
      HoldTells(ins, ways, invalid);
      var es := ReadFile(f, ways[|r|], invalid);
      r := r + [es];
    }
  }

  /** The files of a level in order give one sorted stream. */
  lemma {:induction false} LevelSorted(ins: seq<OutFile>, ways: seq<seq<Edge>>, invalid: u64)
    requires InputsHold(ins, ways, invalid) && Ranged(ins)
    ensures SortedEdges(Concat(ways)) && forall e :: e in Concat(ways) ==>
        exists f :: f in ins && f.min <= e.src <= f.max
  {
    hide SortedEdges, FileOf, Ranged;
    if ins == [] {
      NoEdges();
    } else {
      var n := |ins| - 1;
      var t, f, w := ins[..n], ins[n], ways[n];
      RangedLast(ins);
      LevelSorted(t, ways[..n], invalid);
      assert Stored(f, w, invalid);
      forall e | e in w ensures f.min <= e.src <= f.max {
        EdgeInFile(f, w, invalid, e);
      }
      forall d, e | d in Concat(ways[..n]) && e in w ensures d.src < e.src {
        var g :| g in t && g.min <= d.src <= g.max;
      }
      JoinSorted(Concat(ways[..n]), w);
      forall e | e in Concat(ways) ensures exists g :: g in ins && g.min <= e.src <= g.max {
        if e in Concat(ways[..n]) {
          var g :| g in t && g.min <= e.src <= g.max;
          assert g in ins;
        } else {
          assert f in ins;
        }
      }
    }
  }

  lemma EdgeInFile(f: OutFile, w: seq<Edge>, invalid: u64, e: Edge)
    requires Stored(f, w, invalid) && e in w
    ensures f.min <= e.src <= f.max
  {
    hide SortedEdges, IndexOf;
    var o :| 0 <= o < |w| && w[o] == e;
    assert HasSource(w, e.src);
    StoredRange(f, w, invalid, e.src);
  }

  /** Disjoint files of the lower level share a lane; the others have their own. */
  lemma LanesQualify(in0: seq<OutFile>, in1: seq<OutFile>, ways: seq<seq<Edge>>, invalid: u64)
    requires InputsHold(in0 + in1, ways, invalid) && Ranged(in1)
    ensures var files := InputsOf(in0 + in1, |in0|);
            forall f, g :: 0 <= f < g < |files| ==> Subcompactions.FilesApart(files[f], files[g])
  {
    hide InputsHold, Stored;
    var ins, files := in0 + in1, InputsOf(in0 + in1, |in0|);
    HoldTells(ins, ways, invalid);
    forall f, g | 0 <= f < g < |files| ensures Subcompactions.FilesApart(files[f], files[g]) {
      if files[f].lane == files[g].lane {
        StoredTells(ins[f], ways[f], invalid);
        StoredTells(ins[g], ways[g], invalid);
        assert ins[f] == in1[f - |in0|] && ins[g] == in1[g - |in0|];
      }
    }
  }

  // ---- Merging ----

  /** Merges the inputs the way the level calls for; on level 0 in parallel if workers are planned. */
  method MergeInputs(level: nat, in0: seq<OutFile>, in1: seq<OutFile>, planned: nat, perFile: nat, ghost invalid: u64)
      returns (parts: seq<seq<Edge>>)
    requires in0 != [] && Ranged(in1) && (level > 0 ==> Ranged(in0)) && forall f :: f in in0 || f in in1 ==>
        Sound(f, invalid)
    ensures MergedInto(level, in0, in1, parts, invalid)
  {
    hide Ranged, InputsHold, Sound, IsMerge, SortedEdges, AllOf, Parts, Merged;
    ghost var ways0 := WaysOf(in0, invalid);
    ghost var ways1 := WaysOf(in1, invalid);
    HoldTogether(in0, ways0, in1, ways1, invalid);
    if level == 0 && planned > 1 {
      HoldTells(in0 + in1, ways0 + ways1, invalid);
      LanesQualify(in0, in1, ways0 + ways1, invalid);
      hide Given;
      parts := MergeInParallel(in0 + in1, ways0 + ways1, |in0|, planned, perFile);
    } else {
      var es := MergeOnce(level, in0, in1, ways0, ways1, invalid);
      parts := [es];
    }
  }

  method MergeOnce(level: nat, in0: seq<OutFile>, in1: seq<OutFile>, ghost ways0: seq<seq<Edge>>,
                   ghost ways1: seq<seq<Edge>>, ghost invalid: u64)
      returns (es: seq<Edge>)
    requires in0 != [] && InputsHold(in0, ways0, invalid) && InputsHold(in1, ways1, invalid)
    requires Ranged(in1) && (level > 0 ==> Ranged(in0))
    ensures Merged(level, in0, in1, es, invalid)
  {
    hide Ranged, InputsHold, IsMerge, SortedEdges, AllOf, Concat;
    WaysSorted(in0, ways0, invalid);
    WaysSorted(in1, ways1, invalid);
    var w0 := ReadAll(in0, ways0, invalid);
    var w1 := ReadAll(in1, ways1, invalid);
    ghost var from;
    if level == 0 {
      es, from := MergeWays(w0 + w1);
    } else {
      LevelSorted(in0, ways0, invalid);
      LevelSorted(in1, ways1, invalid);
      es, from := MergeTwoLevels(w0, w1);
    }
    assert MergedBy(level, in0, in1, es, invalid, ways0, ways1, from);
  }

  lemma WaysSorted(ins: seq<OutFile>, ways: seq<seq<Edge>>, invalid: u64)
    requires InputsHold(ins, ways, invalid)
    ensures |ins| == |ways| && forall w :: 0 <= w < |ways| ==> ways[w] != [] && SortedEdges(ways[w])
    ensures forall w :: w in ways ==> w != []
  {
    hide FileOf, SortedEdges;
  }

  // ---- Writing ----

  lemma FreshAppend(a: seq<OutFile>, b: seq<OutFile>, clock: nat, mid: nat, clock': nat)
    requires FreshIds(a, clock, mid) && Numbered(b, mid) && mid + |b| <= clock'
    ensures FreshIds(a + b, clock, clock')
  {}

  /** Writes every part with a writer of its own; ids come from one clock. */
  method WriteParts(parts: seq<seq<Edge>>, limits: Limits, clock: nat)
      returns (outs: seq<seq<OutFile>>, clock': nat, ghost bounds: seq<seq<nat>>)
    requires Sensible(limits) && forall k :: 0 <= k < |parts| ==> parts[k] != [] && SortedEdges(parts[k])
    ensures Writing(parts, bounds, outs, limits) && FreshIds(Concat(outs), clock, clock')
  {
    hide SortedEdges, WrittenAs, Numbered, FreshIds, Concat;
    outs, clock', bounds := [], clock, [];
    NoneFresh(clock);
    while |outs| < |parts|
      invariant |outs| == |bounds| <= |parts| && FreshIds(Concat(outs), clock, clock')
      invariant forall k :: 0 <= k < |outs| ==> WrittenAs(outs[k], parts[k], bounds[k], limits)
      decreases |parts| - |outs|
    {
      var files, next := WriteMerged(parts[|outs|], limits, clock');
      ghost var b :| WrittenAs(files, parts[|outs|], b, limits);
      FreshAppend(Concat(outs), files, clock, clock', next);
      ConcatSnoc(outs, files);
      outs, bounds, clock' := outs + [files], bounds + [b], next;
    }
  }

  lemma NoneFresh(clock: nat)
    ensures FreshIds(Concat([]), clock, clock)
  {}

  lemma ConcatSnoc<T>(xss: seq<seq<T>>, xs: seq<T>)
    ensures Concat(xss + [xs]) == Concat(xss) + xs
  {
    assert (xss + [xs])[..|xss|] == xss;
  }

  method Flatten(outs: seq<seq<OutFile>>) returns (out: seq<OutFile>)
    ensures out == Concat(outs)
  {
    out := [];
    var k := 0;
    assert outs[..0] == [];
    while k < |outs|
      invariant 0 <= k <= |outs| && out == Concat(outs[..k])
    {
      ConcatSnoc(outs[..k], outs[k]);
      assert outs[..k] + [outs[k]] == outs[..k+1];
      out := out + outs[k];
      k := k + 1;
    }
    assert outs[..k] == outs;
  }

  // ---- The loop body ----

  /** The selection around one file; its upper inputs end at `hi`. */
  ghost predicate PicksFrom(level: nat, upper: seq<OutFile>, lower: seq<OutFile>, in0: seq<OutFile>, in1: seq<OutFile>,
                            f: OutFile, hi: u64) {
    f in in0 && exists start, lo :: PicksBy(level, upper, lower, in0, in1, f, start, lo, hi)
  }

  lemma PickedIn(level: nat, upper: seq<OutFile>, lower: seq<OutFile>, in0: seq<OutFile>, in1: seq<OutFile>, f: OutFile,
                 hi: u64)
    requires PicksFrom(level, upper, lower, in0, in1, f, hi)
    ensures forall a, b :: Hull(in0, a, b) ==> b == hi
  {
    hide Grown, Stretched;
    var start, lo :| PicksBy(level, upper, lower, in0, in1, f, start, lo, hi);
    HullIsUnique(in0, lo, hi);
  }

  class Compactor {
    const limits: Limits
    const table: LevelTable
    var files: seq<seq<OutFile>>
    var pointers: seq<Option<u64>>   // where the last compaction of each level ended
    var clock: nat

    constructor (limits: Limits, levels: nat)
      requires levels > 0
      ensures this.limits == limits && fresh(table) && table.spots == map[] && clock == 0
      ensures |files| == |pointers| == levels && forall l :: 0 <= l < levels ==> files[l] == [] && pointers[l].None?
    {
      this.limits := limits;
      this.files := seq(levels, l => []);
      this.pointers := seq(levels, l => None);
      this.clock := 0;
      this.table := new LevelTable();
    }

    ghost function Abs(): Db
      reads this, table
    {
      Db(Levels(files, table.spots), clock)
    }

    /** Records published files in the level index, one after the other. */
    method RecordAll(out: seq<OutFile>, level: nat, inputs: set<nat>)
      modifies table
      ensures table.spots == AfterFiles(old(table.spots), out, level, inputs)
    {
      hide AfterEntries;
      var i := 0;
      assert out[..0] == [];
      while i < |out|
        invariant 0 <= i <= |out| && table.spots == AfterFiles(old(table.spots), out[..i], level, inputs)
      {
        assert out[..i+1][..i] == out[..i] && out[..i+1][i] == out[i];
        if out[i].table.index != [] {
          table.RecordFile(out[i], level, inputs);
        }
        i := i + 1;
      }
      assert out[..i] == out;
    }

    method MoveAll(in0: seq<OutFile>, level: nat)
      requires level > 0
      modifies table
      ensures table.spots == AfterMovedFiles(old(table.spots), in0, level)
    {
      hide AfterMoves;
      var i := 0;
      assert in0[..0] == [];
      while i < |in0|
        invariant 0 <= i <= |in0| && table.spots == AfterMovedFiles(old(table.spots), in0[..i], level)
      {
        assert in0[..i+1][..i] == in0[..i] && in0[..i+1][i] == in0[i];
        if in0[i].table.index != [] {
          table.MoveFile(in0[i], level);
        }
        i := i + 1;
      }
      assert in0[..i] == in0;
    }

    /** Picks a file by the level's pointer and selects everything to merge with it. */
    method Select(level: nat) returns (in0: seq<OutFile>, in1: seq<OutFile>, ghost hi: u64)
      requires |pointers| == |files| && level + 1 < |files| && files[level] != [] && DbInv(Abs(), limits.invalid)
      modifies this`pointers
      ensures Picks(level, files[level], files[level + 1], in0, in1) && |pointers| == |files|
      // the file the pointer chose, and the pointer moved to the end of the upper inputs
      ensures PicksFrom(level, files[level], files[level + 1], in0, in1,
          PickedFile(files[level], old(pointers)[level]), hi)
      ensures pointers == old(pointers)[level := Some(hi)]
    {
      hide Sound, Ranged, UniqueIds, LeastClosed, Hull, Grown;
      LevelsOf(Abs(), level, limits.invalid);
      SoundLow(files[level], limits.invalid);
      var start := PickFile(level, files[level], pointers[level]);
      ghost var lo;
      var largest;
      in0, in1, lo, hi, largest := SetupOtherInputs(level, true, files[level], files[level + 1], start);
      pointers := pointers[level := Some(largest)];
      assert PicksBy(level, files[level], files[level + 1], in0, in1, PickedFile(files[level], old(pointers[level])),
          start, lo, hi);
    }

    /**
     One compaction of a level that holds files: merges them with what they overlap
     below, or moves them down unchanged if nothing does. The result is a step of the
     run model, so every level stays in order of disjoint ranges and the index exact.
     */
    method CompactLevel(level: nat, planned: nat, perFile: nat) returns (ghost c: Change)
      requires |pointers| == |files| && level + 1 < |files| && files[level] != []
      requires Sensible(limits) && DbInv(Abs(), limits.invalid)
      modifies this`files, this`pointers, this`clock, table
      ensures |pointers| == |files| && Steps(old(Abs()), c, Abs(), limits) && DbInv(Abs(), limits.invalid)
      ensures Complete(c, limits) && IndexOk(old(Abs()).levels) ==> IndexOk(Abs().levels)
      // it starts from the file the pointer chose, and leaves the pointer at the end of the upper inputs
      ensures !c.Flush? && c.level == level && PickedFile(old(files)[level], old(pointers)[level]) in c.in0
      ensures forall lo, hi :: Hull(c.in0, lo, hi) ==> pointers == old(pointers)[level := Some(hi)]
    {
      hide Sound, Ranged, Picks, DbInv, IndexOk, Complete, Steps, Hull, PickedFile;
      ghost var was := Abs();
      var in0, in1;
      ghost var hi;
      in0, in1, hi := Select(level);
      PickedIn(level, files[level], files[level + 1], in0, in1, PickedFile(files[level], old(pointers)[level]), hi);
      c := Advance(level, in0, in1, planned, perFile);
      StepKeeps(was, c, Abs(), limits);
      if Complete(c, limits) && IndexOk(was.levels) {
        StepIndex(was, c, Abs(), limits);
      }
    }

    /** Merges the selected files into the next level, or moves them there. */
    method Advance(level: nat, in0: seq<OutFile>, in1: seq<OutFile>, planned: nat, perFile: nat)
        returns (ghost c: Change)
      requires level + 1 < |files| && Picks(level, files[level], files[level + 1], in0, in1)
      requires Sensible(limits) && DbInv(Abs(), limits.invalid)
      modifies this`files, this`clock, table
      ensures |files| == |old(files)| && Steps(old(Abs()), c, Abs(), limits)
      ensures !c.Flush? && c.level == level && c.in0 == in0
    {
      hide Sound, Ranged, Picks, AllSound, UniqueIds, AllRanged, ByMin;
      ghost var was := Abs();
      LevelsOf(was, level, limits.invalid);
      PickedRanged(level, files[level], files[level + 1], in0, in1);
      if level > 0 && in1 == [] {
        MoveAll(in0, level);
        files := files[level := Without(files[level], in0)][level + 1 := ByMin(Without(files[level + 1], in1) + in0)];
        c := Move(level, in0);
      } else {
        c := MergeDown(level, in0, in1, planned, perFile);
      }
    }

    method MergeDown(level: nat, in0: seq<OutFile>, in1: seq<OutFile>, planned: nat, perFile: nat)
        returns (ghost c: Change)
      requires level + 1 < |files| && (level == 0 || in1 != [])
      requires Picks(level, files[level], files[level + 1], in0, in1)
      requires Sensible(limits) && TwoLevels(level, files[level], files[level + 1], limits.invalid)
      modifies this`files, this`clock, table
      ensures |files| == |old(files)| && Steps(old(Abs()), c, Abs(), limits)
      ensures c.Compact? && c.level == level && c.in0 == in0
    {
      hide Sound, Ranged, Picks, MergedInto, Writing, FreshIds, ByMin, Concat, AfterFiles, SortedEdges, AllOf;
      PickedRanged(level, files[level], files[level + 1], in0, in1);
      var parts := MergeInputs(level, in0, in1, planned, perFile, limits.invalid);
      ghost var ways := MergingGivesParts(level, in0, in1, parts, limits.invalid);
      var outs, time;
      ghost var bounds;
      outs, time, bounds := WriteParts(parts, limits, clock);
      var out := Flatten(outs);
      RecordAll(out, level, set f | f in in0 :: f.id);
      files := files[level := Without(files[level], in0)][level + 1 := ByMin(Without(files[level + 1], in1) + out)];
      clock := time;
      c := Compact(level, in0, in1, parts, bounds, outs, out);
    }
  }
}
