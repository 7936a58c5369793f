/**
 The levels of a database over any sequence of memtable flushes, compactions and
 level moves. A compaction is what the code does: pick a file, select the inputs,
 merge them, write the outputs, record them in the level index. Disjoint ranges on
 every level below the first, unique file ids and an exact index are all derived.
 */
module LevelRuns {
  import opened Records
  import opened Topology
  import opened Interleaving
  import opened EdgeMerge
  import opened TableWriter
  import opened TableStreams
  import opened CompactionInputs
  import opened LevelIndex
  import opened CompactionRun
  import opened ParallelMerge

  datatype Db = Db(levels: Levels, clock: nat)

  datatype Change =
    | Flush(file: OutFile)
    | Compact(
        level: nat, in0: seq<OutFile>, in1: seq<OutFile>,
        parts: seq<seq<Edge>>,       // what each worker wrote; one part unless the merge was planned in parallel
        bounds: seq<seq<nat>>,       // where each worker began a new file
        outs: seq<seq<OutFile>>,     // the files each worker published
        order: seq<OutFile>)         // those files as they reached the level index
    | Move(level: nat, in0: seq<OutFile>)

  // ---- One step ----

  /** The selection of `PickFile` and `SetupOtherInputs`. */
  ghost predicate Picks(level: nat, upper: seq<OutFile>, lower: seq<OutFile>, in0: seq<OutFile>, in1: seq<OutFile>) {
    exists f, start, lo, hi :: PicksBy(level, upper, lower, in0, in1, f, start, lo, hi)
  }

  ghost predicate PicksBy(level: nat, upper: seq<OutFile>, lower: seq<OutFile>, in0: seq<OutFile>, in1: seq<OutFile>,
                          f: OutFile, start: seq<OutFile>, lo: u64, hi: u64) {
    && f in upper && Started(level, upper, f, start)
    && Selected(upper, lower, in0, in1, lo, hi) && Stretched(upper, start, in0)
    && Grown(level, true, upper, lower, start, in0, in1) && forall g :: g in start ==> g in in0
  }

  /** Level 0 is merged file by file; deeper levels as two sorted streams. */
  ghost predicate MergedBy(level: nat, in0: seq<OutFile>, in1: seq<OutFile>, es: seq<Edge>, invalid: u64,
                           w0: seq<seq<Edge>>, w1: seq<seq<Edge>>, from: seq<nat>) {
    && InputsHold(in0, w0, invalid) && InputsHold(in1, w1, invalid)
    && IsMerge(es, from, if level == 0 then w0 + w1 else [Concat(w0), Concat(w1)])
  }

  ghost predicate Merged(level: nat, in0: seq<OutFile>, in1: seq<OutFile>, es: seq<Edge>, invalid: u64) {
    exists w0, w1, from :: MergedBy(level, in0, in1, es, invalid, w0, w1, from)
  }

  /** Level 0 may also be merged by several workers. */
  ghost predicate InParallel(in0: seq<OutFile>, in1: seq<OutFile>, parts: seq<seq<Edge>>, invalid: u64) {
    exists ways :: InputsHold(in0 + in1, ways, invalid) && Parts(parts, AllOf(ways))
  }

  ghost predicate MergedInto(level: nat, in0: seq<OutFile>, in1: seq<OutFile>, parts: seq<seq<Edge>>, invalid: u64) {
    || (|parts| == 1 && Merged(level, in0, in1, parts[0], invalid))
    || (level == 0 && InParallel(in0, in1, parts, invalid))
  }

  /** Every worker wrote its part. */
  ghost predicate Writing(parts: seq<seq<Edge>>, bounds: seq<seq<nat>>, outs: seq<seq<OutFile>>, limits: Limits) {
    && |bounds| == |outs| == |parts|
    && forall k :: 0 <= k < |parts| ==> WrittenAs(outs[k], parts[k], bounds[k], limits)
  }

  /** Every id was taken from the clock, none twice. */
  ghost predicate FreshIds(out: seq<OutFile>, clock: nat, clock': nat) {
    && clock <= clock' && (forall i :: 0 <= i < |out| ==> clock <= out[i].id < clock')
    && forall i, j :: 0 <= i < j < |out| ==> out[i].id != out[j].id
  }

  function Replaced(files: seq<seq<OutFile>>, level: nat, in0: seq<OutFile>, in1: seq<OutFile>,
                    out: seq<OutFile>): seq<seq<OutFile>>
    requires level + 1 < |files|
  {
    files[level := Without(files[level], in0)][level + 1 := ByMin(Without(files[level + 1], in1) + out)]
  }

  ghost predicate Steps(s: Db, c: Change, s': Db, limits: Limits) {
    match c
    case Flush(f) =>
      && Sound(f, limits.invalid) && f.id == s.clock && |s.levels.files| > 0
      && s' == Db(s.levels.(files := s.levels.files[0 := [f] + s.levels.files[0]]), s.clock + 1)
    case Compact(level, in0, in1, parts, bounds, outs, order) =>
      && level + 1 < |s.levels.files| && Picks(level, s.levels.files[level], s.levels.files[level + 1], in0, in1)
      && (level == 0 || in1 != [])
      && MergedInto(level, in0, in1, parts, limits.invalid) && Writing(parts, bounds, outs, limits)
      && FreshIds(Concat(outs), s.clock, s'.clock) && multiset(order) == multiset(Concat(outs))
      && s'.levels == Levels(Replaced(s.levels.files, level, in0, in1, Concat(outs)),
                             AfterFiles(s.levels.spots, order, level, Ids(in0)))
    case Move(level, in0) =>
      && 1 <= level && level + 1 < |s.levels.files| &&
        Picks(level, s.levels.files[level], s.levels.files[level + 1], in0, [])
      && s'.clock == s.clock
      && s'.levels == Levels(Replaced(s.levels.files, level, in0, [], in0), AfterMovedFiles(s.levels.spots, in0, level))
  }

  /** Every worker published its last file: the edges of that file do not fill the buffer a whole number of times. */
  ghost predicate Complete(c: Change, limits: Limits) {
    c.Compact? && limits.slots > 0 ==> forall k :: 0 <= k < |c.parts| && k < |c.bounds| && |c.bounds[k]| > 1 ==>
      !IsMultiple(|Stretch(c.parts[k], c.bounds[k], |c.bounds[k]| - 2)|, limits.slots - 1)
  }

  ghost predicate Runs(states: seq<Db>, changes: seq<Change>, limits: Limits) {
    && |states| == |changes| + 1
    && states[0].levels.files != [] && states[0].levels.spots == map[]
    && (forall l :: 0 <= l < |states[0].levels.files| ==> states[0].levels.files[l] == [])
    && forall i :: 0 <= i < |changes| ==> Steps(states[i], changes[i], states[i+1], limits)
  }

  // ---- The invariant ----

  ghost predicate AllSound(files: seq<seq<OutFile>>, clock: nat, invalid: u64) {
    forall l, f :: 0 <= l < |files| && f in files[l] ==> Sound(f, invalid) && f.id < clock
  }

  /** A file id occurs once in the whole database. */
  ghost predicate UniqueIds(files: seq<seq<OutFile>>) {
    forall l, m, f, g :: 0 <= l < |files| && 0 <= m < |files| && f in files[l] && g in files[m] && f.id == g.id ==>
        l == m && f == g
  }

  ghost predicate AllRanged(files: seq<seq<OutFile>>) {
    forall l :: 1 <= l < |files| ==> Ranged(files[l])
  }

  ghost predicate DbInv(s: Db, invalid: u64) {
    && s.levels.files != [] && AllSound(s.levels.files, s.clock, invalid)
    && UniqueIds(s.levels.files) && AllRanged(s.levels.files)
  }

  // ---- What selection gives ----

  lemma PickedRanged(level: nat, upper: seq<OutFile>, lower: seq<OutFile>, in0: seq<OutFile>, in1: seq<OutFile>)
    requires Picks(level, upper, lower, in0, in1) && Ranged(lower) && (level > 0 ==> Ranged(upper))
    ensures in0 != [] && (forall f :: f in in0 ==> f in upper) && forall f :: f in in1 ==> f in lower
    ensures Ranged(in1) && (level > 0 ==> Ranged(in0))
  {
    hide Ranged;
    var f, start, lo, hi :| PicksBy(level, upper, lower, in0, in1, f, start, lo, hi);
    MeetingRanged(lower, lo, hi);
    if level > 0 {
      if in0 == start {
        OneRanged(upper, f);
      } else {
        var a: u64, b: u64 :| in0 == Meeting(upper, a, b);
        MeetingRanged(upper, a, b);
      }
    }
  }

  lemma OneRanged(fs: seq<OutFile>, f: OutFile)
    requires Ranged(fs) && f in fs
    ensures Ranged([f])
  {}

  /** Files of the lower level that were not selected miss the whole merged range. */
  lemma RestOutside(level: nat, upper: seq<OutFile>, lower: seq<OutFile>, in0: seq<OutFile>, in1: seq<OutFile>,
                    lo: u64, hi: u64, g: OutFile)
    requires Picks(level, upper, lower, in0, in1) && Ranged(lower) && (forall f :: f in upper ==> f.min <= f.max)
    requires Hull(in0 + in1, lo, hi) && g in lower && g !in in1
    ensures !Meets(g, lo, hi) && g.min <= g.max
  {
    hide Ranged, Hull;
    var f, start, a, b :| PicksBy(level, upper, lower, in0, in1, f, start, a, b);
    RangedLow(lower);
    forall h | h in in1 ensures h.min <= h.max && Apart(h, g) {
      RangedApart(lower, h, g);
    }
    HullIsRange(upper, in0, a, b);
    RestIsOutside(upper, lower, in0, in1, a, b, lo, hi, g);
  }

  lemma HullIsRange(upper: seq<OutFile>, in0: seq<OutFile>, a: u64, b: u64)
    requires Hull(in0, a, b) && (forall f :: f in in0 ==> f in upper) && forall f :: f in upper ==> f.min <= f.max
    ensures a <= b
  {}

  // ---- What the merge gives ----

  /** Either merge yields a sorted permutation of the edges of all inputs. */
  lemma MergedIsSortedPermutation(level: nat, in0: seq<OutFile>, in1: seq<OutFile>, es: seq<Edge>, invalid: u64)
      returns (ways: seq<seq<Edge>>)
    requires Merged(level, in0, in1, es, invalid)
    ensures InputsHold(in0 + in1, ways, invalid) && SortedEdges(es) && multiset(es) == AllOf(ways)
  {
    hide SortedEdges, IsMerge, AllOf, InputsHold, Concat;
    var w0, w1, from :| MergedBy(level, in0, in1, es, invalid, w0, w1, from);
    ways := w0 + w1;
    HoldTogether(in0, w0, in1, w1, invalid);
    if level == 0 {
      MergeIsSortedPermutation(es, from, w0 + w1);
    } else {
      MergeIsSortedPermutation(es, from, [Concat(w0), Concat(w1)]);
      AllOfTwo(Concat(w0), Concat(w1));
      AllOfConcat(w0);
      AllOfConcat(w1);
      AllOfAppend(w0, w1);
    }
  }

  lemma HoldTogether(in0: seq<OutFile>, w0: seq<seq<Edge>>, in1: seq<OutFile>, w1: seq<seq<Edge>>, invalid: u64)
    requires InputsHold(in0, w0, invalid) && InputsHold(in1, w1, invalid)
    ensures InputsHold(in0 + in1, w0 + w1, invalid)
  {
    hide FileOf, SortedEdges;
  }

  lemma EdgeWithin(ins: seq<OutFile>, ways: seq<seq<Edge>>, es: seq<Edge>, lo: u64, hi: u64, invalid: u64, v: u64)
    requires InputsHold(ins, ways, invalid) && multiset(es) == AllOf(ways) && Hull(ins, lo, hi) && HasSource(es, v)
    ensures lo <= v <= hi && v < invalid
  {
    hide FileOf, SortedEdges, AllOf;
    MergedSources(es, ways, v);
    var w :| 0 <= w < |ways| && HasSource(ways[w], v);
    assert Stored(ins[w], ways[w], invalid);
    StoredRange(ins[w], ways[w], invalid, v);
    assert ins[w] in ins;
  }

  /** The merged edges lie in the range of the inputs. */
  lemma MergedWithin(ins: seq<OutFile>, ways: seq<seq<Edge>>, es: seq<Edge>, lo: u64, hi: u64, invalid: u64)
    requires InputsHold(ins, ways, invalid) && multiset(es) == AllOf(ways) && Hull(ins, lo, hi)
    ensures InRange(es, invalid) && (forall i :: 0 <= i < |es| ==> lo <= es[i].src <= hi) && es != []
  {
    hide InputsHold, AllOf, Hull;
    forall i | 0 <= i < |es| ensures lo <= es[i].src <= hi && es[i].src < invalid {
      EdgeWithin(ins, ways, es, lo, hi, invalid, es[i].src);
    }
    assert es != [] by { NotEmpty(ins, ways, es, lo, hi, invalid); }
  }

  lemma NotEmpty(ins: seq<OutFile>, ways: seq<seq<Edge>>, es: seq<Edge>, lo: u64, hi: u64, invalid: u64)
    requires InputsHold(ins, ways, invalid) && multiset(es) == AllOf(ways) && Hull(ins, lo, hi)
    ensures es != []
  {
    hide FileOf, SortedEdges, AllOf;
    var f :| f in ins && f.min == lo;
    var i :| 0 <= i < |ins| && ins[i] == f;
    FirstSource(ways[i]);
    MergedSources(es, ways, ways[i][0].src);
  }

  // ---- A compaction keeps the lower level in order ----

  /** What the invariant says about the two levels of a compaction. */
  ghost predicate TwoLevels(level: nat, upper: seq<OutFile>, lower: seq<OutFile>, invalid: u64) {
    && (forall f :: f in upper ==> Sound(f, invalid)) && (forall f :: f in lower ==> Sound(f, invalid))
    && Ranged(lower) && (level > 0 ==> Ranged(upper))
  }

  lemma SoundLow(fs: seq<OutFile>, invalid: u64)
    requires forall f :: f in fs ==> Sound(f, invalid)
    ensures forall f :: f in fs ==> f.min <= f.max
  {
    hide Sound;
    forall f | f in fs ensures f.min <= f.max {
      SoundRange(f, invalid, 0);
    }
  }

  lemma {:induction false} WithoutRanged(fs: seq<OutFile>, gone: seq<OutFile>)
    requires Ranged(fs)
    ensures Ranged(Without(fs, gone))
  {
    if fs != [] {
      RangedLast(fs);
      RangedLow(fs);
      var t, f := fs[..|fs|-1], fs[|fs|-1];
      hide Ranged;
      WithoutRanged(t, gone);
      assert f in fs;
      if f !in gone {
        RangedSnoc(Without(t, gone), f);
      }
    }
  }

  /** Either way of merging yields sorted parts, one below the other, that hold every input edge once. */
  lemma MergingGivesParts(level: nat, in0: seq<OutFile>, in1: seq<OutFile>, parts: seq<seq<Edge>>, invalid: u64)
      returns (ways: seq<seq<Edge>>)
    requires MergedInto(level, in0, in1, parts, invalid) && in0 != []
    ensures InputsHold(in0 + in1, ways, invalid) && Parts(parts, AllOf(ways))
  {
    hide SortedEdges, InputsHold, AllOf;
    if |parts| == 1 && Merged(level, in0, in1, parts[0], invalid) {
      hide Merged;
      ways := MergedIsSortedPermutation(level, in0, in1, parts[0], invalid);
      var lo, hi := HullExists(in0 + in1);
      NotEmpty(in0 + in1, ways, parts[0], lo, hi, invalid);
      OnePart(parts);
    } else {
      ways :| InputsHold(in0 + in1, ways, invalid) && Parts(parts, AllOf(ways));
    }
  }

  lemma OnePart(parts: seq<seq<Edge>>)
    requires |parts| == 1
    ensures AllOf(parts) == multiset(parts[0])
  {
    assert parts[..0] == [];
  }

  lemma PartIn(parts: seq<seq<Edge>>, k: nat, e: Edge)
    requires k < |parts| && e in parts[k]
    ensures e in Concat(parts)
  {
    AllOfConcat(parts);
    InAllOf(parts, k, e);
    assert e in multiset(Concat(parts));
  }

  ghost predicate WithinRange(es: seq<Edge>, lo: u64, hi: u64, invalid: u64) {
    forall e :: e in es ==> lo <= e.src <= hi && e.src < invalid
  }

  /** The files of one part are sound, in order, and within the part's range. */
  lemma PartFiles(parts: seq<seq<Edge>>, bounds: seq<seq<nat>>, outs: seq<seq<OutFile>>, limits: Limits, k: nat)
    requires Writing(parts, bounds, outs, limits) && k < |parts| && parts[k] != [] && SortedEdges(parts[k])
    requires InRange(parts[k], limits.invalid)
    ensures Ranged(outs[k]) && Covers(outs[k], parts[k][0].src, parts[k][|parts[k]|-1].src)
    ensures forall f :: f in outs[k] ==> Sound(f, limits.invalid)
  {
    hide SortedEdges, Sound, Ranged, Covers, Splits, FilesAre, IsMultiple, InRange;
    assert WrittenAs(outs[k], parts[k], bounds[k], limits);
    OutputsRanged(parts[k], bounds[k], outs[k], limits.invalid);
  }

  ghost predicate OutsApart(outs: seq<seq<OutFile>>) {
    forall v, w, f, g :: 0 <= v < w < |outs| && f in outs[v] && g in outs[w] ==> f.max < g.min
  }

  lemma {:induction false} ConcatRanged(outs: seq<seq<OutFile>>)
    requires OutsApart(outs) && forall k :: 0 <= k < |outs| ==> Ranged(outs[k])
    ensures Ranged(Concat(outs))
  {
    if outs != [] {
      var n := |outs| - 1;
      ConcatRanged(outs[..n]);
      var a, b := Concat(outs[..n]), outs[n];
      AllOfConcat(outs[..n]);
      forall f | f in a ensures forall g :: g in b ==> f.max < g.min {
        assert f in multiset(a);
        var v := FromSomeWay(outs[..n], f);
        assert f in outs[v];
      }
      hide Concat;
      RangedAppend(a, b);
    }
  }

  lemma RangedAppend(a: seq<OutFile>, b: seq<OutFile>)
    requires Ranged(a) && Ranged(b) && forall f, g :: f in a && g in b ==> f.max < g.min
    ensures Ranged(a + b)
  {
    var s := a + b;
    forall i, j | 0 <= i < j < |s| ensures s[i].max < s[j].min {
      if i < |a| <= j {
        assert a[i] in a && b[j - |a|] in b;
      }
    }
  }

  lemma InConcat(outs: seq<seq<OutFile>>, f: OutFile) returns (k: nat)
    requires f in Concat(outs)
    ensures k < |outs| && f in outs[k]
  {
    AllOfConcat(outs);
    assert f in multiset(Concat(outs));
    k := FromSomeWay(outs, f);
  }

  /** All published files are sound, in order, and within the range of the merge. */
  lemma AllFilesRanged(parts: seq<seq<Edge>>, bounds: seq<seq<nat>>, outs: seq<seq<OutFile>>, limits: Limits, lo: u64,
                       hi: u64)
    requires Writing(parts, bounds, outs, limits) && PartsApart(parts)
    requires forall k :: 0 <= k < |parts| ==> parts[k] != [] && SortedEdges(parts[k])
    requires forall k :: 0 <= k < |parts| ==> WithinRange(parts[k], lo, hi, limits.invalid)
    ensures Ranged(Concat(outs)) && Covers(Concat(outs), lo, hi) && forall f :: f in Concat(outs) ==>
        Sound(f, limits.invalid)
  {
    hide SortedEdges, Sound, Ranged, Concat;
    forall k | 0 <= k < |parts|
      ensures Ranged(outs[k]) && Covers(outs[k], parts[k][0].src, parts[k][|parts[k]|-1].src)
      ensures forall f :: f in outs[k] ==> Sound(f, limits.invalid)
      ensures lo <= parts[k][0].src && parts[k][|parts[k]|-1].src <= hi
    {
      assert WithinRange(parts[k], lo, hi, limits.invalid);
      assert InRange(parts[k], limits.invalid);
      assert parts[k][0] in parts[k] && parts[k][|parts[k]|-1] in parts[k];
      PartFiles(parts, bounds, outs, limits, k);
    }
    hide Writing, WithinRange;
    forall v, w, f: OutFile, g: OutFile | 0 <= v < w < |outs| && f in outs[v] && g in outs[w] ensures f.max < g.min {
      assert Covers(outs[v], parts[v][0].src, parts[v][|parts[v]|-1].src);
      assert Covers(outs[w], parts[w][0].src, parts[w][|parts[w]|-1].src);
      assert parts[v][|parts[v]|-1] in parts[v] && parts[w][0] in parts[w];
    }
    ConcatRanged(outs);
    forall f | f in Concat(outs) ensures lo <= f.min && f.max <= hi && Sound(f, limits.invalid) {
      var k := InConcat(outs, f);
      assert Covers(outs[k], parts[k][0].src, parts[k][|parts[k]|-1].src);
    }
  }

  /**
   However many of its outputs are published, a compaction leaves the level it writes
   to in order of disjoint ranges, and no remaining file shares a merged vertex.
   */
  lemma CompactionKeepsDisjoint(level: nat, upper: seq<OutFile>, lower: seq<OutFile>, in0: seq<OutFile>,
                                in1: seq<OutFile>,
                                parts: seq<seq<Edge>>, bounds: seq<seq<nat>>, outs: seq<seq<OutFile>>, limits: Limits)
      returns (ways: seq<seq<Edge>>)
    requires TwoLevels(level, upper, lower, limits.invalid) && Picks(level, upper, lower, in0, in1)
    requires MergedInto(level, in0, in1, parts, limits.invalid) && Writing(parts, bounds, outs, limits)
    ensures var all := Without(lower, in1) + Concat(outs); Ranged(ByMin(all)) && multiset(ByMin(all)) == multiset(all)
    ensures Ranged(Concat(outs)) && forall f :: f in Concat(outs) ==> Sound(f, limits.invalid)
    ensures forall v :: AnyHas(Without(lower, in1), v) ==> !HasSource(Concat(parts), v)
    ensures InputsHold(in0 + in1, ways, limits.invalid) && Parts(parts, AllOf(ways))
    ensures InRange(Concat(parts), limits.invalid)
    ensures multiset(Concat(parts)) == AllOf(ways)
  {
    hide Sound, Ranged, MergedInto, Picks, SortedEdges, InputsHold, AllOf, Has, HasSource, Hull, Concat, PartsApart;
    hide Writing;
    var rest, out, es := Without(lower, in1), Concat(outs), Concat(parts);
    PickedRanged(level, upper, lower, in0, in1);
    ways := MergingGivesParts(level, in0, in1, parts, limits.invalid);
    PartsSorted(parts);
    var lo, hi := HullExists(in0 + in1);
    MergedWithin(in0 + in1, ways, es, lo, hi, limits.invalid);
    forall k | 0 <= k < |parts| ensures WithinRange(parts[k], lo, hi, limits.invalid) {
      PartWithin(parts, k, lo, hi, limits.invalid);
    }
    AllFilesRanged(parts, bounds, outs, limits, lo, hi);
    SoundLow(upper, limits.invalid);
    forall g | g in rest ensures !Meets(g, lo, hi) && g.min <= g.max {
      RestOutside(level, upper, lower, in0, in1, lo, hi, g);
    }
    WithoutRanged(lower, in1);
    RangedLow(out);
    forall g, f | g in rest && f in out ensures Apart(g, f) {
      assert lo <= f.min && f.max <= hi;
    }
    TogetherDisjoint(rest, out);
    ByMinRanged(rest + out);
    forall v | AnyHas(rest, v) ensures !HasSource(es, v) {
      MissesRest(rest, lower, es, lo, hi, limits.invalid, v);
    }
  }

  lemma PartWithin(parts: seq<seq<Edge>>, k: nat, lo: u64, hi: u64, invalid: u64)
    requires k < |parts| && InRange(Concat(parts), invalid)
    requires forall i :: 0 <= i < |Concat(parts)| ==> lo <= Concat(parts)[i].src <= hi
    ensures WithinRange(parts[k], lo, hi, invalid)
  {
    hide Concat;
    forall e | e in parts[k] ensures lo <= e.src <= hi && e.src < invalid {
      PartIn(parts, k, e);
      var i :| 0 <= i < |Concat(parts)| && Concat(parts)[i] == e;
    }
  }

  lemma MissesRest(rest: seq<OutFile>, lower: seq<OutFile>, es: seq<Edge>, lo: u64, hi: u64, invalid: u64, v: u64)
    requires (forall g :: g in rest ==> g in lower && !Meets(g, lo, hi))
    requires (forall f :: f in lower ==> Sound(f, invalid))
    requires AnyHas(rest, v) && forall i :: 0 <= i < |es| ==> lo <= es[i].src <= hi
    ensures !HasSource(es, v)
  {
    hide Sound, Has;
    var g :| g in rest && Has(g, v);
    SoundRange(g, invalid, v);
  }

  // ---- A move keeps it too ----

  lemma MoveKeepsDisjoint(level: nat, upper: seq<OutFile>, lower: seq<OutFile>, in0: seq<OutFile>, invalid: u64)
    requires TwoLevels(level, upper, lower, invalid) && Picks(level, upper, lower, in0, []) && level > 0
    ensures var all := Without(lower, []) + in0; Ranged(ByMin(all)) && multiset(ByMin(all)) == multiset(all)
    ensures Ranged(in0) && forall f, g :: f in in0 && g in lower ==> Apart(f, g)
  {
    hide Sound, Ranged, Picks, Hull;
    PickedRanged(level, upper, lower, in0, []);
    var lo, hi := HullExists(in0 + []);
    SoundLow(upper, invalid);
    assert in0 + [] == in0;
    forall f, g | f in in0 && g in lower ensures Apart(f, g) && Apart(g, f) {
      RestOutside(level, upper, lower, in0, [], lo, hi, g);
      HullCovers(in0, lo, hi, f);
    }
    WithoutRanged(lower, []);
    TogetherDisjoint(Without(lower, []), in0);
    ByMinRanged(Without(lower, []) + in0);
  }

  lemma HullCovers(fs: seq<OutFile>, lo: u64, hi: u64, f: OutFile)
    requires Hull(fs, lo, hi) && f in fs
    ensures lo <= f.min && f.max <= hi
  {}

  // ---- Every step keeps the invariant ----

  lemma LevelsOf(s: Db, level: nat, invalid: u64)
    requires DbInv(s, invalid) && level + 1 < |s.levels.files|
    ensures TwoLevels(level, s.levels.files[level], s.levels.files[level + 1], invalid)
  {
    hide Sound, Ranged;
  }

  lemma SameMembers(a: seq<OutFile>, b: seq<OutFile>)
    requires multiset(a) == multiset(b)
    ensures SameFiles(a, b)
  {
    forall f ensures f in a <==> f in b {
      assert f in a <==> f in multiset(a);
      assert f in b <==> f in multiset(b);
    }
  }

  /** A file of the new levels was there before, or is a new one on the level written to. */
  ghost predicate Origin(files: seq<seq<OutFile>>, files': seq<seq<OutFile>>, lower: nat, out: seq<OutFile>) {
    && |files'| == |files|
    && forall l, f :: 0 <= l < |files| && f in files'[l] ==> f in files[l] || (l == lower && f in out)
  }

  lemma OutIds(out: seq<OutFile>, clock: nat, clock': nat, f: OutFile, g: OutFile)
    requires FreshIds(out, clock, clock') && f in out
    ensures clock <= f.id < clock' && (g in out && f.id == g.id ==> f == g)
  {
    var i :| 0 <= i < |out| && out[i] == f;
    if g in out {
      var j :| 0 <= j < |out| && out[j] == g;
    }
  }

  /** Where a file of the new levels comes from decides its id. */
  lemma IdOf(files: seq<seq<OutFile>>, files': seq<seq<OutFile>>, lower: nat, out: seq<OutFile>, clock: nat,
             clock': nat,
             invalid: u64, l: nat, f: OutFile)
    requires Origin(files, files', lower, out) && AllSound(files, clock, invalid) && FreshIds(out, clock, clock')
    requires l < |files| && f in files'[l] && forall g :: g in out ==> Sound(g, invalid)
    ensures if f.id < clock then f in files[l] else l == lower && f in out
    ensures f.id < clock' && Sound(f, invalid)
  {
    hide Sound;
    if f in out {
      OutIds(out, clock, clock', f, f);
    }
  }

  lemma NewIds(files: seq<seq<OutFile>>, files': seq<seq<OutFile>>, lower: nat, out: seq<OutFile>,
               clock: nat, clock': nat, invalid: u64)
    requires Origin(files, files', lower, out) && AllSound(files, clock, invalid) && UniqueIds(files)
    requires FreshIds(out, clock, clock') && forall f :: f in out ==> Sound(f, invalid)
    ensures AllSound(files', clock', invalid) && UniqueIds(files')
  {
    assert |files'| == |files|;
    hide Sound, Origin, FreshIds;
    forall l, f | 0 <= l < |files| && f in files'[l] ensures Sound(f, invalid) && f.id < clock' {
      IdOf(files, files', lower, out, clock, clock', invalid, l, f);
    }
    hide AllSound;
    forall l, m, f, g | 0 <= l < |files| && 0 <= m < |files| && f in files'[l] && g in files'[m] && f.id == g.id
      ensures l == m && f == g
    {
      IdOf(files, files', lower, out, clock, clock', invalid, l, f);
      IdOf(files, files', lower, out, clock, clock', invalid, m, g);
      if f in out {
        OutIds(out, clock, clock', f, g);
      }
    }
  }

  lemma FlushKeeps(s: Db, f: OutFile, s': Db, limits: Limits)
    requires DbInv(s, limits.invalid) && Steps(s, Flush(f), s', limits)
    ensures DbInv(s', limits.invalid)
  {
    hide Sound, Ranged;
    NewIds(s.levels.files, s'.levels.files, 0, [f], s.clock, s'.clock, limits.invalid);
  }

  lemma CompactOrigin(s: Db, level: nat, in0: seq<OutFile>, in1: seq<OutFile>, out: seq<OutFile>)
    requires level + 1 < |s.levels.files|
    requires SameFiles(ByMin(Without(s.levels.files[level + 1], in1) + out),
        Without(s.levels.files[level + 1], in1) + out)
    ensures Origin(s.levels.files, Replaced(s.levels.files, level, in0, in1, out), level + 1, out)
  {
    var files := s.levels.files;
    var files' := Replaced(files, level, in0, in1, out);
    hide ByMin;
    forall l, f | 0 <= l < |files| && f in files'[l] ensures f in files[l] || (l == level + 1 && f in out) {
      if l == level + 1 {
        assert f in Without(files[level + 1], in1) + out;
      }
    }
  }

  lemma CompactKeeps(s: Db, c: Change, s': Db, limits: Limits)
    requires DbInv(s, limits.invalid) && c.Compact? && Steps(s, c, s', limits)
    ensures DbInv(s', limits.invalid)
  {
    hide Sound, Ranged, Picks, MergedInto, Writing, FreshIds, AfterFiles, ByMin, Concat, InputsHold, Parts, AllOf;
    var files, out := s.levels.files, Concat(c.outs);
    LevelsOf(s, c.level, limits.invalid);
    var _ := CompactionKeepsDisjoint(c.level, files[c.level], files[c.level + 1], c.in0, c.in1, c.parts, c.bounds,
      c.outs, limits);
    hide InRange, AnyHas, HasSource, TwoLevels;
    var all := Without(files[c.level + 1], c.in1) + out;
    SameMembers(ByMin(all), all);
    CompactOrigin(s, c.level, c.in0, c.in1, out);
    NewIds(files, s'.levels.files, c.level + 1, out, s.clock, s'.clock, limits.invalid);
    if c.level > 0 {
      WithoutRanged(files[c.level], c.in0);
    }
  }

  lemma MovedIds(files: seq<seq<OutFile>>, files': seq<seq<OutFile>>, level: nat, in0: seq<OutFile>, clock: nat,
                 invalid: u64)
    requires level + 1 < |files| == |files'| && AllSound(files, clock, invalid) && UniqueIds(files)
    requires (forall f :: f in in0 ==> f in files[level]) && files'[level] == Without(files[level], in0)
    requires forall f :: f in files'[level + 1] <==> f in files[level + 1] || f in in0
    requires forall l :: 0 <= l < |files| && l != level && l != level + 1 ==> files'[l] == files[l]
    ensures AllSound(files', clock, invalid) && UniqueIds(files')
  {
    hide Sound;
    forall l, f | 0 <= l < |files| && f in files'[l]
      ensures f in files[l] || (l == level + 1 && f in files[level] && f in in0) {
    }
  }

  lemma MoveKeeps(s: Db, c: Change, s': Db, limits: Limits)
    requires DbInv(s, limits.invalid) && c.Move? && Steps(s, c, s', limits)
    ensures DbInv(s', limits.invalid)
  {
    hide Sound, Ranged, Picks, AfterMovedFiles, ByMin, UniqueIds, AllSound;
    var files := s.levels.files;
    LevelsOf(s, c.level, limits.invalid);
    MoveKeepsDisjoint(c.level, files[c.level], files[c.level + 1], c.in0, limits.invalid);
    PickedRanged(c.level, files[c.level], files[c.level + 1], c.in0, []);
    hide TwoLevels, Apart;
    var all := Without(files[c.level + 1], []) + c.in0;
    SameMembers(ByMin(all), all);
    MovedIds(files, s'.levels.files, c.level, c.in0, s.clock, limits.invalid);
    WithoutRanged(files[c.level], c.in0);
  }

  lemma StepKeeps(s: Db, c: Change, s': Db, limits: Limits)
    requires DbInv(s, limits.invalid) && Steps(s, c, s', limits)
    ensures DbInv(s', limits.invalid)
  {
    hide DbInv, Steps;
    match c {
      case Flush(f) => FlushKeeps(s, f, s', limits);
      case Compact(_, _, _, _, _, _, _) => CompactKeeps(s, c, s', limits);
      case Move(_, _) => MoveKeeps(s, c, s', limits);
    }
  }

  /**
   After any sequence of flushes, compactions and moves from empty levels, the files
   of every level below the first lie in order of pairwise disjoint ranges, every
   file stores sorted edges of its range, and no file id occurs twice.
   */
  lemma {:induction false} LevelsStayDisjoint(states: seq<Db>, changes: seq<Change>, limits: Limits, i: nat)
    requires Runs(states, changes, limits) && i < |states|
    ensures AllRanged(states[i].levels.files) && UniqueIds(states[i].levels.files)
    ensures AllSound(states[i].levels.files, states[i].clock, limits.invalid) && states[i].levels.files != []
  {
    hide Steps;
    if i > 0 {
      LevelsStayDisjoint(states, changes, limits, i - 1);
      hide AllRanged, UniqueIds, AllSound;
      StepKeeps(states[i-1], changes[i-1], states[i], limits);
    }
  }

  // ---- The index ----

  /** In whatever order files with disjoint ranges are recorded, they share no vertex. */
  lemma PermutedShareNone(out: seq<OutFile>, order: seq<OutFile>, invalid: u64)
    requires Ranged(out) && multiset(order) == multiset(out) && forall f :: f in out ==> Sound(f, invalid)
    ensures WellKeyed(order) && NoneShared(order)
  {
    hide Sound, Has, KeysIncrease;
    SameMembers(order, out);
    forall f | f in order ensures KeysIncrease(f.table.index) {
      SoundRange(f, invalid, 0);
    }
    forall i, j, v | 0 <= i < j < |order| && Has(order[i], v) ensures !Has(order[j], v) {
      assert order[i] in order && order[j] in order;
      TwoPlaces(out, order, i, j);
      RangedApart(out, order[i], order[j]);
      SoundRange(order[i], invalid, v);
      SoundRange(order[j], invalid, v);
    }
  }

  lemma TwoPlaces(out: seq<OutFile>, order: seq<OutFile>, i: nat, j: nat)
    requires Ranged(out) && multiset(order) == multiset(out) && i < j < |order|
    ensures order[i] != order[j]
  {
    if order[i] == order[j] {
      var f := order[i];
      assert order == order[..i] + [f] + order[i+1..j] + [f] + order[j+1..];
      assert multiset(order)[f] >= 2;
      OnceOnly(out, f);
    }
  }

  lemma {:induction false} OnceOnly(fs: seq<OutFile>, f: OutFile)
    requires Ranged(fs)
    ensures multiset(fs)[f] <= 1
  {
    hide Ranged;
    if fs != [] {
      var t, g := fs[..|fs|-1], fs[|fs|-1];
      RangedLast(fs);
      RangedLow(fs);
      OnceOnly(t, f);
      assert g in fs;
      assert g !in t;
      assert multiset(fs) == multiset(t) + multiset{g} by { assert fs == t + [g]; }
    }
  }

  /** When every worker published its last file, the outputs hold every merged vertex. */
  lemma PartsCovered(c: Change, limits: Limits, v: u64)
    requires c.Compact? && Writing(c.parts, c.bounds, c.outs, limits) && Complete(c, limits)
    requires forall k :: 0 <= k < |c.parts| ==>
        c.parts[k] != [] && SortedEdges(c.parts[k]) && InRange(c.parts[k], limits.invalid)
    ensures AnyHas(Concat(c.outs), v) <==> HasSource(Concat(c.parts), v)
  {
    hide SortedEdges, Has, Concat, Splits, FilesAre, IsMultiple, InRange;
    forall k | 0 <= k < |c.parts| ensures AnyHas(c.outs[k], v) <==> HasSource(c.parts[k], v) {
      assert WrittenAs(c.outs[k], c.parts[k], c.bounds[k], limits);
      OutputsCoverIff(c.parts[k], c.bounds[k], c.outs[k], limits.invalid);
    }
    if AnyHas(Concat(c.outs), v) {
      var f :| f in Concat(c.outs) && Has(f, v);
      var k := InConcat(c.outs, f);
      var o :| 0 <= o < |c.parts[k]| && c.parts[k][o].src == v;
      PartIn(c.parts, k, c.parts[k][o]);
    }
    if HasSource(Concat(c.parts), v) {
      var o :| 0 <= o < |Concat(c.parts)| && Concat(c.parts)[o].src == v;
      AllOfConcat(c.parts);
      assert Concat(c.parts)[o] in multiset(Concat(c.parts));
      var k := FromSomeWay(c.parts, Concat(c.parts)[o]);
      assert HasSource(c.parts[k], v);
      var f :| f in c.outs[k] && Has(f, v);
      AllOfConcat(c.outs);
      InAllOf(c.outs, k, f);
      assert f in multiset(Concat(c.outs));
    }
  }

  lemma PartInRange(parts: seq<seq<Edge>>, k: nat, invalid: u64)
    requires k < |parts| && InRange(Concat(parts), invalid)
    ensures InRange(parts[k], invalid)
  {
    hide Concat;
    forall i | 0 <= i < |parts[k]| ensures parts[k][i].src < invalid {
      PartIn(parts, k, parts[k][i]);
      var o :| 0 <= o < |Concat(parts)| && Concat(parts)[o] == parts[k][i];
    }
  }

  /** A complete compaction is a rewrite in the sense of the level index. */
  lemma CompactRewrites(s: Db, c: Change, s': Db, limits: Limits)
    requires DbInv(s, limits.invalid) && c.Compact? && Steps(s, c, s', limits) && Complete(c, limits)
    ensures Rewrites(c.in0, c.in1, Without(s.levels.files[c.level + 1], c.in1), c.order)
    ensures var all :=
        Without(s.levels.files[c.level + 1], c.in1) + c.order; SameFiles(s'.levels.files[c.level + 1], all)
  {
    hide Sound, Ranged, Picks, MergedInto, Writing, FreshIds, AfterFiles, ByMin, SortedEdges, InRange, HasSource;
    hide InputsHold, AllOf;
    hide Has, Concat, Complete, WellKeyed, NoneShared, PartsApart;
    var files, out, es := s.levels.files, Concat(c.outs), Concat(c.parts);
    LevelsOf(s, c.level, limits.invalid);
    var ways := CompactionKeepsDisjoint(c.level, files[c.level], files[c.level + 1], c.in0, c.in1, c.parts, c.bounds,
      c.outs, limits);
    var rest := Without(files[c.level + 1], c.in1);
    PermutedShareNone(out, c.order, limits.invalid);
    SameMembers(c.order, out);
    SameMembers(ByMin(rest + out), rest + out);
    forall k | 0 <= k < |c.parts| ensures InRange(c.parts[k], limits.invalid) {
      PartInRange(c.parts, k, limits.invalid);
    }
    forall v ensures AnyHas(c.order, v) <==> HasSource(es, v) {
      PartsCovered(c, limits, v);
      SameHas(c.order, out, v);
    }
    forall v ensures AnyHas(c.order, v) <==> AnyHas(c.in0, v) || AnyHas(c.in1, v) {
      MergedSources(es, ways, v);
      InputSources(c.in0 + c.in1, ways, limits.invalid, v);
      AnyHasSplit(c.in0, c.in1, v);
    }
  }

  lemma SameHas(a: seq<OutFile>, b: seq<OutFile>, v: u64)
    requires SameFiles(a, b)
    ensures AnyHas(a, v) <==> AnyHas(b, v)
  {
    hide Has;
  }

  lemma CompactIndex(s: Db, c: Change, s': Db, limits: Limits)
    requires DbInv(s, limits.invalid) && c.Compact? && Steps(s, c, s', limits) && Complete(c, limits)
    requires IndexOk(s.levels)
    ensures IndexOk(s'.levels)
  {
    hide Sound, Ranged, Picks, MergedInto, Writing, FreshIds, AfterFiles, ByMin, IndexOk, Concat, Rewrites, Complete;
    var files := s.levels.files;
    LevelsOf(s, c.level, limits.invalid);
    PickedRanged(c.level, files[c.level], files[c.level + 1], c.in0, c.in1);
    CompactRewrites(s, c, s', limits);
    hide SameFiles;
    assert Compacts(s.levels, s'.levels, c.level, c.in0, c.in1, c.order);
    hide Compacts;
    CompactionKeepsIndex(s.levels, s'.levels, c.level, c.in0, c.in1, c.order);
  }

  /** Files with disjoint ranges share no vertex. */
  lemma RangedShareNone(fs: seq<OutFile>, invalid: u64)
    requires Ranged(fs) && forall f :: f in fs ==> Sound(f, invalid)
    ensures WellKeyed(fs) && NoneShared(fs)
  {
    hide Sound, Has, KeysIncrease;
    forall f | f in fs ensures KeysIncrease(f.table.index) {
      SoundRange(f, invalid, 0);
    }
    forall i, j, v | 0 <= i < j < |fs| && Has(fs[i], v) ensures !Has(fs[j], v) {
      assert fs[i] in fs && fs[j] in fs;
      SoundRange(fs[i], invalid, v);
      SoundRange(fs[j], invalid, v);
    }
  }

  lemma ApartShareNone(a: seq<OutFile>, b: seq<OutFile>, invalid: u64, v: u64)
    requires (forall f :: f in a || f in b ==> Sound(f, invalid)) && forall f, g :: f in a && g in b ==> Apart(f, g)
    ensures AnyHas(a, v) ==> !AnyHas(b, v)
  {
    hide Sound, Has;
    if AnyHas(a, v) && AnyHas(b, v) {
      var f :| f in a && Has(f, v);
      var g :| g in b && Has(g, v);
      SoundRange(f, invalid, v);
      SoundRange(g, invalid, v);
      assert false;
    }
  }

  lemma MoveIndex(s: Db, c: Change, s': Db, limits: Limits)
    requires DbInv(s, limits.invalid) && c.Move? && Steps(s, c, s', limits) && IndexOk(s.levels)
    ensures IndexOk(s'.levels)
  {
    hide Sound, Ranged, Picks, AfterMovedFiles, ByMin, UniqueIds, AllSound, IndexOk, AnyHas;
    var files := s.levels.files;
    LevelsOf(s, c.level, limits.invalid);
    var upper, lower := files[c.level], files[c.level + 1];
    MoveKeepsDisjoint(c.level, upper, lower, c.in0, limits.invalid);
    PickedRanged(c.level, upper, lower, c.in0, []);
    RangedShareNone(c.in0, limits.invalid);
    forall v | AnyHas(c.in0, v) ensures !AnyHas(lower, v) && !AnyHas(Without(upper, c.in0), v) {
      ApartShareNone(c.in0, lower, limits.invalid, v);
      forall f, g | f in c.in0 && g in Without(upper, c.in0) ensures Apart(f, g) {
        RangedApart(upper, f, g);
      }
      ApartShareNone(c.in0, Without(upper, c.in0), limits.invalid, v);
    }
    SameMembers(ByMin(Without(lower, []) + c.in0), Without(lower, []) + c.in0);
    hide Apart, WellKeyed, NoneShared;
    assert Moves(s.levels, s'.levels, c.level, c.in0);
    hide Moves;
    MoveKeepsIndex(s.levels, s'.levels, c.level, c.in0);
  }

  lemma FlushIndex(s: Db, c: Change, s': Db, limits: Limits)
    requires c.Flush? && Steps(s, c, s', limits) && IndexOk(s.levels)
    ensures IndexOk(s'.levels)
  {
    hide LevelOk;
    forall l | 1 <= l < |s'.levels.files| ensures LevelOk(s'.levels.files[l], s'.levels.spots, l) {
      assert s'.levels.files[l] == s.levels.files[l];
    }
  }

  lemma StepIndex(s: Db, c: Change, s': Db, limits: Limits)
    requires DbInv(s, limits.invalid) && Steps(s, c, s', limits) && Complete(c, limits) && IndexOk(s.levels)
    ensures IndexOk(s'.levels)
  {
    hide DbInv, Steps, IndexOk, Complete;
    match c {
      case Flush(_) => FlushIndex(s, c, s', limits);
      case Compact(_, _, _, _, _, _, _) => CompactIndex(s, c, s', limits);
      case Move(_, _) => MoveIndex(s, c, s', limits);
    }
  }

  lemma EmptyIndex(s: Levels)
    requires s.spots == map[] && forall l :: 0 <= l < |s.files| ==> s.files[l] == []
    ensures IndexOk(s)
  {
    assert forall v: u64, loc: Loc :: !AnyNames([], v, loc);
  }

  /**
   If every compaction published its last output, the entry of a vertex on a level
   names the file there that holds it, with exactly its range, and is invalid when
   no file does, after any sequence of flushes, compactions and moves.
   */
  lemma {:induction false} IndexAgreesWithFiles(states: seq<Db>, changes: seq<Change>, limits: Limits, i: nat)
    requires Runs(states, changes, limits) && i < |states| && forall k :: 0 <= k < |changes| ==>
        Complete(changes[k], limits)
    ensures IndexOk(states[i].levels)
  {
    hide Steps, IndexOk, Complete, AllRanged, UniqueIds, AllSound;
    if i == 0 {
      EmptyIndex(states[0].levels);
    } else {
      IndexAgreesWithFiles(states, changes, limits, i - 1);
      LevelsStayDisjoint(states, changes, limits, i - 1);
      StepIndex(states[i-1], changes[i-1], states[i], limits);
    }
  }
}
