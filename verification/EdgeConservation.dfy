/**
 Edges through compactions: over any sequence of flushes, compactions and moves the
 files of all levels together hold every flushed edge exactly once, but for the last
 output files that were never published.
 */
module EdgeConservation {
  import opened Records
  import opened Topology
  import opened Interleaving
  import opened EdgeMerge
  import TW = TableWriter
  import opened TableStreams
  import opened CompactionInputs
  import opened LevelIndex
  import opened CompactionRun
  import opened ParallelMerge
  import opened LevelRuns

  type OutFile = TW.OutFile

  type Limits = TW.Limits

  // ---- The edges of a file ----

  /** A file determines the edges it stores. */
  lemma StoredOnce(f: OutFile, v: seq<Edge>, w: seq<Edge>, invalid: u64)
    requires Stored(f, v, invalid) && Stored(f, w, invalid)
    ensures v == w
  {
    hide SortedEdges, TW.IndexOf, TW.Runs, InRange;
    var y := TW.IndexOf(v);
    assert f.table.index[..|f.table.index|-1] == y == TW.IndexOf(w);
    assert |v| == |f.table.bodies| == |w|;
    TW.IndexRuns(v);
    TW.IndexRuns(w);
    forall o | 0 <= o < |v| ensures v[o] == w[o] {
      assert f.table.bodies[o] == v[o].body == w[o].body && f.rows[o] == v[o].props == w[o].props;
      SameSourceAt(v, w, y, o);
    }
  }

  lemma SameSourceAt(v: seq<Edge>, w: seq<Edge>, y: seq<Index>, o: nat)
    requires TW.Runs(v, y) && TW.Runs(w, y) && |v| == |w| && o < |v|
    ensures v[o].src == w[o].src
  {
    var k := TW.RunOf(v, y, o);
    assert TW.SameSource(w, y[k].key, y[k].offset, TW.RunEnd(y, |w|, k));
  }

  ghost function EdgesOf(f: OutFile, invalid: u64): multiset<Edge> {
    if Sound(f, invalid) then var w :| Stored(f, w, invalid); multiset(w) else multiset{}
  }

  lemma EdgesAre(f: OutFile, w: seq<Edge>, invalid: u64)
    requires Stored(f, w, invalid)
    ensures EdgesOf(f, invalid) == multiset(w)
  {
    hide Stored;
    forall v | Stored(f, v, invalid) ensures v == w {
      StoredOnce(f, v, w, invalid);
    }
  }

  /** All edges of some files. */
  ghost function Held(fs: seq<OutFile>, invalid: u64): multiset<Edge> {
    if fs == [] then multiset{} else Held(fs[..|fs|-1], invalid) + EdgesOf(fs[|fs|-1], invalid)
  }

  lemma {:induction false} HeldAppend(a: seq<OutFile>, b: seq<OutFile>, invalid: u64)
    ensures Held(a + b, invalid) == Held(a, invalid) + Held(b, invalid)
    decreases |b|
  {
    hide EdgesOf;
    if b == [] {
      assert a + b == a;
    } else {
      HeldAppend(a, b[..|b|-1], invalid);
      assert (a + b)[..|a + b|-1] == a + b[..|b|-1];
    }
  }

  lemma HeldOne(f: OutFile, invalid: u64)
    ensures Held([f], invalid) == EdgesOf(f, invalid)
  {
    hide EdgesOf;
    assert [f][..0] == [];
  }

  lemma HeldDrop(b: seq<OutFile>, i: nat, invalid: u64)
    requires i < |b|
    ensures Held(b, invalid) == Held(b[..i] + b[i+1..], invalid) + EdgesOf(b[i], invalid)
    ensures multiset(b) == multiset(b[..i] + b[i+1..]) + multiset{b[i]}
  {
    hide EdgesOf, Held;
    assert b == b[..i] + [b[i]] + b[i+1..];
    HeldAppend(b[..i] + [b[i]], b[i+1..], invalid);
    HeldAppend(b[..i], [b[i]], invalid);
    HeldAppend(b[..i], b[i+1..], invalid);
    HeldOne(b[i], invalid);
  }

  /** The order of the files does not matter. */
  lemma {:induction false} HeldPermuted(a: seq<OutFile>, b: seq<OutFile>, invalid: u64)
    requires multiset(a) == multiset(b)
    ensures Held(a, invalid) == Held(b, invalid)
    decreases |a|
  {
    hide EdgesOf;
    assert |a| == |multiset(a)| == |b|;
    if a != [] {
      hide Held;
      var n := |a| - 1;
      assert a[..n] + a[n+1..] == a[..n];
      HeldDrop(a, n, invalid);
      assert a[n] in multiset(b);
      var i :| 0 <= i < |b| && b[i] == a[n];
      HeldDrop(b, i, invalid);
      assert multiset(a[..n]) == multiset(a) - multiset{a[n]};
      assert multiset(b[..i] + b[i+1..]) == multiset(b) - multiset{b[i]};
      HeldPermuted(a[..n], b[..i] + b[i+1..], invalid);
    }
  }

  lemma {:induction false} InputsAre(ins: seq<OutFile>, ways: seq<seq<Edge>>, invalid: u64)
    requires InputsHold(ins, ways, invalid)
    ensures Held(ins, invalid) == AllOf(ways)
  {
    hide EdgesOf, SortedEdges, InRange;
    if ins != [] {
      var n := |ins| - 1;
      assert Stored(ins[n], ways[n], invalid);
      EdgesAre(ins[n], ways[n], invalid);
      hide TW.FileOf;
      InputsAre(ins[..n], ways[..n], invalid);
    }
  }

  // ---- Removing and sorting ----

  /** No file twice. */
  ghost predicate Once(fs: seq<OutFile>) {
    forall f :: multiset(fs)[f] <= 1
  }

  lemma {:induction false} WithoutCount(fs: seq<OutFile>, gone: seq<OutFile>, f: OutFile)
    ensures multiset(Without(fs, gone))[f] == if f in gone then 0 else multiset(fs)[f]
  {
    if fs != [] {
      var t, g := fs[..|fs|-1], fs[|fs|-1];
      WithoutCount(t, gone, f);
      assert fs == t + [g];
    }
  }

  lemma {:induction false} MeetingCount(fs: seq<OutFile>, lo: u64, hi: u64, f: OutFile)
    ensures multiset(Meeting(fs, lo, hi))[f] <= multiset(fs)[f]
  {
    if fs != [] {
      MeetingCount(fs[..|fs|-1], lo, hi, f);
      assert fs == fs[..|fs|-1] + [fs[|fs|-1]];
    }
  }

  lemma MeetingOnce(fs: seq<OutFile>, lo: u64, hi: u64)
    requires Once(fs)
    ensures Once(Meeting(fs, lo, hi))
  {
    forall f ensures multiset(Meeting(fs, lo, hi))[f] <= 1 {
      MeetingCount(fs, lo, hi, f);
    }
  }

  /** What is taken out of a level and what remains is the level. */
  lemma TakenOut(fs: seq<OutFile>, gone: seq<OutFile>, invalid: u64)
    requires Once(fs) && Once(gone) && forall f :: f in gone ==> f in fs
    ensures Held(Without(fs, gone), invalid) + Held(gone, invalid) == Held(fs, invalid) && Once(Without(fs, gone))
  {
    var rest := Without(fs, gone);
    forall f ensures multiset(rest + gone)[f] == multiset(fs)[f] && multiset(rest)[f] <= 1 {
      WithoutCount(fs, gone, f);
      if f in gone {
        assert f in fs && f in multiset(gone) && f in multiset(fs);
      }
    }
    assert multiset(rest + gone) == multiset(fs);
    HeldPermuted(rest + gone, fs, invalid);
    HeldAppend(rest, gone, invalid);
  }

  lemma {:induction false} InsertedPermutes(fs: seq<OutFile>, f: OutFile)
    ensures multiset(InsertByMin(fs, f)) == multiset(fs) + multiset{f}
  {
    if fs != [] && fs[|fs|-1].min > f.min {
      InsertedPermutes(fs[..|fs|-1], f);
      assert fs == fs[..|fs|-1] + [fs[|fs|-1]];
    }
  }

  lemma {:induction false} ByMinPermutes(fs: seq<OutFile>)
    ensures multiset(ByMin(fs)) == multiset(fs)
  {
    if fs != [] {
      ByMinPermutes(fs[..|fs|-1]);
      InsertedPermutes(ByMin(fs[..|fs|-1]), fs[|fs|-1]);
      assert fs == fs[..|fs|-1] + [fs[|fs|-1]];
    }
  }

  lemma SortedIn(rest: seq<OutFile>, out: seq<OutFile>, invalid: u64)
    ensures Held(ByMin(rest + out), invalid) == Held(rest, invalid) + Held(out, invalid)
  {
    ByMinPermutes(rest + out);
    HeldPermuted(ByMin(rest + out), rest + out, invalid);
    HeldAppend(rest, out, invalid);
  }

  // ---- All levels ----

  ghost function AllHeld(files: seq<seq<OutFile>>, invalid: u64): multiset<Edge> {
    if files == [] then multiset{} else AllHeld(files[..|files|-1], invalid) + Held(files[|files|-1], invalid)
  }

  lemma {:induction false} LevelReplaced(files: seq<seq<OutFile>>, l: nat, fs: seq<OutFile>, invalid: u64)
    requires l < |files|
    ensures AllHeld(files[l := fs], invalid) + Held(files[l], invalid) == AllHeld(files, invalid) + Held(fs, invalid)
    decreases |files|
  {
    hide Held;
    var n, gs := |files| - 1, files[l := fs];
    assert AllHeld(gs, invalid) == AllHeld(gs[..n], invalid) + Held(gs[n], invalid);
    if l < n {
      assert gs[..n] == files[..n][l := fs];
      LevelReplaced(files[..n], l, fs, invalid);
      Swap(AllHeld(gs[..n], invalid), Held(files[l], invalid), AllHeld(files[..n], invalid), Held(fs, invalid),
           Held(files[n], invalid));
    } else {
      assert gs[..n] == files[..n];
    }
  }

  lemma Swap(a: multiset<Edge>, b: multiset<Edge>, c: multiset<Edge>, d: multiset<Edge>, e: multiset<Edge>)
    requires a + b == c + d
    ensures (a + e) + b == (c + e) + d
  {
    assert (a + e) + b == (a + b) + e && (c + e) + d == (c + d) + e;
  }

  // ---- What a writer leaves out ----

  /** The last stretch of a worker's output, if it fills the buffer a whole number of times. */
  ghost function Missing(es: seq<Edge>, bounds: seq<nat>, limits: Limits): multiset<Edge> {
    if |bounds| > 1 && limits.slots > 0 && IsMultiple(|Stretch(es, bounds, |bounds|-2)|, limits.slots - 1)
    then multiset(Stretch(es, bounds, |bounds|-2)) else multiset{}
  }

  lemma StretchHeld(files: seq<OutFile>, es: seq<Edge>, bounds: seq<nat>, invalid: u64, i: nat)
    requires SortedEdges(es) && InRange(es, invalid) && Splits(es, bounds) && FilesAre(files, es, bounds, invalid)
    requires i < |files|
    ensures i + 1 < |bounds| && bounds[i] <= bounds[i+1] <= |es|
    ensures EdgesOf(files[i], invalid) == multiset(es[bounds[i]..bounds[i+1]])
  {
    hide EdgesOf, SortedEdges;
    assert CutAt(es, bounds[i+1]);
    StretchOf(es, bounds, i);
    assert Stored(files[i], Stretch(es, bounds, i), invalid);
    EdgesAre(files[i], Stretch(es, bounds, i), invalid);
  }

  lemma StartsAtNone(es: seq<Edge>, bounds: seq<nat>)
    requires Splits(es, bounds)
    ensures bounds != [] && bounds[0] == 0
  {
    hide CutAt;
  }

  lemma {:induction false} StretchesHeld(files: seq<OutFile>, es: seq<Edge>, bounds: seq<nat>, invalid: u64, n: nat)
    requires SortedEdges(es) && InRange(es, invalid) && Splits(es, bounds) && FilesAre(files, es, bounds, invalid)
    requires n <= |files|
    ensures n < |bounds| && bounds[n] <= |es| && Held(files[..n], invalid) == multiset(es[..bounds[n]])
    decreases n
  {
    hide EdgesOf, SortedEdges, Splits, FilesAre, InRange;
    FewerFiles(files, es, bounds, invalid);
    if n == 0 {
      StartsAtNone(es, bounds);
    } else {
      StretchesHeld(files, es, bounds, invalid, n - 1);
      StretchHeld(files, es, bounds, invalid, n - 1);
      assert files[..n][..n-1] == files[..n-1];
      assert es[..bounds[n]] == es[..bounds[n-1]] + es[bounds[n-1]..bounds[n]];
    }
  }

  /** What one worker published and what it left out is what it merged. */
  lemma WrittenOrMissing(files: seq<OutFile>, es: seq<Edge>, bounds: seq<nat>, limits: Limits)
    requires SortedEdges(es) && InRange(es, limits.invalid) && WrittenAs(files, es, bounds, limits)
    ensures Held(files, limits.invalid) + Missing(es, bounds, limits) == multiset(es)
    ensures Missing(es, bounds, limits) == multiset{} <==>
      !IsMultiple(|Stretch(es, bounds, |bounds| - 2)|, limits.slots - 1)
  {
    hide Held, SortedEdges, FilesAre, IsMultiple;
    assert |files| < |bounds| by { FewerFiles(files, es, bounds, limits.invalid); }
    StretchesHeld(files, es, bounds, limits.invalid, |files|);
    assert files[..|files|] == files;
    var n := |bounds| - 2;
    StretchOf(es, bounds, n);
    assert Stretch(es, bounds, n)[0] in multiset(Stretch(es, bounds, n));
    assert es[..|es|] == es == es[..bounds[n]] + es[bounds[n]..];
  }

  ghost function AllMissing(parts: seq<seq<Edge>>, bounds: seq<seq<nat>>, limits: Limits): multiset<Edge> {
    if parts == [] || |bounds| != |parts| then multiset{}
    else
      AllMissing(parts[..|parts|-1], bounds[..|parts|-1], limits)
      + Missing(parts[|parts|-1], bounds[|parts|-1], limits)
  }

  ghost predicate PartsFit(parts: seq<seq<Edge>>, invalid: u64) {
    forall k :: 0 <= k < |parts| ==> SortedEdges(parts[k]) && InRange(parts[k], invalid)
  }

  lemma {:induction false} PartsWritten(parts: seq<seq<Edge>>, bounds: seq<seq<nat>>, outs: seq<seq<OutFile>>,
                                        limits: Limits)
    requires PartsFit(parts, limits.invalid) && Writing(parts, bounds, outs, limits)
    ensures Held(Concat(outs), limits.invalid) + AllMissing(parts, bounds, limits) == AllOf(parts)
    decreases |parts|
  {
    hide Held, SortedEdges, InRange, WrittenAs, Missing;
    if parts == [] {
      NoneHeld(limits.invalid);
    } else {
      var n := |parts| - 1;
      PartsWritten(parts[..n], bounds[..n], outs[..n], limits);
      WrittenOrMissing(outs[n], parts[n], bounds[n], limits);
      HeldAppend(Concat(outs[..n]), outs[n], limits.invalid);
    }
  }

  lemma NoneHeld(invalid: u64)
    ensures Held([], invalid) == multiset{}
  {}

  lemma PartsAreFit(parts: seq<seq<Edge>>, ins: seq<OutFile>, ways: seq<seq<Edge>>, invalid: u64)
    requires Parts(parts, AllOf(ways)) && InputsHold(ins, ways, invalid)
    ensures PartsFit(parts, invalid)
  {
    hide SortedEdges, AllOf, TW.FileOf, PartsApart;
    forall k, i | 0 <= k < |parts| && 0 <= i < |parts[k]| ensures parts[k][i].src < invalid {
      InAllOf(parts, k, parts[k][i]);
      var w := FromSomeWay(ways, parts[k][i]);
      assert InRange(ways[w], invalid);
    }
  }

  // ---- Steps ----

  /** Edges a step merged but did not publish. */
  ghost function Lost(c: Change, limits: Limits): multiset<Edge> {
    if c.Compact? then AllMissing(c.parts, c.bounds, limits) else multiset{}
  }

  /** Edges a step brought in. */
  ghost function Added(c: Change, invalid: u64): multiset<Edge> {
    if c.Flush? then EdgesOf(c.file, invalid) else multiset{}
  }

  ghost predicate OnceAtZero(files: seq<seq<OutFile>>) {
    files != [] && Once(files[0])
  }

  ghost predicate DbOk(s: Db, invalid: u64) {
    DbInv(s, invalid) && OnceAtZero(s.levels.files)
  }

  lemma LevelOnce(s: Db, l: nat, invalid: u64)
    requires DbOk(s, invalid) && l < |s.levels.files|
    ensures Once(s.levels.files[l])
  {
    hide Sound, Ranged, UniqueIds, AllSound;
    if l > 0 {
      forall f ensures multiset(s.levels.files[l])[f] <= 1 {
        OnceOnly(s.levels.files[l], f);
      }
    }
  }

  lemma PickedOnce(level: nat, upper: seq<OutFile>, lower: seq<OutFile>, in0: seq<OutFile>, in1: seq<OutFile>)
    requires Picks(level, upper, lower, in0, in1) && Once(upper) && Once(lower)
    ensures Once(in0) && Once(in1) && in0 != []
    ensures (forall f :: f in in0 ==> f in upper) && forall f :: f in in1 ==> f in lower
  {
    hide Once, LeastClosed, Hull;
    var f, start, lo, hi :| PicksBy(level, upper, lower, in0, in1, f, start, lo, hi);
    MeetingOnce(lower, lo, hi);
    if in0 != start {
      var a: u64, b: u64 :| in0 == Meeting(upper, a, b);
      MeetingOnce(upper, a, b);
    } else if level > 0 {
      assert Once([f]) by { JustOne(f); }
    } else {
      var a: u64, b: u64 :| LeastClosed(upper, f.min, f.max, a, b) && start == Meeting(upper, a, b);
      MeetingOnce(upper, a, b);
    }
  }

  lemma JustOne(f: OutFile)
    ensures Once([f])
  {}

  /** Replacing files of two adjacent levels by others with the same edges, but for some lost. */
  lemma ReplacedHeld(files: seq<seq<OutFile>>, level: nat, in0: seq<OutFile>, in1: seq<OutFile>, out: seq<OutFile>,
                     lost: multiset<Edge>, invalid: u64)
    requires level + 1 < |files| && Once(files[level]) && Once(files[level + 1]) && Once(in0) && Once(in1)
    requires (forall f :: f in in0 ==> f in files[level]) && forall f :: f in in1 ==> f in files[level + 1]
    requires Held(out, invalid) + lost == Held(in0, invalid) + Held(in1, invalid)
    ensures AllHeld(Replaced(files, level, in0, in1, out), invalid) + lost == AllHeld(files, invalid)
    ensures Once(Without(files[level], in0))
  {
    hide Held, AllHeld, Once, ByMin;
    var upper, lower := Without(files[level], in0), Without(files[level + 1], in1);
    var mid := files[level := upper];
    TakenOut(files[level], in0, invalid);
    TakenOut(files[level + 1], in1, invalid);
    SortedIn(lower, out, invalid);
    LevelReplaced(files, level, upper, invalid);
    LevelReplaced(mid, level + 1, ByMin(lower + out), invalid);
    Balance(AllHeld(files, invalid), AllHeld(mid, invalid),
            AllHeld(Replaced(files, level, in0, in1, out), invalid), Held(upper, invalid), Held(in0, invalid),
            Held(lower, invalid), Held(in1, invalid), Held(out, invalid), lost);
  }

  lemma Balance(all: multiset<Edge>, mid: multiset<Edge>, new': multiset<Edge>, upper: multiset<Edge>,
                in0: multiset<Edge>, lower: multiset<Edge>, in1: multiset<Edge>, out: multiset<Edge>,
                lost: multiset<Edge>)
    requires mid + (upper + in0) == all + upper && new' + (lower + in1) == mid + (lower + out)
    requires out + lost == in0 + in1
    ensures new' + lost == all
  {
    forall e: Edge ensures (new' + lost)[e] == all[e] {
      assert (mid + (upper + in0))[e] == (all + upper)[e];
      assert (new' + (lower + in1))[e] == (mid + (lower + out))[e];
      assert (out + lost)[e] == (in0 + in1)[e];
    }
  }

  /** The published outputs and the missing ones are the edges of the inputs. */
  lemma OutputsHeld(level: nat, in0: seq<OutFile>, in1: seq<OutFile>, parts: seq<seq<Edge>>, bounds: seq<seq<nat>>,
                    outs: seq<seq<OutFile>>, limits: Limits)
    requires MergedInto(level, in0, in1, parts, limits.invalid) && in0 != [] && Writing(parts, bounds, outs, limits)
    ensures Held(Concat(outs), limits.invalid) + AllMissing(parts, bounds, limits) ==
      Held(in0, limits.invalid) + Held(in1, limits.invalid)
  {
    hide MergedInto, Writing, Held, Concat, AllMissing, Parts, InputsHold, AllOf;
    var invalid := limits.invalid;
    var ways := MergingGivesParts(level, in0, in1, parts, invalid);
    PartsAreFit(parts, in0 + in1, ways, invalid);
    PartsWritten(parts, bounds, outs, limits);
    InputsAre(in0 + in1, ways, invalid);
    HeldAppend(in0, in1, invalid);
    PartsTotal(parts, AllOf(ways));
  }

  lemma CompactConserves(s: Db, c: Change, s': Db, limits: Limits)
    requires c.Compact? && Steps(s, c, s', limits) && DbOk(s, limits.invalid)
    ensures AllHeld(s'.levels.files, limits.invalid) + Lost(c, limits) == AllHeld(s.levels.files, limits.invalid)
    ensures OnceAtZero(s'.levels.files)
  {
    hide DbOk, Picks, MergedInto, Writing, Held, AllHeld, Once, Concat, ByMin, AllMissing, AfterFiles, FreshIds;
    var files, out, invalid := s.levels.files, Concat(c.outs), limits.invalid;
    LevelOnce(s, 0, invalid);
    LevelOnce(s, c.level, invalid);
    LevelOnce(s, c.level + 1, invalid);
    PickedOnce(c.level, files[c.level], files[c.level + 1], c.in0, c.in1);
    OutputsHeld(c.level, c.in0, c.in1, c.parts, c.bounds, c.outs, limits);
    ReplacedHeld(files, c.level, c.in0, c.in1, out, Lost(c, limits), invalid);
  }

  lemma PartsTotal(parts: seq<seq<Edge>>, all: multiset<Edge>)
    requires Parts(parts, all)
    ensures AllOf(parts) == all
  {}

  lemma MoveConserves(s: Db, c: Change, s': Db, limits: Limits)
    requires c.Move? && Steps(s, c, s', limits) && DbOk(s, limits.invalid)
    ensures AllHeld(s'.levels.files, limits.invalid) == AllHeld(s.levels.files, limits.invalid)
    ensures OnceAtZero(s'.levels.files)
  {
    hide DbOk, Picks, Held, AllHeld, Once, ByMin, AfterMovedFiles;
    var files, invalid := s.levels.files, limits.invalid;
    LevelOnce(s, 0, invalid);
    LevelOnce(s, c.level, invalid);
    LevelOnce(s, c.level + 1, invalid);
    PickedOnce(c.level, files[c.level], files[c.level + 1], c.in0, []);
    NoneHeld(invalid);
    ReplacedHeld(files, c.level, c.in0, [], c.in0, multiset{}, invalid);
  }

  lemma FlushConserves(s: Db, c: Change, s': Db, limits: Limits)
    requires c.Flush? && Steps(s, c, s', limits) && DbOk(s, limits.invalid)
    ensures AllHeld(s'.levels.files, limits.invalid) ==
      AllHeld(s.levels.files, limits.invalid) + EdgesOf(c.file, limits.invalid)
    ensures OnceAtZero(s'.levels.files)
  {
    hide Held, AllHeld, EdgesOf, Sound, AllRanged, UniqueIds;
    var files, f, invalid := s.levels.files, c.file, limits.invalid;
    LevelReplaced(files, 0, [f] + files[0], invalid);
    HeldAppend([f], files[0], invalid);
    HeldOne(f, invalid);
    Cancel(AllHeld(s'.levels.files, invalid), Held(files[0], invalid), AllHeld(files, invalid), EdgesOf(f, invalid));
    assert f !in files[0];
  }

  lemma Cancel(new': multiset<Edge>, level: multiset<Edge>, all: multiset<Edge>, more: multiset<Edge>)
    requires new' + level == all + (more + level)
    ensures new' == all + more
  {
    forall e: Edge ensures new'[e] == (all + more)[e] {
      assert (new' + level)[e] == (all + (more + level))[e];
    }
  }

  lemma StepConserves(s: Db, c: Change, s': Db, limits: Limits)
    requires Steps(s, c, s', limits) && DbOk(s, limits.invalid)
    ensures AllHeld(s'.levels.files, limits.invalid) + Lost(c, limits) ==
      AllHeld(s.levels.files, limits.invalid) + Added(c, limits.invalid)
    ensures DbOk(s', limits.invalid)
  {
    hide Steps, DbInv, AllHeld, Once, EdgesOf, AllMissing;
    StepKeeps(s, c, s', limits);
    match c {
      case Flush(_) => FlushConserves(s, c, s', limits);
      case Compact(_, _, _, _, _, _, _) => CompactConserves(s, c, s', limits);
      case Move(_, _) => MoveConserves(s, c, s', limits);
    }
  }

  // ---- Runs ----

  ghost function AllLost(changes: seq<Change>, limits: Limits): multiset<Edge> {
    if changes == [] then multiset{}
    else AllLost(changes[..|changes|-1], limits) + Lost(changes[|changes|-1], limits)
  }

  ghost function AllAdded(changes: seq<Change>, invalid: u64): multiset<Edge> {
    if changes == [] then multiset{}
    else AllAdded(changes[..|changes|-1], invalid) + Added(changes[|changes|-1], invalid)
  }

  /**
   After any sequence of flushes, compactions and moves, the files of all levels and
   the unpublished last outputs together hold exactly the flushed edges, each as often
   as it was flushed.
   */
  lemma {:induction false} EdgesAreConserved(states: seq<Db>, changes: seq<Change>, limits: Limits, i: nat)
    requires Runs(states, changes, limits) && i < |states|
    ensures AllHeld(states[i].levels.files, limits.invalid) + AllLost(changes[..i], limits) ==
      AllAdded(changes[..i], limits.invalid)
    ensures DbOk(states[i], limits.invalid)
  {
    hide Steps, DbOk, Lost, Added;
    if i == 0 {
      assert DbOk(states[0], limits.invalid) by { EmptyOk(states[0], limits.invalid); }
      NothingHeld(states[0].levels.files, limits.invalid);
    } else {
      hide AllHeld;
      EdgesAreConserved(states, changes, limits, i - 1);
      StepConserves(states[i-1], changes[i-1], states[i], limits);
      assert changes[..i][..i-1] == changes[..i-1];
      Carry(AllHeld(states[i-1].levels.files, limits.invalid), AllLost(changes[..i-1], limits),
            AllAdded(changes[..i-1], limits.invalid), AllHeld(states[i].levels.files, limits.invalid),
            Lost(changes[i-1], limits), Added(changes[i-1], limits.invalid));
    }
  }

  lemma Carry(held: multiset<Edge>, lost: multiset<Edge>, added: multiset<Edge>, held': multiset<Edge>,
              lost': multiset<Edge>, added': multiset<Edge>)
    requires held + lost == added && held' + lost' == held + added'
    ensures held' + (lost + lost') == added + added'
  {
    assert held' + (lost + lost') == (held' + lost') + lost;
    assert (held + added') + lost == (held + lost) + added';
  }

  lemma EmptyOk(s: Db, invalid: u64)
    requires s.levels.files != [] && forall l :: 0 <= l < |s.levels.files| ==> s.levels.files[l] == []
    ensures DbOk(s, invalid)
  {
    hide Sound;
  }

  lemma {:induction false} NothingHeld(files: seq<seq<OutFile>>, invalid: u64)
    requires forall l :: 0 <= l < |files| ==> files[l] == []
    ensures AllHeld(files, invalid) == multiset{}
  {
    if files != [] {
      NothingHeld(files[..|files|-1], invalid);
    }
  }

  // ---- Exactly when nothing is lost ----

  lemma {:induction false} NoneMissingIff(parts: seq<seq<Edge>>, bounds: seq<seq<nat>>, outs: seq<seq<OutFile>>,
                                          limits: Limits)
    requires PartsFit(parts, limits.invalid) && Writing(parts, bounds, outs, limits)
    ensures AllMissing(parts, bounds, limits) == multiset{} <==>
      forall k :: 0 <= k < |parts| ==> !Unpublished(parts[k], bounds[k], limits)
    decreases |parts|
  {
    hide SortedEdges, InRange, WrittenAs, Missing, Unpublished;
    if parts != [] {
      var n := |parts| - 1;
      NoneMissingIff(parts[..n], bounds[..n], outs[..n], limits);
      MissingIff(outs[n], parts[n], bounds[n], limits);
      assert forall k :: 0 <= k < n ==> parts[..n][k] == parts[k] && bounds[..n][k] == bounds[k];
      BothEmpty(AllMissing(parts[..n], bounds[..n], limits), Missing(parts[n], bounds[n], limits));
    }
  }

  /** The last stretch fills the buffer a whole number of times. */
  ghost predicate Unpublished(es: seq<Edge>, bounds: seq<nat>, limits: Limits) {
    |bounds| > 1 && limits.slots > 0 && IsMultiple(|Stretch(es, bounds, |bounds| - 2)|, limits.slots - 1)
  }

  lemma MissingIff(files: seq<OutFile>, es: seq<Edge>, bounds: seq<nat>, limits: Limits)
    requires SortedEdges(es) && InRange(es, limits.invalid) && WrittenAs(files, es, bounds, limits)
    ensures Missing(es, bounds, limits) == multiset{} <==> !Unpublished(es, bounds, limits)
  {
    WrittenOrMissing(files, es, bounds, limits);
    hide SortedEdges, InRange, Missing, Stretch, IsMultiple, Held, FilesAre, Splits;
  }

  lemma BothEmpty(a: multiset<Edge>, b: multiset<Edge>)
    ensures a + b == multiset{} <==> a == multiset{} && b == multiset{}
  {
    if a + b == multiset{} {
      assert a <= a + b && b <= a + b;
    }
  }

  /** A compaction keeps every edge exactly when no worker's last file fills its buffer a whole number of times. */
  lemma LosesNothingIff(s: Db, c: Change, s': Db, limits: Limits)
    requires c.Compact? && Steps(s, c, s', limits) && DbOk(s, limits.invalid)
    ensures Lost(c, limits) == multiset{} <==>
      forall k :: 0 <= k < |c.parts| && k < |c.bounds| ==> !Unpublished(c.parts[k], c.bounds[k], limits)
    ensures AllHeld(s'.levels.files, limits.invalid) == AllHeld(s.levels.files, limits.invalid) <==>
      Lost(c, limits) == multiset{}
  {
    hide DbOk, Picks, MergedInto, WrittenAs, AllHeld, Once, Concat, ByMin, AllMissing, AfterFiles, FreshIds;
    hide Unpublished;
    var files, invalid := s.levels.files, limits.invalid;
    CompactConserves(s, c, s', limits);
    LevelOnce(s, c.level, invalid);
    LevelOnce(s, c.level + 1, invalid);
    PickedOnce(c.level, files[c.level], files[c.level + 1], c.in0, c.in1);
    var ways := MergingGivesParts(c.level, c.in0, c.in1, c.parts, invalid);
    hide Parts, InputsHold, AllOf;
    PartsAreFit(c.parts, c.in0 + c.in1, ways, invalid);
    NoneMissingIff(c.parts, c.bounds, c.outs, limits);
    Unchanged(AllHeld(s'.levels.files, invalid), Lost(c, limits));
  }

  lemma Unchanged(a: multiset<Edge>, b: multiset<Edge>)
    ensures a == a + b <==> b == multiset{}
  {
    forall e: Edge | a == a + b ensures b[e] == 0 {
      assert a[e] == (a + b)[e];
    }
  }
}
