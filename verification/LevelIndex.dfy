/**
 The per-vertex level index: for every level below the first, where the edges of a
 vertex are. Maintained by the table writer and by direct level moves.
 */
module LevelIndex {
  import opened Records
  import opened Topology
  import opened TableWriter

  /** The file that holds a vertex on one level and its edge range there. */
  datatype Loc = Loc(file: nat, from: nat, to: nat)

  datatype Spot = Spot(vertex: u64, level: nat)

  /** A vertex without entry is invalid on that level. */
  type Spots = map<Spot, Loc>

  function Get(m: Spots, v: u64, l: nat): Option<Loc> {
    if Spot(v, l) in m then Some(m[Spot(v, l)]) else None
  }

  // ---- Publishing one output file ----

  /** After the first `n` index entries of `f`, written by a compaction from `level` with those upper inputs. */
  function AfterEntries(m: Spots, f: OutFile, level: nat, inputs: set<nat>, n: nat): Spots
    requires n < |f.table.index| || n == 0
  {
    if n == 0 then m
    else
      var m' := AfterEntries(m, f, level, inputs, n - 1);
      AfterEntry(m', f, level, inputs, n - 1)
  }

  function AfterEntry(m: Spots, f: OutFile, level: nat, inputs: set<nat>, i: nat): Spots
    requires i + 1 < |f.table.index|
  {
    var v := f.table.index[i].key;
    var up := Spot(v, level);
    var cleared := if level > 0 && up in m && m[up].file in inputs then m - {up} else m;
    cleared[Spot(v, level + 1) := Loc(f.id, f.table.index[i].offset, f.table.index[i + 1].offset)]
  }

  /** The location `f` gives to `v`, if it holds it. */
  ghost predicate Names(f: OutFile, v: u64, loc: Loc) {
    exists i :: NamesAt(f, v, loc, i)
  }

  ghost predicate NamesAt(f: OutFile, v: u64, loc: Loc, i: nat) {
    && i + 1 < |f.table.index| && f.table.index[i].key == v
    && loc == Loc(f.id, f.table.index[i].offset, f.table.index[i + 1].offset)
  }

  ghost predicate Has(f: OutFile, v: u64) {
    exists i :: 0 <= i < |f.table.index| - 1 && f.table.index[i].key == v
  }

  /** One step touches one vertex on two levels. */
  lemma EntryEffect(m: Spots, f: OutFile, level: nat, inputs: set<nat>, i: nat, v: u64, l: nat)
    requires i + 1 < |f.table.index|
    ensures var here := f.table.index[i].key == v;
            Get(AfterEntry(m, f, level, inputs, i), v, l) ==
              if here && l == level + 1 then Some(Loc(f.id, f.table.index[i].offset, f.table.index[i + 1].offset))
              else if here && l == level && level > 0 && Get(m, v, l).Some? &&
                Get(m, v, l).value.file in inputs then None
              else Get(m, v, l)
  {}

  ghost predicate HasBefore(f: OutFile, v: u64, n: nat) {
    exists i :: 0 <= i < n && i < |f.table.index| && f.table.index[i].key == v
  }

  /** What the first `n` entries do to vertex `v`. */
  lemma {:induction false} EntriesEffect(m: Spots, f: OutFile, level: nat, inputs: set<nat>, n: nat, v: u64, l: nat)
    requires KeysIncrease(f.table.index) && (n < |f.table.index| || n == 0)
    ensures !HasBefore(f, v, n) ==> Get(AfterEntries(m, f, level, inputs, n), v, l) == Get(m, v, l)
    ensures HasBefore(f, v, n) ==>
      Get(AfterEntries(m, f, level, inputs, n), v, l) ==
        if l == level + 1 then Get(AfterEntries(m, f, level, inputs, n), v, l)
        else if l == level && level > 0 && Get(m, v, l).Some? && Get(m, v, l).value.file in inputs then None
        else Get(m, v, l)
    ensures forall i :: 0 <= i < n && f.table.index[i].key == v && l == level + 1 ==>
      Get(AfterEntries(m, f, level, inputs, n), v, l) ==
        Some(Loc(f.id, f.table.index[i].offset, f.table.index[i + 1].offset))
    decreases n
  {
    if n > 0 {
      EntriesEffect(m, f, level, inputs, n - 1, v, l);
      EntryEffect(AfterEntries(m, f, level, inputs, n - 1), f, level, inputs, n - 1, v, l);
      assert HasBefore(f, v, n) <==> HasBefore(f, v, n - 1) || f.table.index[n - 1].key == v;
      if f.table.index[n - 1].key == v {
        NotBefore(f, v, n - 1);
      }
    }
  }

  lemma NotBefore(f: OutFile, v: u64, n: nat)
    requires KeysIncrease(f.table.index) && n < |f.table.index| && f.table.index[n].key == v
    ensures !HasBefore(f, v, n)
  {}

  class LevelTable {
    var spots: Spots

    /** Every entry starts invalid. */
    constructor ()
      ensures spots == map[]
    {
      spots := map[];
    }

    /** Points every source of a new file at it, and clears the upper entries it replaces. */
    method RecordFile(f: OutFile, level: nat, inputs: set<nat>)
      requires |f.table.index| > 0
      modifies this
      ensures spots == AfterEntries(old(spots), f, level, inputs, |f.table.index| - 1)
    {
      var i := 0;
      while i < |f.table.index| - 1
        invariant 0 <= i <= |f.table.index| - 1
        invariant spots == AfterEntries(old(spots), f, level, inputs, i)
      {
        var v := f.table.index[i].key;
        if level > 0 {
          var up := Spot(v, level);
          if up in spots && spots[up].file in inputs {
            spots := spots - {up};
          }
        }
        spots := spots[Spot(v, level + 1) := Loc(f.id, f.table.index[i].offset, f.table.index[i + 1].offset)];
        i := i + 1;
      }
    }

    /** Moves the entries of a file that goes down a level unchanged. */
    method MoveFile(f: OutFile, level: nat)
      requires level > 0 && |f.table.index| > 0
      modifies this
      ensures spots == AfterMoves(old(spots), f, level, |f.table.index| - 1)
    {
      var i := 0;
      while i < |f.table.index| - 1
        invariant 0 <= i <= |f.table.index| - 1
        invariant spots == AfterMoves(old(spots), f, level, i)
      {
        var up, down := Spot(f.table.index[i].key, level), Spot(f.table.index[i].key, level + 1);
        if up in spots {
          spots := spots[down := spots[up]];
        } else {
          spots := spots - {down};
        }
        spots := spots - {up};
        i := i + 1;
      }
    }
  }

  function AfterMoves(m: Spots, f: OutFile, level: nat, n: nat): Spots
    requires n < |f.table.index| || n == 0
  {
    if n == 0 then m
    else
      var m' := AfterMoves(m, f, level, n - 1);
      var up, down := Spot(f.table.index[n - 1].key, level), Spot(f.table.index[n - 1].key, level + 1);
      (if up in m' then m'[down := m'[up]] else m' - {down}) - {up}
  }

  // ---- The effect of a whole file ----

  function AfterFile(m: Spots, f: OutFile, level: nat, inputs: set<nat>): Spots {
    if f.table.index == [] then m else AfterEntries(m, f, level, inputs, |f.table.index| - 1)
  }

  /** Sources of the file get its location below and lose a replaced one above; nothing else changes. */
  lemma FileEffect(m: Spots, f: OutFile, level: nat, inputs: set<nat>, v: u64, l: nat)
    requires KeysIncrease(f.table.index)
    ensures var after := AfterFile(m, f, level, inputs);
            if Has(f, v) && l == level + 1 then Get(after, v, l).Some? && Names(f, v, Get(after, v, l).value)
            else if Has(f, v) && l == level && level > 0 && Get(m, v, l).Some? && Get(m, v, l).value.file in inputs
            then Get(after, v, l) == None
            else Get(after, v, l) == Get(m, v, l)
  {
    hide AfterEntries, Get, KeysIncrease;
    if f.table.index != [] {
      var n := |f.table.index| - 1;
      EntriesEffect(m, f, level, inputs, n, v, l);
      assert Has(f, v) <==> HasBefore(f, v, n);
      if Has(f, v) && l == level + 1 {
        var i :| 0 <= i < n && f.table.index[i].key == v;
        var loc := Loc(f.id, f.table.index[i].offset, f.table.index[i + 1].offset);
        assert Get(AfterFile(m, f, level, inputs), v, l) == Some(loc);
        assert NamesAt(f, v, loc, i);
      }
    }
  }

  /** A file names one location per vertex. */
  lemma NamesOne(f: OutFile, v: u64, a: Loc, b: Loc)
    requires KeysIncrease(f.table.index) && Names(f, v, a) && Names(f, v, b)
    ensures a == b && Has(f, v) && a.file == f.id
  {
    var i :| NamesAt(f, v, a, i);
    var j :| NamesAt(f, v, b, j);
  }

  lemma {:induction false} MovesEffect(m: Spots, f: OutFile, level: nat, n: nat, v: u64, l: nat)
    requires KeysIncrease(f.table.index) && (n < |f.table.index| || n == 0)
    ensures Get(AfterMoves(m, f, level, n), v, l) ==
              if HasBefore(f, v, n) && l == level then None
              else if HasBefore(f, v, n) && l == level + 1 then Get(m, v, level)
              else Get(m, v, l)
    decreases n
  {
    if n > 0 {
      MovesEffect(m, f, level, n - 1, v, l);
      MovesEffect(m, f, level, n - 1, v, level);
      assert HasBefore(f, v, n) <==> HasBefore(f, v, n - 1) || f.table.index[n - 1].key == v;
      if f.table.index[n - 1].key == v {
        NotBefore(f, v, n - 1);
      }
    }
  }

  // ---- The store of levels ----

  datatype Levels = Levels(files: seq<seq<OutFile>>, spots: Spots)

  ghost predicate AnyHas(fs: seq<OutFile>, v: u64) {
    exists f :: f in fs && Has(f, v)
  }

  ghost predicate AnyNames(fs: seq<OutFile>, v: u64, loc: Loc) {
    exists f :: f in fs && Names(f, v, loc)
  }

  /** The index of one level says exactly where its files hold each vertex. */
  ghost predicate LevelOk(fs: seq<OutFile>, m: Spots, l: nat) {
    forall v, loc :: Get(m, v, l) == Some(loc) <==> AnyNames(fs, v, loc)
  }

  ghost predicate IndexOk(s: Levels) {
    forall l :: 1 <= l < |s.files| ==> LevelOk(s.files[l], s.spots, l)
  }

  function Without(fs: seq<OutFile>, gone: seq<OutFile>): (r: seq<OutFile>)
    ensures forall f :: f in r <==> f in fs && f !in gone
  {
    if fs == [] then []
    else
      var rest := Without(fs[..|fs|-1], gone);
      assert fs == fs[..|fs|-1] + [fs[|fs|-1]];
      if fs[|fs|-1] in gone then rest else rest + [fs[|fs|-1]]
  }

  function Ids(fs: seq<OutFile>): set<nat> {
    set f | f in fs :: f.id
  }

  function AfterFiles(m: Spots, out: seq<OutFile>, level: nat, inputs: set<nat>): Spots {
    if out == [] then m else AfterFile(AfterFiles(m, out[..|out|-1], level, inputs), out[|out|-1], level, inputs)
  }

  function AfterMovedFiles(m: Spots, fs: seq<OutFile>, level: nat): Spots {
    if fs == [] then m
    else
      var f := fs[|fs|-1];
      var m' := AfterMovedFiles(m, fs[..|fs|-1], level);
      if f.table.index == [] then m' else AfterMoves(m', f, level, |f.table.index| - 1)
  }

  ghost predicate WellKeyed(fs: seq<OutFile>) {
    forall f :: f in fs ==> KeysIncrease(f.table.index)
  }

  /** No vertex is in two of the files. */
  ghost predicate NoneShared(fs: seq<OutFile>) {
    forall i, j, v :: 0 <= i < j < |fs| && Has(fs[i], v) ==> !Has(fs[j], v)
  }

  /** What a merge of `in0` and `in1` into `out` guarantees: the same vertices, each in one output. */
  ghost predicate Rewrites(in0: seq<OutFile>, in1: seq<OutFile>, rest: seq<OutFile>, out: seq<OutFile>) {
    && WellKeyed(out) && NoneShared(out)
    && (forall v :: AnyHas(out, v) <==> AnyHas(in0, v) || AnyHas(in1, v))
    && (forall v :: AnyHas(rest, v) ==> !AnyHas(out, v))
  }

  ghost predicate SameFiles(a: seq<OutFile>, b: seq<OutFile>) {
    forall f :: f in a <==> f in b
  }

  /** Two neighbouring levels change; the lower one may be reordered. */
  ghost predicate Relevel(s: Levels, s': Levels, level: nat, upper: seq<OutFile>, lower: seq<OutFile>) {
    && level + 1 < |s.files| == |s'.files| && s'.files[level] == upper && SameFiles(s'.files[level + 1], lower)
    && forall l :: 0 <= l < |s.files| && l != level && l != level + 1 ==> s'.files[l] == s.files[l]
  }

  ghost predicate Compacts(s: Levels, s': Levels, level: nat, in0: seq<OutFile>, in1: seq<OutFile>, out: seq<OutFile>) {
    && level + 1 < |s.files| && (forall f :: f in in0 ==> f in s.files[level]) &&
      (forall f :: f in in1 ==> f in s.files[level + 1])
    && Rewrites(in0, in1, Without(s.files[level + 1], in1), out)
    && (forall f, g :: f in s.files[level] && g in s.files[level] && f.id == g.id ==> f == g)
    && Relevel(s, s', level, Without(s.files[level], in0), Without(s.files[level + 1], in1) + out)
    && s'.spots == AfterFiles(s.spots, out, level, Ids(in0))
  }

  /** A direct move: the files meet nothing below. */
  ghost predicate Moves(s: Levels, s': Levels, level: nat, in0: seq<OutFile>) {
    && 1 <= level && level + 1 < |s.files| && (forall f :: f in in0 ==> f in s.files[level])
    && WellKeyed(in0) && NoneShared(in0)
    && (forall v :: AnyHas(in0, v) ==> !AnyHas(s.files[level + 1], v) && !AnyHas(Without(s.files[level], in0), v))
    && Relevel(s, s', level, Without(s.files[level], in0), s.files[level + 1] + in0)
    && s'.spots == AfterMovedFiles(s.spots, in0, level)
  }

  lemma {:induction false} FilesEffect(m: Spots, out: seq<OutFile>, level: nat, inputs: set<nat>, v: u64, l: nat)
    requires WellKeyed(out) && NoneShared(out)
    ensures var after := AfterFiles(m, out, level, inputs);
            if AnyHas(out, v) && l == level + 1 then Get(after, v, l).Some? && AnyNames(out, v, Get(after, v, l).value)
            else if AnyHas(out, v) && l == level && level > 0 && Get(m, v, l).Some? && Get(m, v, l).value.file in inputs
            then Get(after, v, l) == None
            else Get(after, v, l) == Get(m, v, l)
  {
    hide Get, AfterFile, KeysIncrease, Has, Names;
    if out != [] {
      var t, f := out[..|out|-1], out[|out|-1];
      assert out == t + [f];
      FilesEffect(m, t, level, inputs, v, l);
      FileEffect(AfterFiles(m, t, level, inputs), f, level, inputs, v, l);
      assert AnyHas(out, v) <==> AnyHas(t, v) || Has(f, v);
      assert f in out;
      if AnyHas(t, v) {
        var g :| g in t && Has(g, v);
        var i :| 0 <= i < |t| && t[i] == g;
        assert out[i] == g && !Has(f, v);
      }
    }
  }

  lemma {:induction false} MovedFilesEffect(m: Spots, fs: seq<OutFile>, level: nat, v: u64, l: nat)
    requires WellKeyed(fs) && NoneShared(fs)
    ensures Get(AfterMovedFiles(m, fs, level), v, l) ==
              if AnyHas(fs, v) && l == level then None
              else if AnyHas(fs, v) && l == level + 1 then Get(m, v, level)
              else Get(m, v, l)
  {
    hide Get, AfterMoves, KeysIncrease, Has;
    if fs != [] {
      var t, f := fs[..|fs|-1], fs[|fs|-1];
      assert fs == t + [f];
      MovedFilesEffect(m, t, level, v, l);
      MovedFilesEffect(m, t, level, v, level);
      var m' := AfterMovedFiles(m, t, level);
      assert f in fs;
      MoveEffect(m', f, level, v, l);
      assert AnyHas(fs, v) <==> AnyHas(t, v) || Has(f, v);
      if AnyHas(t, v) {
        var g :| g in t && Has(g, v);
        var i :| 0 <= i < |t| && t[i] == g;
        assert fs[i] == g && !Has(f, v);
      }
    }
  }

  lemma MoveEffect(m: Spots, f: OutFile, level: nat, v: u64, l: nat)
    requires KeysIncrease(f.table.index)
    ensures Get(if f.table.index == [] then m else AfterMoves(m, f, level, |f.table.index| - 1), v, l) ==
              if Has(f, v) && l == level then None
              else if Has(f, v) && l == level + 1 then Get(m, v, level)
              else Get(m, v, l)
  {
    hide Get, AfterMoves, KeysIncrease;
    if f.table.index != [] {
      MovesEffect(m, f, level, |f.table.index| - 1, v, l);
      assert Has(f, v) <==> HasBefore(f, v, |f.table.index| - 1);
    }
  }

  // ---- The invariant ----

  lemma NamesMeansHas(f: OutFile, v: u64, loc: Loc)
    requires Names(f, v, loc)
    ensures Has(f, v) && loc.file == f.id
  {
    var i :| NamesAt(f, v, loc, i);
  }

  /** If only one of the files may hold `v` and it names `a`, nothing else is named. */
  lemma NamedOnce(fs: seq<OutFile>, v: u64, a: Loc, b: Loc)
    requires WellKeyed(fs) && NoneShared(fs) && AnyNames(fs, v, a) && AnyNames(fs, v, b)
    ensures a == b
  {
    hide KeysIncrease, Has, Names;
    var f :| f in fs && Names(f, v, a);
    var g :| g in fs && Names(g, v, b);
    NamesMeansHas(f, v, a);
    NamesMeansHas(g, v, b);
    var i :| 0 <= i < |fs| && fs[i] == f;
    var j :| 0 <= j < |fs| && fs[j] == g;
    assert i == j;
    NamesOne(f, v, a, b);
  }

  lemma LowerKeeps(s: Levels, s': Levels, level: nat, in0: seq<OutFile>, in1: seq<OutFile>, out: seq<OutFile>, v: u64,
                   loc: Loc)
    requires Compacts(s, s', level, in0, in1, out) && LevelOk(s.files[level + 1], s.spots, level + 1)
    ensures Get(s'.spots, v, level + 1) == Some(loc) <==> AnyNames(s'.files[level + 1], v, loc)
  {
    hide Get, KeysIncrease, Has, Names, AfterFiles;
    var rest := Without(s.files[level + 1], in1);
    FilesEffect(s.spots, out, level, Ids(in0), v, level + 1);
    SameNames(s'.files[level + 1], rest + out, v, loc);
    AnyNamesSplit(rest, out, v, loc);
    AnyNamesHas(rest, v, loc);
    AnyNamesHas(out, v, loc);
    if AnyHas(out, v) {
      var here := Get(s'.spots, v, level + 1).value;
      if AnyNames(out, v, loc) {
        NamedOnce(out, v, here, loc);
      }
    } else {
      assert Get(s.spots, v, level + 1) == Some(loc) <==> AnyNames(s.files[level + 1], v, loc);
      RestNames(s.files[level + 1], in1, v, loc);
    }
  }

  lemma SameNames(a: seq<OutFile>, b: seq<OutFile>, v: u64, loc: Loc)
    requires SameFiles(a, b)
    ensures AnyNames(a, v, loc) <==> AnyNames(b, v, loc)
  {
    hide Names;
  }

  lemma AnyNamesSplit(a: seq<OutFile>, b: seq<OutFile>, v: u64, loc: Loc)
    ensures AnyNames(a + b, v, loc) <==> AnyNames(a, v, loc) || AnyNames(b, v, loc)
  {
    hide Names;
    forall f | f in a || f in b ensures f in a + b {}
  }

  lemma AnyNamesHas(fs: seq<OutFile>, v: u64, loc: Loc)
    ensures AnyNames(fs, v, loc) ==> AnyHas(fs, v)
  {
    hide Names, Has;
    if AnyNames(fs, v, loc) {
      var f :| f in fs && Names(f, v, loc);
      NamesMeansHas(f, v, loc);
    }
  }

  /** Where no removed file holds `v`, removing changes nothing. */
  lemma RestNames(fs: seq<OutFile>, gone: seq<OutFile>, v: u64, loc: Loc)
    requires !AnyHas(gone, v)
    ensures AnyNames(Without(fs, gone), v, loc) <==> AnyNames(fs, v, loc)
  {
    hide Names, Has;
    if AnyNames(fs, v, loc) {
      var f :| f in fs && Names(f, v, loc);
      NamesMeansHas(f, v, loc);
      assert f !in gone;
    }
  }

  lemma UpperKeeps(s: Levels, s': Levels, level: nat, in0: seq<OutFile>, in1: seq<OutFile>, out: seq<OutFile>, v: u64,
                   loc: Loc)
    requires Compacts(s, s', level, in0, in1, out) && level > 0 && LevelOk(s.files[level], s.spots, level)
    ensures Get(s'.spots, v, level) == Some(loc) <==> AnyNames(s'.files[level], v, loc)
  {
    hide Get, KeysIncrease, Has, Names, AfterFiles;
    var fs := s.files[level];
    FilesEffect(s.spots, out, level, Ids(in0), v, level);
    assert s'.files[level] == Without(fs, in0);
    assert Get(s.spots, v, level) == Some(loc) <==> AnyNames(fs, v, loc);
    if Get(s.spots, v, level).Some? {
      var was := Get(s.spots, v, level).value;
      assert AnyNames(fs, v, was);
      var f :| f in fs && Names(f, v, was);
      NamesMeansHas(f, v, was);
      assert was.file in Ids(in0) <==> f in in0 by {
        if was.file in Ids(in0) {
          var g :| g in in0 && g.id == was.file;
          assert g == f;
        }
      }
      assert f in in0 ==> AnyHas(in0, v);
      UpperCase(fs, in0, v, was, loc, f);
    } else {
      RestNamesLess(fs, in0, v, loc);
    }
  }

  lemma RestNamesLess(fs: seq<OutFile>, gone: seq<OutFile>, v: u64, loc: Loc)
    ensures AnyNames(Without(fs, gone), v, loc) ==> AnyNames(fs, v, loc)
  {}

  lemma UpperCase(fs: seq<OutFile>, in0: seq<OutFile>, v: u64, was: Loc, loc: Loc, f: OutFile)
    requires f in fs && Names(f, v, was) && (forall x :: AnyNames(fs, v, x) <==> x == was)
    requires forall g, h :: g in fs && h in fs && g.id == h.id ==> g == h
    requires forall g :: g in in0 ==> g in fs
    ensures AnyNames(Without(fs, in0), v, loc) <==> loc == was && f !in in0
  {
    hide Names, Has;
    if AnyNames(Without(fs, in0), v, loc) {
      var g :| g in Without(fs, in0) && Names(g, v, loc);
      assert AnyNames(fs, v, loc);
      NamesMeansHas(g, v, loc);
      NamesMeansHas(f, v, was);
    }
    if loc == was && f !in in0 {
      assert f in Without(fs, in0);
    }
  }

  /** A compaction keeps the index exact on every level. */
  lemma CompactionKeepsIndex(s: Levels, s': Levels, level: nat, in0: seq<OutFile>, in1: seq<OutFile>, out: seq<OutFile>)
    requires IndexOk(s) && Compacts(s, s', level, in0, in1, out)
    ensures IndexOk(s')
  {
    hide Get, AnyNames, AfterFiles, Rewrites;
    forall l | 1 <= l < |s'.files| ensures LevelOk(s'.files[l], s'.spots, l) {
      forall v, loc ensures Get(s'.spots, v, l) == Some(loc) <==> AnyNames(s'.files[l], v, loc) {
        if l == level + 1 {
          LowerKeeps(s, s', level, in0, in1, out, v, loc);
        } else if l == level {
          UpperKeeps(s, s', level, in0, in1, out, v, loc);
        } else {
          OtherLevel(s, s', level, in0, in1, out, v, l);
          assert LevelOk(s.files[l], s.spots, l);
        }
      }
    }
  }

  lemma OtherLevel(s: Levels, s': Levels, level: nat, in0: seq<OutFile>, in1: seq<OutFile>, out: seq<OutFile>, v: u64,
                   l: nat)
    requires Compacts(s, s', level, in0, in1, out) && l != level && l != level + 1
    ensures Get(s'.spots, v, l) == Get(s.spots, v, l)
  {
    hide Get, AfterFiles, AnyHas, NoneShared;
    FilesEffect(s.spots, out, level, Ids(in0), v, l);
  }

  /** A direct move keeps the index exact on every level. */
  lemma MoveKeepsIndex(s: Levels, s': Levels, level: nat, in0: seq<OutFile>)
    requires IndexOk(s) && Moves(s, s', level, in0)
    ensures IndexOk(s')
  {
    hide Get, AnyNames, AfterMovedFiles, NoneShared, WellKeyed;
    forall l | 1 <= l < |s'.files| ensures LevelOk(s'.files[l], s'.spots, l) {
      forall v, loc ensures Get(s'.spots, v, l) == Some(loc) <==> AnyNames(s'.files[l], v, loc) {
        MoveAt(s, s', level, in0, v, loc, l);
      }
    }
  }

  lemma MoveAt(s: Levels, s': Levels, level: nat, in0: seq<OutFile>, v: u64, loc: Loc, l: nat)
    requires IndexOk(s) && Moves(s, s', level, in0) && 1 <= l < |s.files|
    ensures Get(s'.spots, v, l) == Some(loc) <==> AnyNames(s'.files[l], v, loc)
  {
    hide Get, Has, Names, AfterMovedFiles, NoneShared, WellKeyed;
    MovedFilesEffect(s.spots, in0, level, v, l);
    assert LevelOk(s.files[l], s.spots, l) && LevelOk(s.files[level], s.spots, level);
    assert Get(s.spots, v, l) == Some(loc) <==> AnyNames(s.files[l], v, loc);
    assert Get(s.spots, v, level) == Some(loc) <==> AnyNames(s.files[level], v, loc);
    var rest := Without(s.files[level], in0);
    if l == level {
      AnyNamesHas(rest, v, loc);
      if !AnyHas(in0, v) {
        RestNames(s.files[level], in0, v, loc);
      }
    } else if l == level + 1 {
      SameNames(s'.files[l], s.files[l] + in0, v, loc);
      AnyNamesSplit(s.files[l], in0, v, loc);
      AnyNamesHas(s.files[l], v, loc);
      AnyNamesHas(in0, v, loc);
      MovedNames(s.files[level], in0, v, loc);
    }
  }

  /** A vertex of the moved files is named by exactly them on the upper level. */
  lemma MovedNames(fs: seq<OutFile>, in0: seq<OutFile>, v: u64, loc: Loc)
    requires forall f :: f in in0 ==> f in fs
    requires AnyHas(in0, v) ==> !AnyHas(Without(fs, in0), v)
    ensures AnyHas(in0, v) ==> (AnyNames(in0, v, loc) <==> AnyNames(fs, v, loc))
  {
    hide Has, Names;
    if AnyHas(in0, v) && AnyNames(fs, v, loc) {
      var f :| f in fs && Names(f, v, loc);
      NamesMeansHas(f, v, loc);
      assert f in in0 || f in Without(fs, in0);
    }
  }

  /** With an exact index, an invalid entry means no file of the level holds the vertex. */
  lemma InvalidMeansAbsent(s: Levels, l: nat, v: u64)
    requires IndexOk(s) && 1 <= l < |s.files|
    ensures Get(s.spots, v, l) == None <==> !AnyHas(s.files[l], v)
  {
    hide Get;
    if AnyHas(s.files[l], v) {
      var f :| f in s.files[l] && Has(f, v);
      var i :| 0 <= i < |f.table.index| - 1 && f.table.index[i].key == v;
      var loc := Loc(f.id, f.table.index[i].offset, f.table.index[i + 1].offset);
      assert NamesAt(f, v, loc, i);
      assert AnyNames(s.files[l], v, loc);
      assert LevelOk(s.files[l], s.spots, l);
      assert Get(s.spots, v, l) == Some(loc);
    }
    if Get(s.spots, v, l).Some? {
      var loc := Get(s.spots, v, l).value;
      assert LevelOk(s.files[l], s.spots, l);
      assert AnyNames(s.files[l], v, loc);
      AnyNamesHas(s.files[l], v, loc);
    }
  }
}
