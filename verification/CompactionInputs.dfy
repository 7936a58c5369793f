/** Choosing the files of one compaction: overlap selection with restarts, and growth. */
module CompactionInputs {
  import opened Records
  import opened TableWriter

  predicate Meets(f: OutFile, lo: u64, hi: u64) {
    f.max >= lo && f.min <= hi
  }

  /** The files that meet `[lo, hi]`, in order. */
  function Meeting(fs: seq<OutFile>, lo: u64, hi: u64): (r: seq<OutFile>)
    ensures forall f :: f in r <==> f in fs && Meets(f, lo, hi)
  {
    if fs == [] then []
    else
      var rest := Meeting(fs[..|fs|-1], lo, hi);
      assert fs == fs[..|fs|-1] + [fs[|fs|-1]];
      if Meets(fs[|fs|-1], lo, hi) then rest + [fs[|fs|-1]] else rest
  }

  /** No file crosses the edge of `[lo, hi]`. */
  ghost predicate Closed(fs: seq<OutFile>, lo: u64, hi: u64) {
    forall f :: f in fs && Meets(f, lo, hi) ==> lo <= f.min && f.max <= hi
  }

  /** `[lo, hi]` is the least closed interval around `[begin, end]`. */
  ghost predicate LeastClosed(fs: seq<OutFile>, begin: u64, end: u64, lo: u64, hi: u64) {
    && lo <= begin && end <= hi && Closed(fs, lo, hi)
    && forall a: u64, b: u64 :: Around(fs, begin, end, a, b) ==> a <= lo && hi <= b
  }

  ghost predicate Around(fs: seq<OutFile>, begin: u64, end: u64, a: u64, b: u64) {
    a <= begin && end <= b && Closed(fs, a, b)
  }

  /** The restarting scan of level 0, whose files may overlap each other. */
  method OverlappingAtZero(fs: seq<OutFile>, begin: u64, end: u64) returns (inputs: seq<OutFile>, lo: u64, hi: u64)
    ensures LeastClosed(fs, begin, end, lo, hi)
    ensures inputs == Meeting(fs, lo, hi)
  {
    lo, hi := begin, end;
    inputs := [];
    var i := 0;
    while i < |fs|
      invariant 0 <= i <= |fs| && lo <= begin && end <= hi
      invariant inputs == Meeting(fs[..i], lo, hi)
      invariant forall j :: 0 <= j < i && Meets(fs[j], lo, hi) ==> lo <= fs[j].min && fs[j].max <= hi
      invariant forall a: u64, b: u64 :: Around(fs, begin, end, a, b) ==> a <= lo && hi <= b
      decreases lo + (LATEST - hi), |fs| - i
    {
      var f := fs[i];
      assert fs[..i+1][..i] == fs[..i];
      i := i + 1;
      if f.max < lo {
      } else if f.min > hi {
      } else {
        inputs := inputs + [f];
        if f.min < lo {
          lo := f.min;
          inputs := [];
          i := 0;
        } else if f.max > hi {
          hi := f.max;
          inputs := [];
          i := 0;
        }
      }
    }
    assert fs[..i] == fs;
  }

  /** The plain scan of a deeper level. */
  method Overlapping(fs: seq<OutFile>, begin: u64, end: u64) returns (inputs: seq<OutFile>)
    ensures inputs == Meeting(fs, begin, end)
  {
    inputs := [];
    var i := 0;
    while i < |fs|
      invariant 0 <= i <= |fs| && inputs == Meeting(fs[..i], begin, end)
    {
      assert fs[..i+1][..i] == fs[..i];
      if !(fs[i].max < begin) && !(fs[i].min > end) {
        inputs := inputs + [fs[i]];
      }
      i := i + 1;
    }
    assert fs[..i] == fs;
  }

  // ---- Picking ----

  /** The file a level's pointer chooses: the first one starting above it, else the first of all. */
  function PickedFile(fs: seq<OutFile>, pointer: Option<u64>): (r: OutFile)
    requires fs != []
    ensures r in fs && (pointer.None? ==> r == fs[0])
    ensures pointer.Some? && (forall f :: f in fs ==> f.min <= pointer.value) ==> r == fs[0]
    ensures pointer.Some? && (exists f :: f in fs && f.min > pointer.value) ==>
      exists k :: 0 <= k < |fs| && fs[k] == r && r.min > pointer.value && forall i :: 0 <= i < k ==>
        fs[i].min <= pointer.value
  {
    match FirstAbove(fs, pointer, 0)
    case Some(i) => fs[i]
    case None => fs[0]
  }

  function FirstAbove(fs: seq<OutFile>, pointer: Option<u64>, from: nat): (r: Option<nat>)
    requires from <= |fs|
    ensures r.Some? ==> from <= r.value < |fs| && Above(fs[r.value], pointer)
    ensures r.Some? ==> forall i :: from <= i < r.value ==> !Above(fs[i], pointer)
    ensures r.None? ==> forall i :: from <= i < |fs| ==> !Above(fs[i], pointer)
    decreases |fs| - from
  {
    if from == |fs| then None else if Above(fs[from], pointer) then Some(from) else FirstAbove(fs, pointer, from + 1)
  }

  predicate Above(f: OutFile, pointer: Option<u64>) {
    pointer.None? || f.min > pointer.value
  }

  /** The first input of a compaction; on level 0 everything it overlaps, directly or not. */
  ghost predicate Started(level: nat, fs: seq<OutFile>, f: OutFile, start: seq<OutFile>) {
    if level > 0 then start == [f]
    else exists lo: u64, hi: u64 :: LeastClosed(fs, f.min, f.max, lo, hi) && start == Meeting(fs, lo, hi)
  }

  method PickFile(level: nat, fs: seq<OutFile>, pointer: Option<u64>) returns (start: seq<OutFile>)
    requires fs != [] && forall f :: f in fs ==> f.min <= f.max
    ensures Started(level, fs, PickedFile(fs, pointer), start)
    ensures PickedFile(fs, pointer) in start && forall f :: f in start ==> f in fs
  {
    var i := 0;
    while i < |fs| && !Above(fs[i], pointer)
      invariant 0 <= i <= |fs| && FirstAbove(fs, pointer, i) == FirstAbove(fs, pointer, 0)
    {
      i := i + 1;
    }
    var f := if i < |fs| then fs[i] else fs[0];
    start := [f];
    if level == 0 {
      var lo, hi;
      start, lo, hi := OverlappingAtZero(fs, f.min, f.max);
    }
  }

  // ---- Ranges ----

  ghost predicate Covers(fs: seq<OutFile>, lo: u64, hi: u64) {
    forall f :: f in fs ==> lo <= f.min && f.max <= hi
  }

  /** `[lo, hi]` is exactly the range of `fs`. */
  ghost predicate Hull(fs: seq<OutFile>, lo: u64, hi: u64) {
    && Covers(fs, lo, hi)
    && (exists f :: f in fs && f.min == lo)
    && (exists f :: f in fs && f.max == hi)
  }

  method GetRange(fs: seq<OutFile>) returns (lo: u64, hi: u64)
    requires fs != []
    ensures Hull(fs, lo, hi)
  {
    lo, hi := fs[0].min, fs[0].max;
    var i := 1;
    ghost var a, b := fs[0], fs[0];
    while i < |fs|
      invariant 1 <= i <= |fs|
      invariant forall j :: 0 <= j < i ==> lo <= fs[j].min && fs[j].max <= hi
      invariant a in fs && b in fs && a.min == lo && b.max == hi
    {
      if fs[i].min < lo {
        lo := fs[i].min;
        a := fs[i];
      }
      if fs[i].max > hi {
        hi := fs[i].max;
        b := fs[i];
      }
      i := i + 1;
    }
  }

  // ---- Growing the upper inputs ----

  lemma {:induction false} MeetingGrows(fs: seq<OutFile>, lo: u64, hi: u64, a: u64, b: u64)
    requires a <= lo && hi <= b
    ensures |Meeting(fs, lo, hi)| <= |Meeting(fs, a, b)|
    ensures |Meeting(fs, lo, hi)| == |Meeting(fs, a, b)| ==> Meeting(fs, lo, hi) == Meeting(fs, a, b)
  {
    if fs != [] {
      MeetingGrows(fs[..|fs|-1], lo, hi, a, b);
    }
  }

  /** What the caller may rely on about the selected inputs of a compaction. */
  ghost predicate Selected(upper: seq<OutFile>, lower: seq<OutFile>, in0: seq<OutFile>, in1: seq<OutFile>, lo: u64,
                           hi: u64) {
    && in0 != [] && (forall f :: f in in0 ==> f in upper)
    && Hull(in0, lo, hi) && in1 == Meeting(lower, lo, hi)
  }

  /** The upper inputs are what was picked, or a stretch of the level around it. */
  ghost predicate Stretched(upper: seq<OutFile>, start: seq<OutFile>, in0: seq<OutFile>) {
    in0 == start || exists lo: u64, hi: u64 :: in0 == Meeting(upper, lo, hi)
  }

  /** All upper files the range of `both` meets; on level 0 also what those meet, and so on. */
  ghost predicate Widened(level: nat, upper: seq<OutFile>, both: seq<OutFile>, e: seq<OutFile>) {
    exists a: u64, b: u64 :: Hull(both, a, b) && WidenedTo(level, upper, a, b, e)
  }

  ghost predicate WidenedTo(level: nat, upper: seq<OutFile>, a: u64, b: u64, e: seq<OutFile>) {
    if level == 0 then exists lo: u64, hi: u64 :: LeastClosed(upper, a, b, lo, hi) && e == Meeting(upper, lo, hi)
    else e == Meeting(upper, a, b)
  }

  /** The range of `e` meets no further lower file. */
  ghost predicate KeepsLower(lower: seq<OutFile>, e: seq<OutFile>, in1: seq<OutFile>) {
    exists c: u64, d: u64 :: Hull(e, c, d) && Meeting(lower, c, d) == in1
  }

  /** Growth happens exactly when it brings in upper files and no lower ones. */
  ghost predicate Grown(level: nat, grow: bool, upper: seq<OutFile>, lower: seq<OutFile>, start: seq<OutFile>,
                        in0: seq<OutFile>, in1: seq<OutFile>) {
    if !grow || in1 == [] then in0 == start
    else exists e ::
        && Widened(level, upper, start + in1, e)
        && in0 == if |e| > |start| && KeepsLower(lower, e, in1) then e else start
  }

  lemma HullIsUnique(fs: seq<OutFile>, lo: u64, hi: u64)
    requires Hull(fs, lo, hi)
    ensures forall a: u64, b: u64 :: Hull(fs, a, b) ==> a == lo && b == hi
  {
    forall a: u64, b: u64 | Hull(fs, a, b) ensures a == lo && b == hi {
      HullMonotone(fs, fs, lo, hi, a, b);
      HullMonotone(fs, fs, a, b, lo, hi);
    }
  }

  lemma HullMonotone(fs: seq<OutFile>, gs: seq<OutFile>, lo: u64, hi: u64, a: u64, b: u64)
    requires Hull(fs, lo, hi) && Hull(gs, a, b) && forall f :: f in fs ==> f in gs
    ensures a <= lo && hi <= b
  {}

  /**
   Selects the lower inputs, then tries to add upper files. Growth never changes
   the chosen lower set, and the lower set is always exact for the final range.
   */
  method SetupOtherInputs(level: nat, grow: bool, upper: seq<OutFile>, lower: seq<OutFile>, start: seq<OutFile>)
    returns (in0: seq<OutFile>, in1: seq<OutFile>, ghost lo: u64, ghost hi: u64, largest: u64)
    requires start != [] && (forall f :: f in start ==> f in upper) && forall f :: f in upper ==> f.min <= f.max
    ensures Selected(upper, lower, in0, in1, lo, hi) && largest == hi
    ensures (forall f :: f in start ==> f in in0) && Stretched(upper, start, in0)
    ensures forall a, b :: Hull(start, a, b) ==> in1 == Meeting(lower, a, b)
    ensures Grown(level, grow, upper, lower, start, in0, in1)
  {
    hide LeastClosed, WidenedTo, Meeting, Closed;
    var smallest;
    smallest, largest := GetRange(start);
    in0 := start;
    in1 := Overlapping(lower, smallest, largest);
    lo, hi := smallest, largest;
    HullIsUnique(start, lo, hi);
    if grow && in1 != [] {
      var allStart, allLimit := GetRange(in0 + in1);
      assert Hull(in0 + in1, allStart, allLimit);
      var expanded0;
      if level == 0 {
        var a, b;
        expanded0, a, b := OverlappingAtZero(upper, allStart, allLimit);
        WidensAtZero(upper, allStart, allLimit, a, b);
      } else {
        expanded0 := Overlapping(upper, allStart, allLimit);
        WidensBelow(level, upper, allStart, allLimit);
      }
      assert Widened(level, upper, start + in1, expanded0);
      forall f | f in start ensures f in expanded0 {
        assert f in in0 + in1;
      }
      if |expanded0| > |in0| {
        var newStart, newLimit := GetRange(expanded0);
        HullIsUnique(expanded0, newStart, newLimit);
        HullMonotone(start, expanded0, lo, hi, newStart, newLimit);
        var expanded1 := Overlapping(lower, newStart, newLimit);
        MeetingGrows(lower, lo, hi, newStart, newLimit);
        if |expanded1| == |in1| {
          in0, in1 := expanded0, expanded1;
          lo, hi, largest := newStart, newLimit, newLimit;
        }
      }
    }
  }

  lemma WidensAtZero(upper: seq<OutFile>, a: u64, b: u64, lo: u64, hi: u64)
    requires LeastClosed(upper, a, b, lo, hi)
    ensures WidenedTo(0, upper, a, b, Meeting(upper, lo, hi))
  {}

  lemma WidensBelow(level: nat, upper: seq<OutFile>, a: u64, b: u64)
    requires level > 0
    ensures WidenedTo(level, upper, a, b, Meeting(upper, a, b))
  {}

  // ---- The lower level stays disjoint ----

  predicate Apart(f: OutFile, g: OutFile) {
    f.max < g.min || g.max < f.min
  }

  ghost predicate Disjoint(fs: seq<OutFile>) {
    forall i, j :: 0 <= i < j < |fs| ==> Apart(fs[i], fs[j])
  }

  /** A lower file left out of the compaction does not meet the whole merged range. */
  lemma RestIsOutside(upper: seq<OutFile>, lower: seq<OutFile>, in0: seq<OutFile>, in1: seq<OutFile>, lo: u64, hi: u64,
                      all0: u64, all1: u64, g: OutFile)
    requires Selected(upper, lower, in0, in1, lo, hi) && Hull(in0 + in1, all0, all1)
    requires lo <= hi && g in lower && g !in in1 && g.min <= g.max
    requires forall f :: f in in1 ==> f.min <= f.max && Apart(f, g)
    ensures !Meets(g, all0, all1)
  {
    assert !Meets(g, lo, hi);
    var f :| f in in0 + in1 && f.min == all0;
    var h :| h in in0 + in1 && h.max == all1;
    assert f in in0 || f in in1;
    assert h in in0 || h in in1;
  }

  /** In order of their ranges, which do not meet. */
  ghost predicate Ranged(fs: seq<OutFile>) {
    && (forall i :: 0 <= i < |fs| ==> fs[i].min <= fs[i].max)
    && forall i, j :: 0 <= i < j < |fs| ==> fs[i].max < fs[j].min
  }

  lemma RangedApart(fs: seq<OutFile>, f: OutFile, g: OutFile)
    requires Ranged(fs) && f in fs && g in fs && f != g
    ensures Apart(f, g)
  {
    var i :| 0 <= i < |fs| && fs[i] == f;
    var j :| 0 <= j < |fs| && fs[j] == g;
    assert i < j || j < i;
  }

  lemma {:induction false} MeetingRanged(fs: seq<OutFile>, lo: u64, hi: u64)
    requires Ranged(fs)
    ensures Ranged(Meeting(fs, lo, hi))
  {
    if fs != [] {
      var t, f := fs[..|fs|-1], fs[|fs|-1];
      MeetingRanged(t, lo, hi);
      var r := Meeting(t, lo, hi);
      forall i | 0 <= i < |r| ensures r[i].max < f.min {
        assert r[i] in t;
        var k :| 0 <= k < |t| && t[k] == r[i];
        assert fs[k] == r[i];
      }
    }
  }

  /** Every non-empty list of files has a range. */
  lemma {:induction false} HullExists(fs: seq<OutFile>) returns (lo: u64, hi: u64)
    requires fs != []
    ensures Hull(fs, lo, hi)
  {
    var t, f := fs[..|fs|-1], fs[|fs|-1];
    assert fs == t + [f];
    if t == [] {
      lo, hi := f.min, f.max;
      assert f in fs;
    } else {
      var a, b := HullExists(t);
      lo, hi := if f.min < a then f.min else a, if f.max > b then f.max else b;
      var x :| x in t && x.min == a;
      var y :| y in t && y.max == b;
      assert f in fs && x in fs && y in fs;
    }
  }

  // ---- A level in order of its sources ----

  function InsertByMin(fs: seq<OutFile>, f: OutFile): seq<OutFile> {
    if fs == [] || fs[|fs|-1].min <= f.min then fs + [f] else InsertByMin(fs[..|fs|-1], f) + [fs[|fs|-1]]
  }

  function ByMin(fs: seq<OutFile>): seq<OutFile> {
    if fs == [] then [] else InsertByMin(ByMin(fs[..|fs|-1]), fs[|fs|-1])
  }

  lemma RangedSnoc(fs: seq<OutFile>, g: OutFile)
    requires Ranged(fs) && g.min <= g.max && forall x :: x in fs ==> x.max < g.min
    ensures Ranged(fs + [g])
  {
    forall i | 0 <= i < |fs| ensures fs[i].max < g.min {
      assert fs[i] in fs;
    }
  }

  lemma RangedLast(fs: seq<OutFile>)
    requires Ranged(fs) && fs != []
    ensures Ranged(fs[..|fs|-1]) && forall x :: x in fs[..|fs|-1] ==> x in fs && x.max < fs[|fs|-1].min
  {
    forall x | x in fs[..|fs|-1] ensures x in fs && x.max < fs[|fs|-1].min {
      var k :| 0 <= k < |fs| - 1 && fs[k] == x;
    }
  }

  lemma {:induction false} InsertedInOrder(fs: seq<OutFile>, f: OutFile)
    requires Ranged(fs) && f.min <= f.max && forall g :: g in fs ==> Apart(g, f)
    ensures Ranged(InsertByMin(fs, f)) && multiset(InsertByMin(fs, f)) == multiset(fs) + multiset{f}
  {
    hide Ranged;
    if fs == [] {
      RangedSnoc(fs, f);
    } else {
      var t, g := fs[..|fs|-1], fs[|fs|-1];
      assert fs == t + [g] && g in fs && g.min <= g.max by { RangedLow(fs); }
      RangedLast(fs);
      if g.min <= f.min {
        RangedSnoc(fs, f);
      } else {
        InsertedInOrder(t, f);
        forall x | x in InsertByMin(t, f) ensures x.max < g.min {
          assert x in multiset(InsertByMin(t, f));
        }
        RangedSnoc(InsertByMin(t, f), g);
      }
    }
  }

  lemma RangedLow(fs: seq<OutFile>)
    requires Ranged(fs)
    ensures forall f :: f in fs ==> f.min <= f.max
  {}

  /** Sorting disjoint files by their least source puts their ranges in order and loses none. */
  lemma {:induction false} ByMinRanged(fs: seq<OutFile>)
    requires Disjoint(fs) && forall i :: 0 <= i < |fs| ==> fs[i].min <= fs[i].max
    ensures Ranged(ByMin(fs)) && multiset(ByMin(fs)) == multiset(fs)
  {
    if fs != [] {
      var t, f := fs[..|fs|-1], fs[|fs|-1];
      assert fs == t + [f];
      ByMinRanged(t);
      forall g | g in ByMin(t) ensures Apart(g, f) {
        assert g in multiset(t);
        var k :| 0 <= k < |t| && t[k] == g;
        assert Apart(fs[k], fs[|fs|-1]);
      }
      InsertedInOrder(ByMin(t), f);
    }
  }

  /** Files in order, and others in order that miss their range, are disjoint together. */
  lemma TogetherDisjoint(a: seq<OutFile>, b: seq<OutFile>)
    requires Ranged(a) && Ranged(b) && forall f, g :: f in a && g in b ==> Apart(f, g)
    ensures Disjoint(a + b) && forall i :: 0 <= i < |a + b| ==> (a + b)[i].min <= (a + b)[i].max
  {
    var s := a + b;
    forall i, j | 0 <= i < j < |s| ensures Apart(s[i], s[j]) {
      if i < |a| <= j {
        assert a[i] in a && b[j - |a|] in b;
      } else if j < |a| {
        assert a[i].max < a[j].min;
      } else {
        assert b[i - |a|].max < b[j - |a|].min;
      }
    }
  }
}
