/**
 A flushed buffer reaches the store group by group, in whatever order the worker's
 table of groups is walked. When every such order leaves the chains in commit order,
 and a buffer for which merging then makes an older value visible.
 */
module GroupOrder {
  import opened Records
  import opened DeltaBatch
  import opened Interleaving
  import opened ColumnChain
  import opened UpdateManager
  import opened Pipeline
  import opened PipelineFlow

  /** What a group of the buffer sends to column `p` after every record was located again. */
  function Part(us: seq<Update>, home: Home, t: Target, p: Target): seq<Record> {
    var groups := GroupBy(ByTarget(us));
    if t in groups then
      var parts := GroupBy(Rebound(home, t, groups[t]));
      if p in parts then parts[p] else []
    else []
  }

  /** The files of column `p` when the groups are walked in this order. */
  function Files(us: seq<Update>, home: Home, order: seq<Target>, p: Target): (fs: seq<seq<Record>>)
    ensures |fs| == |order| && forall i :: 0 <= i < |order| ==> fs[i] == FileRecords(Part(us, home, order[i], p))
  {
    seq(|order|, i requires 0 <= i < |order| => FileRecords(Part(us, home, order[i], p)))
  }

  ghost predicate Different(order: seq<Target>) {
    forall i, j :: 0 <= i < j < |order| ==> order[i] != order[j]
  }

  ghost predicate Targeted(us: seq<Update>, t: Target) {
    exists u :: u in us && u.target == t
  }

  /** The worker walks every group of the buffer once. */
  ghost predicate Walks(us: seq<Update>, order: seq<Target>) {
    Different(order) && forall t :: t in order <==> Targeted(us, t)
  }

  /** Updates of one topology record that name different targets belong to one batch. */
  ghost predicate OneTargetEach(us: seq<Update>) {
    forall u, v :: u in us && v in us && SlotOf(u) == SlotOf(v) && u.target != v.target ==>
        u.record.commit == v.record.commit
  }

  ghost predicate AlwaysOrdered(us: seq<Update>, home: Home) {
    forall order, p :: Walks(us, order) ==> Ordered(Concat(Files(us, home, order, p)))
  }

  // ---- Members of a part ----

  lemma PartMembers(us: seq<Update>, home: Home, t: Target, p: Target, r: Record)
    ensures r in Part(us, home, t, p) <==>
        exists u :: u in us && u.target == t && u.record == r && PlaceOf(home, SlotOf(u)) == p
  {
    hide GroupBy, PlaceOf;
    var xs := ByTarget(us);
    var groups := GroupBy(xs);
    GroupMembers(xs, t, r);
    if t in groups {
      var ys := Rebound(home, t, groups[t]);
      GroupMembers(ys, p, r);
      if r in Part(us, home, t, p) {
        assert Addressed(p, r) in ys;
        var i :| 0 <= i < |ys| && ys[i] == Addressed(p, r);
        assert groups[t][i] == r;
        var j :| 0 <= j < |xs| && xs[j] == Addressed(t, r);
        assert us[j] in us;
      }
    }
    if exists u :: u in us && u.target == t && u.record == r && PlaceOf(home, SlotOf(u)) == p {
      var u :| u in us && u.target == t && u.record == r && PlaceOf(home, SlotOf(u)) == p;
      var j :| 0 <= j < |us| && us[j] == u;
      assert xs[j] == Addressed(t, r);
      var ys := Rebound(home, t, groups[t]);
      var i :| 0 <= i < |groups[t]| && groups[t][i] == r;
      assert ys[i] == Addressed(p, r);
    }
  }

  // ---- Order along several files ----

  ghost predicate InTurn(a: seq<Record>, b: seq<Record>) {
    forall r, s :: r in a && s in b && r.key == s.key ==> r.commit <= s.commit
  }

  lemma OrderedJoin(a: seq<Record>, b: seq<Record>)
    ensures Ordered(a + b) <==> Ordered(a) && Ordered(b) && InTurn(a, b)
  {
    if Ordered(a + b) {
      OrderedParts(a, b);
      forall r, s | r in a && s in b && r.key == s.key ensures r.commit <= s.commit {
        var i :| 0 <= i < |a| && a[i] == r;
        var j :| 0 <= j < |b| && b[j] == s;
        assert (a + b)[i] == r && (a + b)[|a| + j] == s;
      }
    }
    if Ordered(a) && Ordered(b) && InTurn(a, b) {
      forall i, j | 0 <= i < j < |a + b| && (a + b)[i].key == (a + b)[j].key
        ensures (a + b)[i].commit <= (a + b)[j].commit {
        if i < |a| <= j {
          assert a[i] in a && b[j - |a|] in b;
        }
      }
    }
  }

  lemma {:induction false} OrderedFiles(fs: seq<seq<Record>>)
    requires forall i :: 0 <= i < |fs| ==> Ordered(fs[i])
    ensures Ordered(Concat(fs)) <==> forall i, j :: 0 <= i < j < |fs| ==> InTurn(fs[i], fs[j])
  {
    hide Ordered;
    if fs == [] {
      assert Ordered([]) by { NothingOrdered(); }
    } else {
      var n := |fs| - 1;
      var t := fs[..n];
      OrderedFiles(t);
      OrderedJoin(Concat(t), fs[n]);
      InTurnAll(t, fs[n]);
      assert forall i :: 0 <= i < n ==> t[i] == fs[i];
    }
  }

  lemma NothingOrdered()
    ensures Ordered([])
  {}

  lemma {:induction false} InTurnAll(fs: seq<seq<Record>>, b: seq<Record>)
    ensures InTurn(Concat(fs), b) <==> forall i :: 0 <= i < |fs| ==> InTurn(fs[i], b)
  {
    if fs != [] {
      var n := |fs| - 1;
      InTurnAll(fs[..n], b);
      assert InTurn(Concat(fs), b) <==> InTurn(Concat(fs[..n]), b) && InTurn(fs[n], b);
    }
  }

  // ---- The condition ----

  lemma PartsInTurn(us: seq<Update>, home: Home, t: Target, t': Target, p: Target)
    requires OneTargetEach(us) && t != t'
    ensures InTurn(FileRecords(Part(us, home, t, p)), FileRecords(Part(us, home, t', p)))
  {
    hide Part, FileRecords, PlaceOf;
    var a, b := Part(us, home, t, p), Part(us, home, t', p);
    FileReadsLikeBatch(a);
    FileReadsLikeBatch(b);
    forall r, s | r in FileRecords(a) && s in FileRecords(b) && r.key == s.key ensures r.commit <= s.commit {
      PartMembers(us, home, t, p, r);
      PartMembers(us, home, t', p, s);
      var u :| u in us && u.target == t && u.record == r && PlaceOf(home, SlotOf(u)) == p;
      var v :| v in us && v.target == t' && v.record == s && PlaceOf(home, SlotOf(v)) == p;
      SameSlot(home, u, v);
    }
  }

  lemma SameSlot(home: Home, u: Update, v: Update)
    requires PlaceOf(home, SlotOf(u)) == PlaceOf(home, SlotOf(v)) && u.record.key == v.record.key
    ensures SlotOf(u) == SlotOf(v)
  {
    SamePlaceSameSlot(home, u, v);
  }

  /** Some stored record of the part is at least, and some at most, as new as a given update. */
  lemma Brackets(us: seq<Update>, home: Home, u: Update)
    requires u in us
    ensures var f := FileRecords(Part(us, home, u.target, PlaceOf(home, SlotOf(u))));
            && (exists r :: r in f && r.key == u.record.key && r.commit >= u.record.commit)
            && (exists r :: r in f && r.key == u.record.key && r.commit <= u.record.commit)
  {
    hide Part, FileRecords, PlaceOf;
    var p, k, c := PlaceOf(home, SlotOf(u)), u.record.key, u.record.commit;
    var b := Part(us, home, u.target, p);
    PartMembers(us, home, u.target, p, u.record);
    var i :| 0 <= i < |b| && b[i] == u.record;
    FileReadsLikeBatch(b);
    var f := FileRecords(b);
    assert Newest(f, k, LATEST) == Newest(b, k, LATEST) && Newest(f, k, c) == Newest(b, k, c);
    StoredAt(b, f, k, LATEST, i);
    StoredAt(b, f, k, c, i);
  }

  lemma StoredAt(b: seq<Record>, f: seq<Record>, k: Key, limit: u64, i: nat)
    requires i < |b| && b[i].key == k && b[i].commit <= limit && Newest(f, k, limit) == Newest(b, k, limit)
    ensures exists r :: r in f && r.key == k && b[i].commit <= r.commit <= limit
  {
    hide Newest;
    NewestIsGreatest(b, k, limit);
    NewestIsGreatest(f, k, limit);
    assert IfMatches(b[i], k, limit).Some?;
    var x :| 0 <= x < |b| && NewestAt(b, k, limit, x) && b[x] == Newest(b, k, limit).value;
    var y: nat :| NewestAt(f, k, limit, y) && f[y] == Newest(f, k, limit).value;
    assert f[y] in f;
  }

  /**
   Whatever the order in which the groups of a buffer are attached, every chain gets
   its records in commit order, exactly when updates of one topology record that name
   different targets carry one commit.
   */
  lemma AlwaysOrderedIff(us: seq<Update>, home: Home)
    ensures AlwaysOrdered(us, home) <==> OneTargetEach(us)
  {
    hide Part, FileRecords, Ordered, Concat, PlaceOf;
    if OneTargetEach(us) {
      forall order, p | Walks(us, order) ensures Ordered(Concat(Files(us, home, order, p))) {
        var fs := Files(us, home, order, p);
        forall i | 0 <= i < |fs| ensures Ordered(fs[i]) {
          FileReadsLikeBatch(Part(us, home, order[i], p));
        }
        forall i, j | 0 <= i < j < |fs| ensures InTurn(fs[i], fs[j]) {
          PartsInTurn(us, home, order[i], order[j], p);
        }
        OrderedFiles(fs);
      }
    } else {
      var u, v :| u in us && v in us && SlotOf(u) == SlotOf(v) && u.target != v.target &&
        u.record.commit < v.record.commit;
      WrongOrder(us, home, u, v);
    }
  }

  /** An order of all groups that begins with two given ones. */
  lemma {:induction false} OrderFrom(us: seq<Update>, vs: seq<Update>, a: Target, b: Target)
      returns (order: seq<Target>)
    requires a != b && Targeted(us, a) && Targeted(us, b) && forall v :: v in vs ==> v in us
    ensures |order| >= 2 && order[0] == a && order[1] == b && Different(order)
    ensures forall t :: t in order <==> t == a || t == b || Targeted(vs, t)
    decreases |vs|
  {
    if vs == [] {
      order := [a, b];
    } else {
      var n := |vs| - 1;
      var t := vs[n].target;
      order := OrderFrom(us, vs[..n], a, b);
      assert forall x :: Targeted(vs, x) <==> Targeted(vs[..n], x) || x == t by { TargetedSnoc(vs); }
      if t !in order {
        order := order + [t];
      }
    }
  }

  lemma TargetedSnoc(vs: seq<Update>)
    requires vs != []
    ensures forall x :: Targeted(vs, x) <==> Targeted(vs[..|vs|-1], x) || x == vs[|vs|-1].target
  {
    assert vs == vs[..|vs|-1] + [vs[|vs|-1]];
    assert vs[|vs|-1] in vs;
  }

  /** Attaching the group of the newer update first puts the chain out of order. */
  lemma WrongOrder(us: seq<Update>, home: Home, u: Update, v: Update)
    requires u in us && v in us && SlotOf(u) == SlotOf(v) && u.target != v.target && u.record.commit < v.record.commit
    ensures exists order :: Walks(us, order) && !Ordered(Concat(Files(us, home, order, PlaceOf(home, SlotOf(u)))))
  {
    hide Part, FileRecords, Concat, Ordered, PlaceOf;
    var order := OrderFrom(us, us, v.target, u.target);
    var p := PlaceOf(home, SlotOf(u));
    var fs := Files(us, home, order, p);
    forall i | 0 <= i < |fs| ensures Ordered(fs[i]) {
      FileReadsLikeBatch(Part(us, home, order[i], p));
    }
    OrderedFiles(fs);
    Brackets(us, home, u);
    Brackets(us, home, v);
    assert fs[0] == FileRecords(Part(us, home, v.target, p)) && fs[1] == FileRecords(Part(us, home, u.target, p));
    var r: Record :| r in fs[0] && r.key == v.record.key && r.commit >= v.record.commit;
    var s: Record :| s in fs[1] && s.key == u.record.key && s.commit <= u.record.commit;
    assert !InTurn(fs[0], fs[1]);
    assert Walks(us, order);
  }

  // ---- An older value becomes visible ----

  const RECORD := Key(0, 0, true, 0, 0)
  const MOVED_FROM := Target(Kind.Edge, 0, 1, 1, 0)
  const MOVED_TO := Target(Kind.Edge, 0, 2, 2, 0)
  const OLDER := Record(RECORD, 1, [1])
  const NEWER := Record(RECORD, 2, [2])

  lemma GroupOne(t: Target, r: Record)
    ensures GroupBy([Addressed(t, r)]) == map[t := [r]]
  {
    var xs := [Addressed(t, r)];
    assert xs[..|xs|-1] == [] && GroupBy(xs[..|xs|-1]) == map[];
    assert AddTo(map[], xs[0]) == map[t := [] + [r]] && [] + [r] == [r];
  }

  lemma GroupTwo(a: Target, r: Record, b: Target, s: Record)
    requires a != b
    ensures GroupBy([Addressed(a, r), Addressed(b, s)]) == map[a := [r], b := [s]]
  {
    var xs := [Addressed(a, r), Addressed(b, s)];
    assert xs[..|xs|-1] == [Addressed(a, r)];
    GroupOne(a, r);
    assert AddTo(map[a := [r]], xs[1]) == map[a := [r], b := [] + [s]] && [] + [s] == [s];
  }

  lemma FileOfOne(r: Record)
    ensures FileRecords([r]) == [r]
  {
    assert [r][..0] == [];
    assert StableSort([r]) == [r];
    assert Dedupe([r]) == [r];
  }

  /**
   One record updated twice within one buffer, its table compacted in between: the
   updates name two targets and both are rebound to the new one. If the newer group
   is attached first, readers see the newer value until a merge brings the older one back.
   */
  lemma RebindingRegresses()
    ensures var us := [Update(MOVED_FROM, OLDER, true), Update(MOVED_TO, NEWER, true)];
            var home := map[SlotIn(MOVED_TO, RECORD) := 2];
            var chain := Concat(Files(us, home, [MOVED_TO, MOVED_FROM], MOVED_TO));
            && Walks(us, [MOVED_TO, MOVED_FROM]) && chain == [NEWER, OLDER]
            && VersionBefore(chain, [], RECORD) == Some(NEWER) && VersionAfter(chain, [], RECORD) == Some(OLDER)
  {
    hide GroupBy, FileRecords, Files, Walks, Concat, VersionBefore, VersionAfter;
    var us := [Update(MOVED_FROM, OLDER, true), Update(MOVED_TO, NEWER, true)];
    BothFiles(us);
    TwoFiles([NEWER], [OLDER]);
    WalksBoth(us);
    OlderShows();
  }

  lemma BothFiles(us: seq<Update>)
    requires us == [Update(MOVED_FROM, OLDER, true), Update(MOVED_TO, NEWER, true)]
    ensures Files(us, map[SlotIn(MOVED_TO, RECORD) := 2], [MOVED_TO, MOVED_FROM], MOVED_TO) == [[NEWER], [OLDER]]
  {
    hide GroupBy, FileRecords, Part;
    var home: Home := map[SlotIn(MOVED_TO, RECORD) := 2];
    assert ByTarget(us) == [Addressed(MOVED_FROM, OLDER), Addressed(MOVED_TO, NEWER)];
    GroupTwo(MOVED_FROM, OLDER, MOVED_TO, NEWER);
    PartOne(us, home, MOVED_TO, NEWER);
    PartOne(us, home, MOVED_FROM, OLDER);
    FileOfOne(NEWER);
    FileOfOne(OLDER);
  }

  lemma WalksBoth(us: seq<Update>)
    requires us == [Update(MOVED_FROM, OLDER, true), Update(MOVED_TO, NEWER, true)]
    ensures Walks(us, [MOVED_TO, MOVED_FROM])
  {
    assert us[0] in us && us[1] in us;
  }

  lemma TwoFiles(a: seq<Record>, b: seq<Record>)
    ensures Concat([a, b]) == a + b
  {
    assert [a, b][..1] == [a] && [a][..0] == [];
    assert Concat([a]) == a;
  }

  lemma PartOne(us: seq<Update>, home: Home, t: Target, r: Record)
    requires GroupBy(ByTarget(us)) == map[MOVED_FROM := [OLDER], MOVED_TO := [NEWER]]
    requires home == map[SlotIn(MOVED_TO, RECORD) := 2]
    requires (t == MOVED_TO && r == NEWER) || (t == MOVED_FROM && r == OLDER)
    ensures Part(us, home, t, MOVED_TO) == [r]
  {
    hide GroupBy;
    assert Rebound(home, t, [r]) == [Addressed(MOVED_TO, r)];
    GroupOne(MOVED_TO, r);
  }

  lemma OlderShows()
    ensures VersionBefore([NEWER, OLDER], [], RECORD) == Some(NEWER)
    ensures VersionAfter([NEWER, OLDER], [], RECORD) == Some(OLDER)
  {
    var p := [NEWER, OLDER];
    assert p + [] == p && p[..1] == [NEWER] && [NEWER][..0] == [];
    assert Newest([NEWER], RECORD, LATEST) == Some(NEWER);
  }
}
