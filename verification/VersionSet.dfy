/** The version set: reference-counted level-0 file lists, switched as a whole. */
module VersionSet {
  import opened Records
  import opened VersionCounts

  /** A version's count is its snapshots, plus one if it is current; uncounted versions are gone. */
  ghost predicate Held(versions: map<nat, Version>, current: Option<nat>, snapshots: multiset<nat>) {
    && (forall v :: v in versions ==>
      versions[v].refs == snapshots[v] + (if current == Some(v) then 1 else 0) && versions[v].refs > 0)
    && (forall v :: v in snapshots ==> v in versions)
    && (current.Some? ==> current.value in versions)
  }

  /** File lists are newest first; the ring links exactly the live versions. */
  ghost predicate Listed(versions: map<nat, Version>, next: map<nat, nat>, prev: map<nat, nat>, ring: seq<nat>,
                         ids: nat) {
    && (forall v :: v in versions ==> NewestFirst(versions[v].files))
    && Ring(next, prev, ring)
    && (forall v :: v in versions <==> v in ring[1..])
    && (forall v :: v in versions ==> 0 < v < ids) && ids > 0
  }

  function Drop(versions: map<nat, Version>, v: nat): map<nat, Version>
    requires v in versions
  {
    if versions[v].refs <= 1 then versions - {v} else versions[v := versions[v].(refs := versions[v].refs - 1)]
  }

  lemma DropCurrent(versions: map<nat, Version>, v: nat, snapshots: multiset<nat>)
    requires Held(versions, Some(v), snapshots)
    ensures Held(Drop(versions, v), None, snapshots)
  {}

  lemma DropSnapshot(versions: map<nat, Version>, current: Option<nat>, snapshots: multiset<nat>, v: nat)
    requires Held(versions, current, snapshots) && v in snapshots
    ensures v in versions && Held(Drop(versions, v), current, snapshots - multiset{v})
  {}

  class LevelZeroVersions {
    var files: map<nat, nat>
    var versions: map<nat, Version>
    var next: map<nat, nat>
    var prev: map<nat, nat>
    var current: nat
    var ids: nat
    ghost var base: set<nat>             // files whose creation reference is still held
    ghost var snapshots: multiset<nat>   // versions held by snapshots
    ghost var ring: seq<nat>

    ghost predicate Valid()
      reads this
    {
      && Counted(files, base, versions, multiset{})
      && Held(versions, Some(current), snapshots)
      && Listed(versions, next, prev, ring, ids)
    }

    /** One empty current version, no files. */
    constructor ()
      ensures Valid() && files == map[] && base == {} && snapshots == multiset{} && versions[current].files == []
    {
      files, versions, current, ids := map[], map[1 := Version(1, [])], 1, 2;
      next, prev := map[0 := 1, 1 := 0], map[0 := 1, 1 := 0];
      base, snapshots, ring := {}, multiset{}, [0, 1];
    }

    /** A new table file starts with one reference. */
    method AddFile(f: nat)
      requires Valid() && f !in files
      modifies this`files, this`base
      ensures Valid() && files == old(files)[f := 1] && base == old(base) + {f}
    {
      hide Counted, Held, Listed;
      NewBase(files, base, versions, multiset{}, f);
      files := files[f := 1];
      base := base + {f};
    }

    /** Gives up the creation reference; the file goes when no version lists it. */
    method RetireFile(f: nat)
      requires Valid() && f in base
      modifies this`files, this`base
      ensures Valid() && base == old(base) - {f}
      ensures f in files <==> exists v :: v in versions && f in versions[v].files
    {
      hide Held, Listed;
      DropBase(files, base, versions, multiset{}, f);
      files := UnrefFile(files, f);
      base := base - {f};
      StillListed(files, base, versions, f);
    }

    method TakeSnapshot() returns (v: nat)
      requires Valid()
      modifies this`versions, this`snapshots
      ensures Valid() && v == current && snapshots == old(snapshots) + multiset{v}
      ensures versions == old(versions)[v := old(versions)[v].(refs := old(versions)[v].refs + 1)]
    {
      hide Counted, Ring, NewestFirst;
      v := current;
      SameLists(files, base, versions, multiset{}, v, versions[v].refs + 1);
      versions := versions[v := versions[v].(refs := versions[v].refs + 1)];
      snapshots := snapshots + multiset{v};
    }

    /** Drops a reference of every file in the list, deleting those that reach zero. */
    method UnrefFiles(s: seq<nat>, ghost keep: multiset<nat>)
      requires Counted(files, base, versions, keep + multiset(s))
      modifies this`files
      ensures Counted(files, base, versions, keep)
      // what others hold is never deleted
      ensures forall f :: f in keep ==> f in files
    {
      hide Counted;
      var i := 0;
      assert s[0..] == s;
      while i < |s|
        invariant 0 <= i <= |s| && Counted(files, base, versions, keep + multiset(s[i..]))
      {
        assert s[i..] == [s[i]] + s[i+1..];
        UnrefKeepsCount(files, base, versions, keep + multiset(s[i..]), s[i]);
        assert keep + multiset(s[i..]) - multiset{s[i]} == keep + multiset(s[i+1..]);
        files := UnrefFile(files, s[i]);
        i := i + 1;
      }
      assert keep + multiset(s[i..]) == keep;
      KeptExist(files, base, versions, keep);
    }

    /** Drops one holder of a version; the last one takes the version and its file references along. */
    method UnrefVersion(v: nat, ghost keep: multiset<nat>)
      requires Counted(files, base, versions, keep) && Listed(versions, next, prev, ring, ids) && v in versions
      modifies this`files, this`versions, this`next, this`prev, this`ring
      ensures Counted(files, base, versions, keep) && Listed(versions, next, prev, ring, ids)
      ensures versions == Drop(old(versions), v)
      ensures forall f :: f in keep ==> f in files
    {
      hide Counted, Ring, NewestFirst;
      if versions[v].refs > 1 {
        SameLists(files, base, versions, keep, v, versions[v].refs - 1);
        versions := versions[v := versions[v].(refs := versions[v].refs - 1)];
        KeptExist(files, base, versions, keep);
        return;
      }
      var list := versions[v].files;
      NewestIsDistinct(list);
      DropVersion(files, base, versions, keep, v);
      versions := versions - {v};
      UnrefFiles(list, keep);
      ghost var k := Unlink(old(versions), versions, next, prev, ring, ids, v);
      next, prev := next[prev[v] := next[v]], prev[next[v] := prev[v]];
      ring := ring[..k] + ring[k+1..];
    }

    /** A snapshot lets go of its version. */
    method ReleaseSnapshot(v: nat)
      requires Valid() && v in snapshots
      modifies this`files, this`versions, this`next, this`prev, this`ring, this`snapshots
      ensures Valid() && snapshots == old(snapshots) - multiset{v} && versions == Drop(old(versions), v)
      // a file goes with the last version that lists it, unless its creator still holds it
      ensures forall f :: f in files <==> f in base || Lists(versions, f)
    {
      hide Counted, Listed;
      DropSnapshot(versions, Some(current), snapshots, v);
      UnrefVersion(v, multiset{});
      snapshots := snapshots - multiset{v};
      FilesLive(files, base, versions);
    }

    /** Switches to a new version holding these files, whose references were taken before. */
    method AppendVersion(list: seq<nat>)
      requires Counted(files, base, versions, multiset(list)) && Held(versions, Some(current), snapshots)
      requires Listed(versions, next, prev, ring, ids) && NewestFirst(list)
      modifies this
      ensures Valid() && current == old(ids)
      ensures versions == Drop(old(versions), old(current))[current := Version(1, list)]
      ensures base == old(base) && snapshots == old(snapshots)
      ensures forall f :: f in list ==> f in files
    {
      hide Counted, Held, Listed;
      CurrentLives(versions, current, snapshots);
      DropCurrent(versions, current, snapshots);
      UnrefVersion(current, multiset(list));
      Enter(versions, next, prev, ring, ids, list, snapshots);
      NewestIsDistinct(list);
      assert multiset{} + multiset(list) == multiset(list);
      AddVersion(files, base, versions, multiset{}, ids, Version(1, list));
      current := ids;
      ids := ids + 1;
      versions := versions[current := Version(1, list)];
      var first := next[0];
      next := next[current := first][0 := current];
      prev := prev[first := current][current := 0];
      ring := [0, current] + ring[1..];
    }

    /** Takes a reference on every file that is not deleted, and appends it to the list. */
    method TakeFiles(source: seq<nat>, deleted: set<nat>, taken: seq<nat>) returns (list: seq<nat>)
      requires Counted(files, base, versions, multiset(taken)) && forall f :: f in source ==> f in files
      modifies this`files
      ensures list == taken + Remaining(source, deleted) && Counted(files, base, versions, multiset(list))
      ensures forall f :: f in files <==> f in old(files)
    {
      hide Counted;
      list := taken;
      var i := 0;
      assert source[..0] == [] && taken + Remaining([], deleted) == taken;
      while i < |source|
        invariant 0 <= i <= |source| && list == taken + Remaining(source[..i], deleted)
        invariant Counted(files, base, versions, multiset(list))
        invariant forall f :: f in files <==> f in old(files)
      {
        var f := source[i];
        assert source[..i+1][..i] == source[..i];
        if f !in deleted {
          RefKeepsCount(files, base, versions, multiset(list), f);
          files := RefFile(files, f);
          assert multiset(list + [f]) == multiset(list) + multiset{f};
          list := list + [f];
        }
        i := i + 1;
      }
      assert source[..i] == source;
    }

    /** References and lists the files of the next version, newest first. */
    method BuildList(was: seq<nat>, added: seq<nat>, deleted: set<nat>) returns (list: seq<nat>)
      requires Counted(files, base, versions, multiset{}) && Distinct(was) && Distinct(added)
      requires forall f :: f in added ==> f !in was
      requires forall f :: f in was || f in added ==> f in files
      modifies this`files
      ensures Counted(files, base, versions, multiset(list)) && NewestFirst(list)
      ensures forall f :: f in list <==> f !in deleted && (f in was || f in added)
    {
      hide Counted, SortNewest, NewestFirst, Remaining, Distinct;
      NextList(was, added, deleted);
      var none: seq<nat> := [];
      assert multiset(none) == multiset{};
      list := TakeFiles(was, deleted, none);
      list := TakeFiles(added, deleted, list);
      assert list == Remaining(was, deleted) + Remaining(added, deleted);
      if |list| > 1 {
        list := SortNewest(list);
      } else {
        SortOne(list);
      }
    }

    /** Builds the next version from the current one and the edit, and switches to it. */
    method LogAndApply(added: seq<nat>, deleted: set<nat>)
      requires Valid() && Distinct(added)
      requires forall f :: f in added ==> f in files && f !in versions[current].files
      modifies this
      ensures Valid() && NewestFirst(versions[current].files) && base == old(base) && snapshots == old(snapshots)
      ensures forall f :: f in versions[current].files <==>
          f !in deleted && (f in old(versions)[old(current)].files || f in added)
      ensures forall f :: f in versions[current].files ==> f in files
      // a snapshot keeps the list it was taken with, and the files on it stay
      ensures forall v :: v in snapshots ==>
          v in old(versions) && v in versions && versions[v].files == old(versions)[v].files
      ensures forall v, f :: v in snapshots && f in versions[v].files ==> f in files
      ensures current == old(ids) && versions == Drop(old(versions), old(current))[current := versions[current]]
    {
      hide Counted, Held, Listed, NewestFirst, Distinct, Drop;
      CurrentLives(versions, current, snapshots);
      ListedFilesExist(files, base, versions, next, prev, ring, ids, current);
      var list := BuildList(versions[current].files, added, deleted);
      SnapshotsKeep(versions, next, prev, ring, ids, current, snapshots, list);
      AppendVersion(list);
      AllListedExist(files, base, versions);
    }
  }

  /** Switching versions leaves the list of every snapshot alone. */
  lemma SnapshotsKeep(versions: map<nat, Version>, next: map<nat, nat>, prev: map<nat, nat>, ring: seq<nat>, ids: nat,
                      current: nat, snapshots: multiset<nat>, list: seq<nat>)
    requires Held(versions, Some(current), snapshots) && Listed(versions, next, prev, ring, ids)
    ensures var after := Drop(versions, current)[ids := Version(1, list)];
            forall v :: v in snapshots ==> v in versions && v in after && after[v].files == versions[v].files
  {
    hide Ring, NewestFirst;
  }

  lemma AllListedExist(files: map<nat, nat>, base: set<nat>, versions: map<nat, Version>)
    requires Counted(files, base, versions, multiset{})
    ensures forall v, f :: v in versions && f in versions[v].files ==> f in files
  {
    forall v, f | v in versions && f in versions[v].files ensures f in files {
      assert v in Users(versions, f);
      assert Holders(base, versions, multiset{}, f) > 0;
    }
  }

  lemma KeptExist(files: map<nat, nat>, base: set<nat>, versions: map<nat, Version>, keep: multiset<nat>)
    requires Counted(files, base, versions, keep)
    ensures forall f :: f in keep ==> f in files
  {
    hide Users;
    forall f | f in keep ensures f in files {
      assert Holders(base, versions, keep, f) > 0;
    }
  }

  lemma StillListed(files: map<nat, nat>, base: set<nat>, versions: map<nat, Version>, f: nat)
    requires Counted(files, base, versions, multiset{}) && f !in base
    ensures f in files <==> exists v :: v in versions && f in versions[v].files
  {
    assert f in files <==> Holders(base, versions, multiset{}, f) > 0;
    assert |Users(versions, f)| > 0 <==> Users(versions, f) != {};
    if exists v :: v in versions && f in versions[v].files {
      var v :| v in versions && f in versions[v].files;
      assert v in Users(versions, f);
    }
    if Users(versions, f) != {} {
      var v :| v in Users(versions, f);
    }
  }

  ghost predicate Lists(versions: map<nat, Version>, f: nat) {
    exists v :: v in versions && f in versions[v].files
  }

  /** Exactly the files that are listed by a version or held by their creator exist. */
  lemma FilesLive(files: map<nat, nat>, base: set<nat>, versions: map<nat, Version>)
    requires Counted(files, base, versions, multiset{})
    ensures forall f :: f in files <==> f in base || Lists(versions, f)
  {
    forall f ensures f in files <==> f in base || Lists(versions, f) {
      assert f in files <==> Holders(base, versions, multiset{}, f) > 0;
      assert |Users(versions, f)| > 0 <==> Users(versions, f) != {};
      if Lists(versions, f) {
        var v :| v in versions && f in versions[v].files;
        assert v in Users(versions, f);
      }
      if Users(versions, f) != {} {
        var v :| v in Users(versions, f);
        assert v in versions && f in versions[v].files;
      }
    }
  }

  lemma NewestIsDistinct(s: seq<nat>)
    requires NewestFirst(s)
    ensures Distinct(s)
  {}

  lemma CurrentLives(versions: map<nat, Version>, current: nat, snapshots: multiset<nat>)
    requires Held(versions, Some(current), snapshots)
    ensures current in versions
  {}

  /** Where a version is linked, and that the ring without it links the others. */
  lemma Unlink(before: map<nat, Version>, after: map<nat, Version>, next: map<nat, nat>, prev: map<nat, nat>,
               ring: seq<nat>, ids: nat, v: nat)
    returns (k: nat)
    requires Listed(before, next, prev, ring, ids) && v in before && after == before - {v}
    ensures 0 < k < |ring| && v in next && v in prev
    ensures Listed(after, next[prev[v] := next[v]], prev[next[v] := prev[v]], ring[..k] + ring[k+1..], ids)
  {
    hide LinkedAt, NewestFirst;
    var t := ring[1..];
    assert v in t;
    var i :| 0 <= i < |t| && t[i] == v;
    k := i + 1;
    RingRemove(next, prev, ring, k);
    var q := ring[..k] + ring[k+1..];
    forall w ensures w in after <==> w in q[1..] {
      RingMembers(ring, k, w);
    }
  }

  lemma RingMembers(r: seq<nat>, k: nat, w: nat)
    requires Distinct(r) && 0 < k < |r|
    ensures w in (r[..k] + r[k+1..])[1..] <==> w in r[1..] && w != r[k]
  {
    var q := r[..k] + r[k+1..];
    if w in r[1..] && w != r[k] {
      var i :| 0 < i < |r| && r[i] == w;
      assert q[1..][if i < k then i - 1 else i - 2] == w;
    }
    if w in q[1..] {
      var i :| 0 < i < |q| && q[i] == w;
      assert r[if i < k then i else i + 1] == w;
      assert r[1..][if i < k then i - 1 else i] == w;
    }
  }

  /** A new version can be linked in and held as current. */
  lemma Enter(versions: map<nat, Version>, next: map<nat, nat>, prev: map<nat, nat>, ring: seq<nat>, ids: nat,
              list: seq<nat>, snapshots: multiset<nat>)
    requires Listed(versions, next, prev, ring, ids) && Held(versions, None, snapshots) && NewestFirst(list)
    ensures ids !in versions && 0 in next && |ring| > 0
    ensures Listed(versions[ids := Version(1, list)], next[ids := next[0]][0 := ids], prev[next[0] := ids][ids := 0],
        [0, ids] + ring[1..], ids + 1)
    ensures Held(versions[ids := Version(1, list)], Some(ids), snapshots)
  {
    hide LinkedAt, NewestFirst;
    assert ids !in ring by {
      assert ids !in ring[1..];
      assert ring == [ring[0]] + ring[1..];
    }
    RingInsert(next, prev, ring, ids);
    var q := [0, ids] + ring[1..];
    assert q[1..] == [ids] + ring[1..];
  }

  // ---- Building a version ----

  function Remaining(s: seq<nat>, deleted: set<nat>): (r: seq<nat>)
    ensures forall f :: f in r <==> f in s && f !in deleted
  {
    if s == [] then []
    else
      var t := Remaining(s[..|s|-1], deleted);
      assert s == s[..|s|-1] + [s[|s|-1]];
      if s[|s|-1] in deleted then t else t + [s[|s|-1]]
  }

  lemma {:induction false} RemainingKeepsDistinct(s: seq<nat>, deleted: set<nat>)
    requires Distinct(s)
    ensures Distinct(Remaining(s, deleted))
  {
    if s != [] {
      RemainingKeepsDistinct(s[..|s|-1], deleted);
      assert s[|s|-1] !in s[..|s|-1];
    }
  }

  lemma RemainingDistinct(was: seq<nat>, added: seq<nat>, deleted: set<nat>)
    requires Distinct(was) && Distinct(added) && forall f :: f in added ==> f !in was
    ensures Distinct(Remaining(was, deleted) + Remaining(added, deleted))
  {
    RemainingKeepsDistinct(was, deleted);
    RemainingKeepsDistinct(added, deleted);
    var a, b := Remaining(was, deleted), Remaining(added, deleted);
    forall i, j | 0 <= i < j < |a + b| ensures (a + b)[i] != (a + b)[j] {
      if i < |a| <= j {
        assert a[i] in a && b[j - |a|] in b;
      }
    }
  }

  lemma NextList(was: seq<nat>, added: seq<nat>, deleted: set<nat>)
    requires Distinct(was) && Distinct(added) && forall f :: f in added ==> f !in was
    ensures var l := Remaining(was, deleted) + Remaining(added, deleted);
            && NewestFirst(SortNewest(l)) && multiset(SortNewest(l)) == multiset(l)
            && forall f :: f in SortNewest(l) <==> f !in deleted && (f in was || f in added)
  {
    hide SortNewest, NewestFirst, Distinct;
    RemainingDistinct(was, added, deleted);
    SortNewestSorts(Remaining(was, deleted) + Remaining(added, deleted));
  }

  lemma SortOne(s: seq<nat>)
    requires |s| <= 1
    ensures SortNewest(s) == s
  {}

  /** Files of a live version exist, and its list has no file twice. */
  lemma ListedFilesExist(files: map<nat, nat>, base: set<nat>, versions: map<nat, Version>, next: map<nat, nat>,
                         prev: map<nat, nat>, ring: seq<nat>, ids: nat, v: nat)
    requires Counted(files, base, versions, multiset{}) && Listed(versions, next, prev, ring, ids) && v in versions
    ensures forall f :: f in versions[v].files ==> f in files
    ensures Distinct(versions[v].files) && NewestFirst(versions[v].files)
  {
    forall f | f in versions[v].files ensures f in files {
      assert v in Users(versions, f);
      assert Holders(base, versions, multiset{}, f) > 0;
    }
  }
}
