/** Reference counts of level-0 files and of the versions that list them. */
module VersionCounts {

  /** A set of level-0 files, newest first, with the number of its holders. */
  datatype Version = Version(refs: nat, files: seq<nat>)

  /** The live versions that list `f`. */
  ghost function Users(versions: map<nat, Version>, f: nat): set<nat> {
    set v | v in versions && f in versions[v].files
  }

  /** Holders of a file: its base reference, the versions listing it, and references taken but not yet handed over. */
  ghost function Holders(base: set<nat>, versions: map<nat, Version>, extra: multiset<nat>, f: nat): nat {
    (if f in base then 1 else 0) + |Users(versions, f)| + extra[f]
  }

  /** A file exists exactly while it is held, and its count is the number of holders. */
  ghost predicate Counted(files: map<nat, nat>, base: set<nat>, versions: map<nat, Version>, extra: multiset<nat>) {
    forall f :: (f in files <==> Holders(base, versions, extra, f) > 0) &&
        (f in files ==> files[f] == Holders(base, versions, extra, f))
  }

  function RefFile(files: map<nat, nat>, f: nat): map<nat, nat>
    requires f in files
  {
    files[f := files[f] + 1]
  }

  /** The last reference removes the file. */
  function UnrefFile(files: map<nat, nat>, f: nat): map<nat, nat>
    requires f in files
  {
    if files[f] <= 1 then files - {f} else files[f := files[f] - 1]
  }

  lemma RefKeepsCount(files: map<nat, nat>, base: set<nat>, versions: map<nat, Version>, extra: multiset<nat>, f: nat)
    requires Counted(files, base, versions, extra) && f in files
    ensures Counted(RefFile(files, f), base, versions, extra + multiset{f})
  {
    hide Users;
    forall g
      ensures Holders(base, versions, extra + multiset{f}, g) == Holders(base, versions, extra, g) + if g ==
          f then 1 else 0 {}
  }

  lemma UnrefKeepsCount(files: map<nat, nat>, base: set<nat>, versions: map<nat, Version>, extra: multiset<nat>, f: nat)
    requires Counted(files, base, versions, extra) && f in extra
    ensures f in files && Counted(UnrefFile(files, f), base, versions, extra - multiset{f})
  {
    hide Users;
    assert Holders(base, versions, extra, f) > 0;
    forall g
      ensures Holders(base, versions, extra - multiset{f}, g) == Holders(base, versions, extra, g) - if g ==
          f then 1 else 0 {}
  }

  ghost predicate Distinct(s: seq<nat>) {
    forall i, j :: 0 <= i < j < |s| ==> s[i] != s[j]
  }

  lemma {:induction false} DistinctOnce(s: seq<nat>, f: nat)
    requires Distinct(s)
    ensures multiset(s)[f] == if f in s then 1 else 0
  {
    if s != [] {
      var t := s[..|s|-1];
      assert s == t + [s[|s|-1]];
      DistinctOnce(t, f);
      if f == s[|s|-1] {
        assert f !in t;
      }
    }
  }

  /** A dying version leaves its references to be dropped one by one. */
  lemma DropVersion(files: map<nat, nat>, base: set<nat>, versions: map<nat, Version>, extra: multiset<nat>, v: nat)
    requires Counted(files, base, versions, extra) && v in versions && Distinct(versions[v].files)
    ensures Counted(files, base, versions - {v}, extra + multiset(versions[v].files))
  {
    var s := versions[v].files;
    forall f ensures Holders(base, versions - {v}, extra + multiset(s), f) == Holders(base, versions, extra, f) {
      DistinctOnce(s, f);
      assert Users(versions - {v}, f) == Users(versions, f) - {v};
    }
  }

  /** A new version takes over references taken for it. */
  lemma AddVersion(files: map<nat, nat>, base: set<nat>, versions: map<nat, Version>, extra: multiset<nat>, v: nat,
                   x: Version)
    requires Counted(files, base, versions, extra + multiset(x.files)) && v !in versions && Distinct(x.files)
    ensures Counted(files, base, versions[v := x], extra)
  {
    hide Users;
    forall f
      ensures Holders(base, versions[v := x], extra, f) == Holders(base, versions, extra + multiset(x.files), f) {
      DistinctOnce(x.files, f);
      AddUser(versions, v, x, f);
    }
  }

  lemma AddUser(versions: map<nat, Version>, v: nat, x: Version, f: nat)
    requires v !in versions
    ensures |Users(versions[v := x], f)| == |Users(versions, f)| + if f in x.files then 1 else 0
  {
    if f in x.files {
      assert Users(versions[v := x], f) == Users(versions, f) + {v};
    } else {
      assert Users(versions[v := x], f) == Users(versions, f);
    }
  }

  lemma SameLists(files: map<nat, nat>, base: set<nat>, versions: map<nat, Version>, extra: multiset<nat>, v: nat,
                  n: nat)
    requires Counted(files, base, versions, extra) && v in versions
    ensures Counted(files, base, versions[v := versions[v].(refs := n)], extra)
  {
    forall f ensures Users(versions[v := versions[v].(refs := n)], f) == Users(versions, f) {}
  }

  lemma NewBase(files: map<nat, nat>, base: set<nat>, versions: map<nat, Version>, extra: multiset<nat>, f: nat)
    requires Counted(files, base, versions, extra) && f !in files
    ensures Counted(files[f := 1], base + {f}, versions, extra)
  {
    hide Users;
    assert Holders(base, versions, extra, f) == 0;
  }

  lemma DropBase(files: map<nat, nat>, base: set<nat>, versions: map<nat, Version>, extra: multiset<nat>, f: nat)
    requires Counted(files, base, versions, extra) && f in base
    ensures f in files && Counted(UnrefFile(files, f), base - {f}, versions, extra)
  {
    hide Users;
    assert Holders(base, versions, extra, f) > 0;
    forall g
      ensures Holders(base - {f}, versions, extra, g) == Holders(base, versions, extra, g) - if g == f then 1 else 0 {}
  }

  // ---- The ring of versions ----

  function After(r: seq<nat>, i: nat): nat
    requires i < |r|
  {
    if i + 1 < |r| then r[i+1] else r[0]
  }

  function Before(r: seq<nat>, i: nat): nat
    requires i < |r|
  {
    if i > 0 then r[i-1] else r[|r|-1]
  }

  ghost predicate LinkedAt(next: map<nat, nat>, prev: map<nat, nat>, r: seq<nat>, i: nat) {
    i < |r| && r[i] in next && r[i] in prev && next[r[i]] == After(r, i) && prev[r[i]] == Before(r, i)
  }

  /** The dummy head 0, then the versions, linked both ways in a ring. */
  ghost predicate Ring(next: map<nat, nat>, prev: map<nat, nat>, r: seq<nat>) {
    && |r| > 0 && r[0] == 0 && Distinct(r)
    && forall i :: 0 <= i < |r| ==> LinkedAt(next, prev, r, i)
  }

  /** Linking a version in right behind the head. */
  lemma RingInsert(next: map<nat, nat>, prev: map<nat, nat>, r: seq<nat>, v: nat)
    requires Ring(next, prev, r) && v !in r
    ensures 0 in next && Ring(next[v := next[0]][0 := v], prev[next[0] := v][v := 0], [0, v] + r[1..])
  {
    assert LinkedAt(next, prev, r, 0);
    var q, first := [0, v] + r[1..], next[0];
    assert first in r;
    var n, p := next[v := first][0 := v], prev[first := v][v := 0];
    forall i | 0 <= i < |q| ensures q[i] == if i == 0 then 0 else if i == 1 then v else r[i-1] {}
    forall i | 0 <= i < |q| ensures LinkedAt(n, p, q, i) {
      if i >= 2 {
        assert LinkedAt(next, prev, r, i - 1);
        assert q[i] != v && q[i] != 0;
      }
    }
  }

  /** Unlinking one: its neighbours point at each other. */
  lemma RingRemove(next: map<nat, nat>, prev: map<nat, nat>, r: seq<nat>, k: nat)
    requires Ring(next, prev, r) && 0 < k < |r|
    ensures r[k] in next && r[k] in prev
    ensures Ring(next[prev[r[k]] := next[r[k]]], prev[next[r[k]] := prev[r[k]]], r[..k] + r[k+1..])
  {
    assert LinkedAt(next, prev, r, k);
    var v, q := r[k], r[..k] + r[k+1..];
    var left, right := prev[v], next[v];
    var n, p := next[left := right], prev[right := left];
    forall i | 0 <= i < |q| ensures q[i] == r[if i < k then i else i + 1] {}
    forall i | 0 <= i < |q| ensures LinkedAt(n, p, q, i) {
      var j := if i < k then i else i + 1;
      assert LinkedAt(next, prev, r, j);
      Neighbours(next, prev, r, k, j);
    }
  }

  /** Which nodes have `r[k]` as neighbour. */
  lemma Neighbours(next: map<nat, nat>, prev: map<nat, nat>, r: seq<nat>, k: nat, j: nat)
    requires Ring(next, prev, r) && k < |r| && j < |r|
    ensures r[j] == Before(r, k) <==> j == if k > 0 then k - 1 else |r| - 1
    ensures r[j] == After(r, k) <==> j == if k + 1 < |r| then k + 1 else 0
  {}

  // ---- Newest first ----

  ghost predicate NewestFirst(s: seq<nat>) {
    forall i, j :: 0 <= i < j < |s| ==> s[i] > s[j]
  }

  function InsertNewest(s: seq<nat>, f: nat): (r: seq<nat>)
    ensures multiset(r) == multiset(s) + multiset{f}
  {
    if s == [] || f > s[0] then [f] + s
    else
      assert s == [s[0]] + s[1..];
      [s[0]] + InsertNewest(s[1..], f)
  }

  /** `std::sort` by descending time stamp. */
  function SortNewest(s: seq<nat>): seq<nat> {
    if s == [] then [] else InsertNewest(SortNewest(s[1..]), s[0])
  }

  lemma InsertMembers(s: seq<nat>, f: nat)
    ensures forall x :: x in InsertNewest(s, f) <==> x in s || x == f
  {
    hide InsertNewest;
    forall x ensures x in InsertNewest(s, f) <==> x in s || x == f {
      assert x in InsertNewest(s, f) <==> x in multiset(InsertNewest(s, f));
      assert x in s <==> x in multiset(s);
    }
  }

  lemma Prepend(x: nat, t: seq<nat>)
    requires NewestFirst(t) && forall y :: y in t ==> x > y
    ensures NewestFirst([x] + t)
  {
    assert forall i :: 0 <= i < |t| ==> t[i] in t;
  }

  lemma {:induction false} InsertNewestKeeps(s: seq<nat>, f: nat)
    requires NewestFirst(s) && f !in s
    ensures NewestFirst(InsertNewest(s, f))
  {
    if s == [] || f > s[0] {
      Prepend(f, s);
    } else {
      InsertNewestKeeps(s[1..], f);
      InsertMembers(s[1..], f);
      assert s[0] in s;
      Prepend(s[0], InsertNewest(s[1..], f));
    }
  }

  lemma {:induction false} SortNewestSorts(s: seq<nat>)
    requires Distinct(s)
    ensures NewestFirst(SortNewest(s)) && multiset(SortNewest(s)) == multiset(s)
    ensures forall x :: x in SortNewest(s) <==> x in s
  {
    if s != [] {
      assert s == [s[0]] + s[1..];
      SortNewestSorts(s[1..]);
      assert forall i :: 0 < i < |s| ==> s[i] == s[1..][i-1];
      InsertNewestKeeps(SortNewest(s[1..]), s[0]);
      InsertMembers(SortNewest(s[1..]), s[0]);
    }
  }
}
