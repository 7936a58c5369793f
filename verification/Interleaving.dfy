/** Sequences put together from several others, each kept in its own order. */
module Interleaving {
  /** The elements given to `w`, in order. */
  ghost function Pick<T>(xs: seq<T>, owner: seq<nat>, w: nat): seq<T>
    requires |xs| == |owner|
  {
    if xs == [] then []
    else
      var rest := Pick(xs[..|xs|-1], owner[..|xs|-1], w);
      if owner[|xs|-1] == w then rest + [xs[|xs|-1]] else rest
  }

  lemma PickStep<T>(xs: seq<T>, owner: seq<nat>, x: T, v: nat, w: nat)
    requires |xs| == |owner|
    ensures Pick(xs + [x], owner + [v], w) == if v == w then Pick(xs, owner, w) + [x] else Pick(xs, owner, w)
  {
    assert (xs + [x])[..|xs|] == xs && (owner + [v])[..|xs|] == owner;
  }

  lemma {:induction false} PickMembers<T>(xs: seq<T>, owner: seq<nat>, w: nat)
    requires |xs| == |owner|
    ensures forall x :: x in Pick(xs, owner, w) ==> x in xs
  {
    if xs != [] {
      PickMembers(xs[..|xs|-1], owner[..|xs|-1], w);
    }
  }

  lemma {:induction false} PickNone<T>(xs: seq<T>, owner: seq<nat>, w: nat)
    requires |xs| == |owner| && forall i :: 0 <= i < |owner| ==> owner[i] != w
    ensures Pick(xs, owner, w) == []
  {
    if xs != [] {
      PickNone(xs[..|xs|-1], owner[..|xs|-1], w);
    }
  }

  // ---- All elements together ----

  ghost function AllOf<T>(ways: seq<seq<T>>): multiset<T> {
    if ways == [] then multiset{} else AllOf(ways[..|ways|-1]) + multiset(ways[|ways|-1])
  }

  ghost function Picked<T>(out: seq<T>, from: seq<nat>, n: nat): multiset<T>
    requires |out| == |from|
  {
    if n == 0 then multiset{} else Picked(out, from, n - 1) + multiset(Pick(out, from, n - 1))
  }

  lemma {:induction false} AllPicked<T>(out: seq<T>, from: seq<nat>, ways: seq<seq<T>>, n: nat)
    requires |out| == |from| && n <= |ways| && forall w :: 0 <= w < n ==> Pick(out, from, w) == ways[w]
    ensures Picked(out, from, n) == AllOf(ways[..n])
  {
    if n > 0 {
      AllPicked(out, from, ways, n - 1);
      assert ways[..n][..n-1] == ways[..n-1];
    }
  }

  lemma {:induction false} PickAll<T>(out: seq<T>, from: seq<nat>, n: nat)
    requires |out| == |from| && forall i :: 0 <= i < |from| ==> from[i] < n
    ensures Picked(out, from, n) == multiset(out)
  {
    hide Picked;
    if out == [] {
      assert from == [];
      PickedNothing(out, n);
    } else {
      var k := |out| - 1;
      PickAll(out[..k], from[..k], n);
      PickedStep(out[..k], from[..k], out[k], from[k], n);
      assert out == out[..k] + [out[k]] && from == from[..k] + [from[k]];
    }
  }

  lemma {:induction false} PickedNothing<T>(none: seq<T>, n: nat)
    requires none == []
    ensures Picked(none, [], n) == multiset{}
  {
    if n > 0 {
      PickedNothing(none, n - 1);
    }
  }

  lemma {:induction false} PickedStep<T>(out: seq<T>, from: seq<nat>, x: T, v: nat, n: nat)
    requires |out| == |from|
    ensures Picked(out + [x], from + [v], n) == if v < n then Picked(out, from, n) + multiset{x}
      else Picked(out, from, n)
  {
    if n > 0 {
      PickedStep(out, from, x, v, n - 1);
      PickStep(out, from, x, v, n - 1);
    }
  }

  function Concat<T>(files: seq<seq<T>>): seq<T> {
    if files == [] then [] else Concat(files[..|files|-1]) + files[|files|-1]
  }

  lemma {:induction false} AllOfConcat<T>(xss: seq<seq<T>>)
    ensures multiset(Concat(xss)) == AllOf(xss)
  {
    if xss != [] {
      AllOfConcat(xss[..|xss|-1]);
    }
  }

  lemma {:induction false} AllOfAppend<T>(a: seq<seq<T>>, b: seq<seq<T>>)
    ensures AllOf(a + b) == AllOf(a) + AllOf(b)
    decreases |b|
  {
    if b == [] {
      assert a + b == a;
    } else {
      AllOfAppend(a, b[..|b|-1]);
      assert (a + b)[..|a + b|-1] == a + b[..|b|-1];
    }
  }

  lemma AllOfTwo<T>(a: seq<T>, b: seq<T>)
    ensures AllOf([a, b]) == multiset(a) + multiset(b)
  {
    assert [a, b][..1] == [a] && [a][..0] == [];
    assert AllOf([a]) == multiset(a);
  }

  lemma {:induction false} FromSomeWay<T>(ways: seq<seq<T>>, e: T) returns (w: nat)
    requires e in AllOf(ways)
    ensures w < |ways| && e in ways[w]
  {
    var n := |ways| - 1;
    if e in multiset(ways[n]) {
      w := n;
    } else {
      w := FromSomeWay(ways[..n], e);
    }
  }

  lemma {:induction false} InAllOf<T>(ways: seq<seq<T>>, w: nat, e: T)
    requires w < |ways| && e in ways[w]
    ensures e in AllOf(ways)
  {
    var n := |ways| - 1;
    if w == n {
      assert e in multiset(ways[n]);
    } else {
      InAllOf(ways[..n], w, e);
    }
  }
}
