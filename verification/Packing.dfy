/** Packed little-endian records: how every on-disk structure of the store is laid out. */
module Packing {
  import opened Records

  function Pow256(w: nat): nat {
    if w == 0 then 1 else 256 * Pow256(w - 1)
  }

  /** The `w` low bytes of `n`, least significant first. */
  function Le(n: nat, w: nat): (b: Bytes)
    ensures |b| == w
    decreases w
  {
    if w == 0 then [] else [n % 256] + Le(n / 256, w - 1)
  }

  function UnLe(b: Bytes): nat {
    if b == [] then 0 else b[0] + 256 * UnLe(b[1..])
  }

  function Width(ws: seq<nat>): nat {
    if ws == [] then 0 else ws[0] + Width(ws[1..])
  }

  /** A packed structure: each field in its own width. */
  function Pack(vs: seq<nat>, ws: seq<nat>): (b: Bytes)
    requires |vs| == |ws|
    ensures |b| == Width(ws)
  {
    if ws == [] then [] else Le(vs[0], ws[0]) + Pack(vs[1..], ws[1..])
  }

  function Unpack(b: Bytes, ws: seq<nat>): (vs: seq<nat>)
    requires |b| >= Width(ws)
    ensures |vs| == |ws|
  {
    if ws == [] then [] else [UnLe(b[..ws[0]])] + Unpack(b[ws[0]..], ws[1..])
  }

  ghost predicate Fits(vs: seq<nat>, ws: seq<nat>) {
    |vs| == |ws| && forall i :: 0 <= i < |vs| ==> vs[i] < Pow256(ws[i])
  }

  lemma {:induction false} UnLeOfLe(n: nat, w: nat)
    requires n < Pow256(w)
    ensures UnLe(Le(n, w)) == n
    decreases w
  {
    if w > 0 {
      DivideBelow(n, Pow256(w - 1));
      UnLeOfLe(n / 256, w - 1);
      assert Le(n, w)[1..] == Le(n / 256, w - 1);
    }
  }

  lemma DivideBelow(n: nat, p: nat)
    requires n < 256 * p
    ensures n / 256 < p
  {}

  lemma LowByte(x: nat, n: nat, p: nat)
    requires x < 256 && n < p
    ensures (x + 256 * n) % 256 == x && (x + 256 * n) / 256 == n && x + 256 * n < 256 * p
  {}

  lemma {:induction false} LeOfUnLe(b: Bytes)
    ensures Le(UnLe(b), |b|) == b && UnLe(b) < Pow256(|b|)
  {
    if b != [] {
      LeOfUnLe(b[1..]);
      LowByte(b[0], UnLe(b[1..]), Pow256(|b| - 1));
      assert b == [b[0]] + b[1..];
    }
  }

  /** Reading a packed structure gives back its fields, whatever follows it. */
  lemma {:induction false} UnpackOfPack(vs: seq<nat>, ws: seq<nat>, rest: Bytes)
    requires Fits(vs, ws)
    ensures Unpack(Pack(vs, ws) + rest, ws) == vs
    decreases |ws|
  {
    hide Le, UnLe, Pow256;
    if ws != [] {
      var b := Pack(vs, ws) + rest;
      UnLeOfLe(vs[0], ws[0]);
      UnpackOfPack(vs[1..], ws[1..], rest);
      assert b[..ws[0]] == Le(vs[0], ws[0]);
      assert b[ws[0]..] == Pack(vs[1..], ws[1..]) + rest;
    }
  }

  /** Writing what was read gives back the bytes. */
  lemma {:induction false} PackOfUnpack(b: Bytes, ws: seq<nat>)
    requires |b| >= Width(ws)
    ensures Pack(Unpack(b, ws), ws) == b[..Width(ws)] && Fits(Unpack(b, ws), ws)
    decreases |ws|
  {
    hide Le, UnLe, Pow256;
    if ws != [] {
      LeOfUnLe(b[..ws[0]]);
      PackOfUnpack(b[ws[0]..], ws[1..]);
      var vs := Unpack(b, ws);
      assert vs[1..] == Unpack(b[ws[0]..], ws[1..]);
      assert b[..Width(ws)] == b[..ws[0]] + b[ws[0]..][..Width(ws[1..])];
      forall i | 0 <= i < |vs| ensures vs[i] < Pow256(ws[i]) {
        if i > 0 {
          assert vs[i] == vs[1..][i-1] && ws[i] == ws[1..][i-1];
        }
      }
    }
  }

  /** Only the bytes of the structure are read. */
  lemma {:induction false} UnpackPrefix(b: Bytes, c: Bytes, ws: seq<nat>)
    requires |b| >= Width(ws) && |c| >= Width(ws) && b[..Width(ws)] == c[..Width(ws)]
    ensures Unpack(b, ws) == Unpack(c, ws)
  {
    hide UnLe;
    if ws != [] {
      var n, w := ws[0], Width(ws);
      assert b[..n] == b[..w][..n] && c[..n] == c[..w][..n];
      assert b[n..][..w - n] == b[..w][n..] && c[n..][..w - n] == c[..w][n..];
      UnpackPrefix(b[n..], c[n..], ws[1..]);
    }
  }

  /** The last field stands behind the others. */
  lemma {:induction false} PackLast(vs: seq<nat>, ws: seq<nat>)
    requires |vs| == |ws| > 0
    ensures var n := |ws| - 1; Pack(vs, ws) == Pack(vs[..n], ws[..n]) + Le(vs[n], ws[n])
    decreases |ws|
  {
    hide Le;
    var n := |ws| - 1;
    if n > 0 {
      PackLast(vs[1..], ws[1..]);
      assert vs[1..][..n-1] == vs[..n][1..] && ws[1..][..n-1] == ws[..n][1..];
      assert Pack(vs[..n], ws[..n]) == Le(vs[0], ws[0]) + Pack(vs[..n][1..], ws[..n][1..]);
    }
  }

  lemma {:induction false} WidthAppend(a: seq<nat>, b: seq<nat>)
    ensures Width(a + b) == Width(a) + Width(b)
  {
    if a == [] {
      assert a + b == b;
    } else {
      WidthAppend(a[1..], b);
      assert (a + b)[1..] == a[1..] + b;
    }
  }

  lemma Powers()
    ensures Pow256(1) == 0x100 && Pow256(2) == 0x1_0000 && Pow256(3) == 0x100_0000 && Pow256(4) == 0x1_0000_0000
    ensures Pow256(7) == 0x100_0000_0000_0000 && Pow256(8) == 0x1_0000_0000_0000_0000
  {
    assert Pow256(2) == 256 * Pow256(1) && Pow256(3) == 256 * Pow256(2) && Pow256(4) == 256 * Pow256(3);
    assert Pow256(5) == 256 * Pow256(4) && Pow256(6) == 256 * Pow256(5) && Pow256(7) == 256 * Pow256(6);
  }

  // ---- The streaming checksum ----

  const FNV_OFFSET: u64 := 14695981039346656037
  const FNV_PRIME: nat := 1099511628211
  const FNV_INVERSE: nat := 14886173955864302971   // of the prime, modulo 2^64
  const MODULUS: nat := 0x1_0000_0000_0000_0000

  /** Exclusive or of the `n` low bits. */
  function Xor(a: nat, b: nat, n: nat): nat {
    if n == 0 then 0 else (a % 2 + b % 2) % 2 + 2 * Xor(a / 2, b / 2, n - 1)
  }

  function Pow2(n: nat): nat {
    if n == 0 then 1 else 2 * Pow2(n - 1)
  }

  lemma {:induction false} XorBound(a: nat, b: nat, n: nat)
    ensures Xor(a, b, n) < Pow2(n)
    decreases n
  {
    if n > 0 {
      XorBound(a / 2, b / 2, n - 1);
    }
  }

  lemma XorStep(a: nat, b: nat, n: nat)
    requires n > 0
    ensures Xor(a, b, n) % 2 == (a % 2 + b % 2) % 2 && Xor(a, b, n) / 2 == Xor(a / 2, b / 2, n - 1)
  {}

  lemma Bits(a: nat, c: nat)
    requires a != c
    ensures a % 2 != c % 2 || a / 2 != c / 2
  {}

  /** Different bits give different results, in either argument. */
  lemma {:induction false} XorInjective(a: nat, c: nat, b: nat, n: nat)
    requires a < Pow2(n) && c < Pow2(n) && a != c
    ensures Xor(a, b, n) != Xor(c, b, n) && Xor(b, a, n) != Xor(b, c, n)
    decreases n
  {
    hide Xor;
    assert n > 0;
    XorStep(a, b, n);
    XorStep(c, b, n);
    XorStep(b, a, n);
    XorStep(b, c, n);
    Bits(a, c);
    if a % 2 == c % 2 {
      XorInjective(a / 2, c / 2, b / 2, n - 1);
    }
  }

  lemma XorByte(a: byte, b: byte)
    ensures Xor(a, b, 8) < 256
  {
    XorBound(a, b, 8);
    Eight();
  }

  lemma Eight()
    ensures Pow2(8) == 256
  {
    assert Pow2(4) == 16 && Pow2(5) == 32 && Pow2(6) == 64 && Pow2(7) == 128;
  }

  /** The byte changes the low bits, then the whole is multiplied. */
  function Mixed(h: u64, b: byte): (r: u64)
    ensures r / 256 == h / 256 && r % 256 == Xor(h % 256, b, 8)
  {
    XorByte(h % 256, b);
    h / 256 * 256 + Xor(h % 256, b, 8)
  }

  function Mix(h: u64, b: byte): u64 {
    (Mixed(h, b) * FNV_PRIME) % MODULUS
  }

  function Extend(h: u64, b: Bytes): u64
    decreases |b|
  {
    if b == [] then h else Extend(Mix(h, b[0]), b[1..])
  }

  /** Checksumming in pieces is checksumming the whole. */
  lemma {:induction false} ExtendAppend(h: u64, a: Bytes, b: Bytes)
    ensures Extend(h, a + b) == Extend(Extend(h, a), b)
    decreases |a|
  {
    hide Mix;
    if a == [] {
      assert a + b == b;
    } else {
      ExtendAppend(Mix(h, a[0]), a[1..], b);
      assert (a + b)[1..] == a[1..] + b;
    }
  }

  /** Multiplying by an inverse undoes a multiplication, up to the modulus. */
  lemma Inverted(d: int, k: int, prime: int, inverse: int, r: int, modulus: int)
    requires prime * inverse == r * modulus + 1 && d * prime == k * modulus
    ensures d == modulus * (k * inverse - d * r)
  {
    assert d * (prime * inverse) == (d * prime) * inverse;
    assert (k * modulus) * inverse == modulus * (k * inverse);
    assert d * (r * modulus + 1) == modulus * (d * r) + d;
    assert modulus * (k * inverse) - modulus * (d * r) == modulus * (k * inverse - d * r);
  }

  lemma NoMultiple(d: int, z: int, modulus: int)
    requires -modulus < d < modulus && d == modulus * z
    ensures d == 0
  {
    assert z >= 1 ==> modulus * z >= modulus;
    assert z <= -1 ==> modulus * z <= -modulus;
  }

  lemma SameRest(a: nat, b: nat, modulus: nat)
    requires modulus > 0 && a % modulus == b % modulus
    ensures a - b == (a / modulus - b / modulus) * modulus
  {}

  lemma TimesPrimeInjective(x: u64, y: u64)
    requires (x * FNV_PRIME) % MODULUS == (y * FNV_PRIME) % MODULUS
    ensures x == y
  {
    var k, r := (x * FNV_PRIME) / MODULUS - (y * FNV_PRIME) / MODULUS, (FNV_PRIME * FNV_INVERSE) / MODULUS;
    assert FNV_PRIME * FNV_INVERSE == r * MODULUS + 1;
    SameRest(x * FNV_PRIME, y * FNV_PRIME, MODULUS);
    assert (x - y) * FNV_PRIME == k * MODULUS;
    Inverted(x - y, k, FNV_PRIME, FNV_INVERSE, r, MODULUS);
    NoMultiple(x - y, k * FNV_INVERSE - (x - y) * r, MODULUS);
  }

  /** One step loses nothing: a different byte or a different sum so far gives a different sum. */
  lemma MixInjective(g: u64, h: u64, a: byte, b: byte)
    requires (g == h && a != b) || (g != h && a == b)
    ensures Mix(g, a) != Mix(h, b)
  {
    hide Xor;
    Eight();
    if g == h {
      XorInjective(a, b, g % 256, 8);
    } else if g % 256 != h % 256 {
      XorInjective(g % 256, h % 256, a, 8);
    }
    assert Mixed(g, a) != Mixed(h, b);
    if Mix(g, a) == Mix(h, b) {
      TimesPrimeInjective(Mixed(g, a), Mixed(h, b));
    }
  }

  lemma {:induction false} ExtendInjective(g: u64, h: u64, b: Bytes)
    requires g != h
    ensures Extend(g, b) != Extend(h, b)
    decreases |b|
  {
    hide Mix;
    if b != [] {
      MixInjective(g, h, b[0], b[0]);
      ExtendInjective(Mix(g, b[0]), Mix(h, b[0]), b[1..]);
    }
  }

  /** A change of one byte always changes the sum. */
  lemma OneByteChangesSum(h: u64, b: Bytes, i: nat, x: byte)
    requires i < |b| && x != b[i]
    ensures Extend(h, b[i := x]) != Extend(h, b)
  {
    hide Mix, Extend;
    var a, c := b[..i], b[i+1..];
    assert b == a + ([b[i]] + c) && b[i := x] == a + ([x] + c);
    ExtendAppend(h, a, [b[i]] + c);
    ExtendAppend(h, a, [x] + c);
    var g := Extend(h, a);
    ExtendCons(g, b[i], c);
    ExtendCons(g, x, c);
    MixInjective(g, g, b[i], x);
    ExtendInjective(Mix(g, b[i]), Mix(g, x), c);
  }

  lemma ExtendCons(h: u64, x: byte, b: Bytes)
    ensures Extend(h, [x] + b) == Extend(Mix(h, x), b)
  {
    assert ([x] + b)[1..] == b;
  }

  // ---- Signed fields ----

  function ToUnsigned(n: i64): u64 {
    if n < 0 then n + 0x1_0000_0000_0000_0000 else n
  }

  function ToSigned(n: u64): i64 {
    if n < 0x8000_0000_0000_0000 then n else n - 0x1_0000_0000_0000_0000
  }
}
