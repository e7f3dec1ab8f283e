/** Python's shift and bitwise operators on non-negative integers, which have
    no width: `a << n`, `a >> n`, `a | b` and `a & b`, with the facts about
    them that the ioctl encoding and the file modes rely on. */
module Bits {

  function Pow2(n: nat): (r: nat)
    ensures r >= 1
  {
    if n == 0 then 1 else 2 * Pow2(n - 1)
  }

  /** `a << n`. */
  function Shl(a: nat, n: nat): (r: nat)
    ensures Shr(r, n) == a
  {
    ShrDiv(a * Pow2(n), n);
    DivModUnique(a * Pow2(n), Pow2(n), a, 0);
    a * Pow2(n)
  }

  /** `a >> n`, one bit at a time. */
  function Shr(a: nat, n: nat): (r: nat)
    ensures r <= a
  {
    if n == 0 then a else Shr(a / 2, n - 1)
  }

  /** Shifting right by `n` divides by `2^n`. */
  lemma {:induction false} ShrDiv(a: nat, n: nat)
    ensures Shr(a, n) == a / Pow2(n)
  {
    if n > 0 {
      ShrDiv(a / 2, n - 1);
      DivDiv(a, 2, Pow2(n - 1));
    }
  }

  /** `a | b`, bit by bit from the lowest. */
  function Or(a: nat, b: nat): (r: nat)
    decreases a + b
  {
    if a == 0 && b == 0 then 0
    else 2 * Or(a / 2, b / 2) + (if a % 2 == 1 || b % 2 == 1 then 1 else 0)
  }

  /** `a & b`, bit by bit from the lowest. */
  function And(a: nat, b: nat): (r: nat)
    decreases a + b
  {
    if a == 0 && b == 0 then 0
    else 2 * And(a / 2, b / 2) + (if a % 2 == 1 && b % 2 == 1 then 1 else 0)
  }

  lemma Pow2Values()
    ensures Pow2(8) == 0x100 && Pow2(12) == 0x1000 && Pow2(14) == 0x4000
    ensures Pow2(15) == 0x8000 && Pow2(16) == 0x1_0000 && Pow2(30) == 0x4000_0000
    ensures Pow2(22) == 0x40_0000 && Pow2(32) == 0x1_0000_0000
  {
    assert Pow2(2) == 4;
    assert Pow2(4) == 16;
    assert Pow2(6) == 64;
    assert Pow2(8) == 256;
    assert Pow2(10) == 1024;
    assert Pow2(12) == 4096;
    assert Pow2(14) == 16384;
    assert Pow2(16) == 65536;
    assert Pow2(18) == 262144;
    assert Pow2(20) == 1048576;
    assert Pow2(22) == 4194304;
    assert Pow2(24) == 16777216;
    assert Pow2(26) == 67108864;
    assert Pow2(28) == 268435456;
    assert Pow2(30) == 1073741824;
  }

  /** Splitting both operands at bit `k`, the high and low parts combine
      independently: `(x << k | lo) | (y << k | ylo)` is
      `(x | y) << k | (lo | ylo)` when the low parts are below `2^k`. */
  lemma {:induction false} OrSplit(x: nat, lo: nat, y: nat, ylo: nat, k: nat)
    requires lo < Pow2(k) && ylo < Pow2(k)
    ensures Or(x * Pow2(k) + lo, y * Pow2(k) + ylo) == Or(x, y) * Pow2(k) + Or(lo, ylo)
  {
    if k > 0 {
      var p := Pow2(k - 1);
      var xp, yp, zp := x * p, y * p, Or(x, y) * p;
      Double(x, p);
      Double(y, p);
      Double(Or(x, y), p);
      var a := 2 * xp + lo;
      var b := 2 * yp + ylo;
      Half(xp, lo);
      Half(yp, ylo);
      OrSplit(x, lo / 2, y, ylo / 2, k - 1);
      OrUnfold(a, b);
      OrUnfold(lo, ylo);
    }
  }

  /** The same for `&`. */
  lemma {:induction false} AndSplit(x: nat, lo: nat, y: nat, ylo: nat, k: nat)
    requires lo < Pow2(k) && ylo < Pow2(k)
    ensures And(x * Pow2(k) + lo, y * Pow2(k) + ylo) == And(x, y) * Pow2(k) + And(lo, ylo)
  {
    if k > 0 {
      var p := Pow2(k - 1);
      var xp, yp, zp := x * p, y * p, And(x, y) * p;
      Double(x, p);
      Double(y, p);
      Double(And(x, y), p);
      var a := 2 * xp + lo;
      var b := 2 * yp + ylo;
      Half(xp, lo);
      Half(yp, ylo);
      AndSplit(x, lo / 2, y, ylo / 2, k - 1);
      AndUnfold(a, b);
      AndUnfold(lo, ylo);
    }
  }

  lemma Double(x: nat, p: nat)
    ensures x * (2 * p) == 2 * (x * p)
  {
  }

  lemma Half(m: nat, lo: nat)
    ensures (2 * m + lo) / 2 == m + lo / 2 && (2 * m + lo) % 2 == lo % 2
  {
  }

  /** The recursive step of `|` holds for every pair, zero included. */
  lemma OrUnfold(a: nat, b: nat)
    ensures Or(a, b) == 2 * Or(a / 2, b / 2) + (if a % 2 == 1 || b % 2 == 1 then 1 else 0)
  {
  }

  lemma AndUnfold(a: nat, b: nat)
    ensures And(a, b) == 2 * And(a / 2, b / 2) + (if a % 2 == 1 && b % 2 == 1 then 1 else 0)
  {
  }

  /** 0 is the identity of `|`. */
  lemma {:induction false} OrZero(a: nat)
    ensures Or(a, 0) == a && Or(0, a) == a
    decreases a
  {
    if a > 0 {
      OrZero(a / 2);
    }
  }

  /** 0 annihilates `&`. */
  lemma {:induction false} AndZero(a: nat)
    ensures And(a, 0) == 0 && And(0, a) == 0
    decreases a
  {
    if a > 0 {
      AndZero(a / 2);
    }
  }

  /** Fields that do not overlap: `|` of a value shifted past `lo` and `lo`
      itself is their sum. */
  lemma Disjoint(x: nat, lo: nat, k: nat)
    requires lo < Pow2(k)
    ensures Or(x * Pow2(k), lo) == x * Pow2(k) + lo
    ensures Or(lo, x * Pow2(k)) == x * Pow2(k) + lo
  {
    DisjointLeft(x, lo, k);
    DisjointRight(x, lo, k);
  }

  lemma DisjointLeft(x: nat, lo: nat, k: nat)
    requires lo < Pow2(k)
    ensures Or(x * Pow2(k), lo) == x * Pow2(k) + lo
  {
    var p := Pow2(k);
    OrSplit(x, 0, 0, lo, k);
    assert x * p + 0 == x * p && 0 * p + lo == lo;
    OrZero(x);
    OrZero(lo);
  }

  lemma DisjointRight(x: nat, lo: nat, k: nat)
    requires lo < Pow2(k)
    ensures Or(lo, x * Pow2(k)) == x * Pow2(k) + lo
  {
    var p := Pow2(k);
    OrSplit(0, lo, x, 0, k);
    assert x * p + 0 == x * p && 0 * p + lo == lo;
    OrZero(x);
    OrZero(lo);
  }

  /** `x & (2^n - 1)` keeps the low `n` bits of `x`. */
  lemma {:induction false} AndLowMask(x: nat, n: nat)
    ensures And(x, Pow2(n) - 1) == x % Pow2(n)
  {
    if n == 0 {
      AndZero(x);
    } else {
      var p := Pow2(n - 1);
      AndLowMask(x / 2, n - 1);
      AndUnfold(x, Pow2(n) - 1);
      assert (Pow2(n) - 1) / 2 == p - 1 && (Pow2(n) - 1) % 2 == 1;
      ModDouble(x, p);
    }
  }

  lemma ModDouble(x: nat, p: nat)
    requires p >= 1
    ensures x % (2 * p) == 2 * ((x / 2) % p) + x % 2
  {
    var q := (x / 2) / p;
    var r := (x / 2) % p;
    assert x / 2 == q * p + r;
    assert x == (2 * p) * q + (2 * r + x % 2);
    DivModUnique(x, 2 * p, q, 2 * r + x % 2);
  }

  /** Division and remainder are determined by any decomposition with a
      remainder in range. */
  lemma DivModUnique(x: nat, d: nat, q: nat, r: nat)
    requires d >= 1 && r < d && x == d * q + r
    ensures x / d == q && x % d == r
  {
    var q0, r0 := x / d, x % d;
    assert x == d * q0 + r0;
    if q0 < q {
      MulStep(d, q0);
      MulMono(d, q0 + 1, q);
      assert false;
    } else if q < q0 {
      MulStep(d, q);
      MulMono(d, q + 1, q0);
      assert false;
    }
  }

  lemma MulStep(d: nat, q: nat)
    ensures d * (q + 1) == d * q + d
  {
  }

  lemma MulDistrib(a: nat, b: nat, q: nat, r: nat)
    ensures a * (b * q + r) == (a * b) * q + a * r
  {
  }

  lemma MulMono(d: nat, a: nat, b: nat)
    requires a <= b
    ensures d * a <= d * b
  {
  }

  lemma DivDiv(x: nat, pa: nat, pb: nat)
    requires pa >= 1 && pb >= 1
    ensures (x / pa) / pb == x / (pa * pb)
  {
    var q := (x / pa) / pb;
    var r := (x / pa) % pb;
    var s := x % pa;
    assert x / pa == pb * q + r;
    assert x == pa * (x / pa) + s;
    MulDistrib(pa, pb, q, r);
    MulMono(pa, r, pb - 1);
    MulStep(pa, pb - 1);
    DivModUnique(x, pa * pb, q, pa * r + s);
  }
}
