/** Bits of natural numbers: powers of two, bit fields, and the bitwise operations. */
module Bits {

  // ---------------------------------------------------------------- arithmetic

  lemma MulMono(a: int, b: int, d: int)
    requires a <= b && d >= 0
    ensures a * d <= b * d
  {
  }

  lemma DivUnique(v: int, d: int, q: int)
    requires d > 0 && q * d <= v < q * d + d
    ensures v / d == q && v % d == v - q * d
  {
    var k := v / d;
    assert k * d + v % d == v;
    assert (q + 1) * d == q * d + d && (k + 1) * d == k * d + d;
    if k > q {
      MulMono(q + 1, k, d);
    } else if k < q {
      MulMono(k + 1, q, d);
    }
  }

  lemma DivLe(v: nat, d: nat)
    requires d > 0
    ensures 0 <= v / d <= v
  {
    var q := v / d;
    assert q * d <= v;
    MulMono(1, d, q);
  }

  lemma AddMultiple(a: nat, p: nat, w: nat)
    requires p > 0
    ensures (a + p * w) / p == a / p + w && (a + p * w) % p == a % p
  {
    var q, r := a / p, a % p;
    assert (q + w) * p == q * p + p * w;
    DivUnique(a + p * w, p, q + w);
  }

  lemma ModProduct(v: nat, p: nat, q: nat)
    requires p > 0 && q > 0
    ensures p * q > 0 && v % (p * q) == v % p + p * ((v / p) % q)
  {
    var d, m := v / p / q, (v / p) % q;
    assert v / p == d * q + m;
    assert (d * q + m) * p == d * (p * q) + p * m;
    MulMono(1, p, q);
    MulMono(m + 1, q, p);
    DivUnique(v, p * q, d);
  }

  // ---------------------------------------------------------------- definitions

  function Pow2(n: nat): (p: nat)
    ensures p > 0
  {
    if n == 0 then 1 else 2 * Pow2(n - 1)
  }

  function Shl(v: nat, n: nat): nat {
    v * Pow2(n)
  }

  function Shr(v: nat, n: nat): (r: nat)
    ensures r <= v
  {
    DivLe(v, Pow2(n));
    v / Pow2(n)
  }

  /** Bit k of v. */
  function BitAt(v: nat, k: nat): nat {
    (v / Pow2(k)) % 2
  }

  function Or(a: nat, b: nat): nat {
    if a == 0 then b
    else if b == 0 then a
    else (if a % 2 == 1 || b % 2 == 1 then 1 else 0) + 2 * Or(a / 2, b / 2)
  }

  function And(a: nat, b: nat): (r: nat)
    ensures r <= a && r <= b
  {
    if a == 0 || b == 0 then 0
    else (if a % 2 == 1 && b % 2 == 1 then 1 else 0) + 2 * And(a / 2, b / 2)
  }

  /** a and not b */
  function Bic(a: nat, b: nat): (r: nat)
    ensures r <= a
  {
    if a == 0 then 0
    else if b == 0 then a
    else (if a % 2 == 1 && b % 2 == 0 then 1 else 0) + 2 * Bic(a / 2, b / 2)
  }

  /** The field of `width` bits at position `lsb`. */
  function Field(v: nat, lsb: nat, width: nat): nat {
    (v / Pow2(lsb)) % Pow2(width)
  }

  /** v with the field of `width` bits at `lsb` replaced by the low bits of f. */
  function Insert(v: nat, lsb: nat, width: nat, f: nat): int {
    v - Field(v, lsb, width) * Pow2(lsb) + (f % Pow2(width)) * Pow2(lsb)
  }

  // ---------------------------------------------------------------- powers of two

  lemma {:induction false} Pow2Add(a: nat, b: nat)
    ensures Pow2(a + b) == Pow2(a) * Pow2(b)
  {
    if a > 0 {
      Pow2Add(a - 1, b);
      var p, q := Pow2(a - 1), Pow2(b);
      assert 2 * (p * q) == (2 * p) * q;
    }
  }

  lemma Pow2Step(n: nat)
    ensures Pow2(n + 1) == 2 * Pow2(n)
  {
  }

  lemma {:induction false} Pow2Mono(a: nat, b: nat)
    requires a <= b
    ensures Pow2(a) <= Pow2(b)
    decreases b - a
  {
    if a < b {
      Pow2Mono(a, b - 1);
    }
  }

  /** The powers that occur as constants. */
  lemma Powers()
    ensures Pow2(0) == 1 && Pow2(1) == 2 && Pow2(2) == 4 && Pow2(3) == 8 && Pow2(4) == 0x10 && Pow2(5) == 0x20
    ensures Pow2(6) == 0x40 && Pow2(7) == 0x80 && Pow2(8) == 0x100 && Pow2(10) == 0x400 && Pow2(11) == 0x800
    ensures Pow2(12) == 0x1000 && Pow2(14) == 0x4000 && Pow2(15) == 0x8000 && Pow2(16) == 0x1_0000
  {
    assert Pow2(8) == 0x100 by { assert Pow2(4) == 16; Pow2Add(4, 4); }
    assert Pow2(12) == 0x1000 by { assert Pow2(4) == 16; Pow2Add(4, 8); }
  }

  lemma LargePowers()
    ensures Pow2(31) == 0x8000_0000 && Pow2(32) == 0x1_0000_0000 && Pow2(48) == 0x1_0000_0000_0000
    ensures Pow2(52) == 0x10_0000_0000_0000 && Pow2(53) == 0x20_0000_0000_0000
    ensures Pow2(63) == 0x8000_0000_0000_0000 && Pow2(64) == 0x1_0000_0000_0000_0000
  {
    Powers();
    assert Pow2(32) == 0x1_0000_0000 by { Pow2Add(16, 16); }
    assert Pow2(48) == 0x1_0000_0000_0000 by { Pow2Add(16, 32); }
    assert Pow2(52) == 0x10_0000_0000_0000 by { Pow2Add(4, 48); }
    assert Pow2(64) == 0x1_0000_0000_0000_0000 by { Pow2Add(32, 32); }
  }

  // ---------------------------------------------------------------- bitwise operations by parts

  lemma OrStep(a: nat, b: nat)
    ensures Or(a, b) == (if a % 2 == 1 || b % 2 == 1 then 1 else 0) + 2 * Or(a / 2, b / 2)
  {
  }

  lemma AndStep(a: nat, b: nat)
    ensures And(a, b) == (if a % 2 == 1 && b % 2 == 1 then 1 else 0) + 2 * And(a / 2, b / 2)
  {
  }

  lemma BicStep(a: nat, b: nat)
    ensures Bic(a, b) == (if a % 2 == 1 && b % 2 == 0 then 1 else 0) + 2 * Bic(a / 2, b / 2)
  {
  }

  /** The low n bits and the rest are combined separately. */
  lemma {:induction false} OrSplit(n: nat, a: nat, b: nat, c: nat, d: nat)
    requires a < Pow2(n) && c < Pow2(n)
    ensures Or(a + Shl(b, n), c + Shl(d, n)) == Or(a, c) + Shl(Or(b, d), n)
    decreases n
  {
    if n > 0 {
      ShlStep(b, n);
      ShlStep(d, n);
      ShlStep(Or(b, d), n);
      OrSplit(n - 1, a / 2, b, c / 2, d);
      OrStep(a + Shl(b, n), c + Shl(d, n));
      OrStep(a, c);
      hide Or, Shl;
      assert (a + Shl(b, n)) / 2 == a / 2 + Shl(b, n - 1) && (c + Shl(d, n)) / 2 == c / 2 + Shl(d, n - 1);
    } else {
      hide Or;
    }
  }

  lemma ShlStep(v: nat, n: nat)
    requires n > 0
    ensures Shl(v, n) == 2 * Shl(v, n - 1)
  {
  }

  lemma ModTwice(v: nat, p: nat)
    requires p > 0
    ensures v % (2 * p) == v % 2 + 2 * ((v / 2) % p)
  {
    var q := v / 2 / p;
    assert v / 2 == q * p + (v / 2) % p;
    assert q * (2 * p) == 2 * (q * p);
    DivUnique(v, 2 * p, q);
  }

  /** Masking with 2^n - 1 keeps the low n bits. */
  lemma {:induction false} AndLow(v: nat, n: nat)
    ensures And(v, Pow2(n) - 1) == v % Pow2(n)
  {
    if n > 0 {
      var p := Pow2(n - 1);
      AndLow(v / 2, n - 1);
      AndStep(v, 2 * p - 1);
      ModTwice(v, p);
      hide And;
      assert (2 * p - 1) / 2 == p - 1;
    }
  }

  /** Fields that do not overlap are joined by ORR as by addition. */
  lemma OrBelow(n: nat, low: nat, high: nat)
    requires low < Pow2(n)
    ensures Or(Shl(high, n), low) == low + Shl(high, n) && Or(low, Shl(high, n)) == low + Shl(high, n)
  {
    OrSplit(n, 0, high, low, 0);
    OrSplit(n, low, 0, 0, high);
  }
}
