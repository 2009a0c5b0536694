/**
 Which values AND, ORR and EOR can take as an immediate (is_bitmask_immediate), against the
 architecture's DecodeBitMasks.
 */
module BitmaskImmediate {
  import opened Words
  import opened Bits
  import opened Arm

  // ---------------------------------------------------------------- counting bits

  /** RBIT then CLZ. */
  function Ctz(v: nat): nat
    requires v > 0
  {
    if v % 2 == 1 then 0 else 1 + Ctz(v / 2)
  }

  function Clz64(v: Word): int
    requires v > 0
  {
    63 - HighestSetBit(v)
  }

  lemma {:induction false} CtzOf(q: nat, n: nat)
    requires q % 2 == 1
    ensures q * Pow2(n) > 0 && Ctz(q * Pow2(n)) == n
  {
    if n > 0 {
      CtzOf(q, n - 1);
      assert q * Pow2(n) == 2 * (q * Pow2(n - 1));
    }
  }

  lemma {:induction false} Odd(v: nat)
    requires v > 0
    ensures v == (v / Pow2(Ctz(v))) * Pow2(Ctz(v)) && (v / Pow2(Ctz(v))) % 2 == 1
  {
    if v % 2 == 0 {
      Odd(v / 2);
      var n := Ctz(v / 2);
      var q := v / 2 / Pow2(n);
      assert q * Pow2(n + 1) == 2 * (q * Pow2(n));
      hide Ctz;
      DivUnique(v, Pow2(n + 1), q);
    }
  }

  lemma {:induction false} HighestOf(v: nat, n: nat)
    requires Pow2(n) <= v < Pow2(n + 1)
    ensures HighestSetBit(v) == n
  {
    if n > 0 {
      HighestOf(v / 2, n - 1);
    }
  }

  // ---------------------------------------------------------------- runs of ones

  /** The value is a single run of ones: ((filled + 1) & filled) == 0 for filled = (v - 1) | v. */
  predicate Contiguous(v: Word)
    requires v > 0
  {
    var filled := Or(v - 1, v);
    And(X(filled + 1), filled) == 0
  }

  /** `len` ones shifted left by `rot`. */
  function Ones(len: nat, rot: nat): nat {
    Shl(Pow2(len) - 1, rot)
  }

  lemma {:induction false} AndSelf(v: nat)
    ensures And(v, v) == v
  {
    if v > 0 {
      AndSelf(v / 2);
      AndStep(v, v);
      hide And;
    }
  }

  lemma {:induction false} AndNext(n: nat)
    ensures And(Pow2(n), Pow2(n) - 1) == 0
  {
    if n > 0 {
      AndNext(n - 1);
      var p := Pow2(n - 1);
      AndStep(2 * p, 2 * p - 1);
      hide And;
      assert (2 * p - 1) / 2 == p - 1;
    }
  }

  lemma {:induction false} AllOnes(q: nat) returns (n: nat)
    requires And(q + 1, q) == 0
    ensures q == Pow2(n) - 1
  {
    if q == 0 {
      n := 0;
    } else {
      AndStep(q + 1, q);
      AndSelf(q / 2);
      hide And;
      assert q % 2 == 1;
      assert (q + 1) / 2 == q / 2 + 1;
      n := AllOnes(q / 2);
      n := n + 1;
    }
  }

  lemma OrBelowSelf(v: nat)
    requires v > 0
    ensures Or(2 * v - 1, 2 * v) == 2 * Or(v - 1, v) + 1
  {
    OrStep(2 * v - 1, 2 * v);
    hide Or;
    assert (2 * v - 1) / 2 == v - 1;
  }

  lemma OrPredOdd(q: nat)
    requires q % 2 == 1
    ensures Or(q - 1, q) == q
  {
    OrStep(q - 1, q);
    OrSelf(q / 2);
    hide Or;
    assert (q - 1) / 2 == q / 2;
  }

  lemma {:induction false} OrSelf(v: nat)
    ensures Or(v, v) == v
  {
    if v > 0 {
      OrSelf(v / 2);
      OrStep(v, v);
      hide Or;
    }
  }

  lemma ShlPositive(q: nat, n: nat)
    requires q > 0
    ensures Shl(q, n) > 0
  {
    MulMono(1, q, Pow2(n));
  }

  lemma ShlZero(v: nat)
    ensures Shl(v, 0) == v
  {
  }

  /** Filling below the lowest one. */
  lemma {:induction false} Filled(q: nat, n: nat)
    requires q % 2 == 1
    ensures Shl(q, n) > 0 && Shl(q + 1, n) > 0 && Or(Shl(q, n) - 1, Shl(q, n)) == Shl(q + 1, n) - 1
  {
    hide Shl, Or;
    ShlPositive(q, n);
    ShlPositive(q + 1, n);
    if n == 0 {
      OrPredOdd(q);
      ShlZero(q);
      ShlZero(q + 1);
    } else {
      ShlStep(q, n);
      ShlStep(q + 1, n);
      Filled(q, n - 1);
      OrBelowSelf(Shl(q, n - 1));
    }
  }

  lemma {:induction false} AndFilled(q: nat, n: nat)
    ensures Shl(q + 1, n) > 0 && (And(Shl(q + 1, n), Shl(q + 1, n) - 1) == 0 <==> And(q + 1, q) == 0)
  {
    ShlPositive(q + 1, n);
    if n == 0 {
      assert Shl(q + 1, 0) == q + 1;
    } else {
      ShlStep(q + 1, n);
      hide Shl;
      AndFilled(q, n - 1);
      var v := Shl(q + 1, n - 1);
      AndStep(2 * v, 2 * v - 1);
      hide And;
      assert (2 * v - 1) / 2 == v - 1;
    }
  }

  lemma WrapFilled(f: nat)
    requires f < TWO64
    ensures And(X(f + 1), f) == 0 <==> And(f + 1, f) == 0
  {
    if f == TWO64 - 1 {
      LargePowers();
      AndNext(64);
      assert X(f + 1) == 0;
    }
  }

  lemma NextMultiple(q: nat, n: nat, m: nat)
    requires q > 0 && Shl(q, n) < Pow2(m)
    ensures n <= m && Shl(q + 1, n) <= Pow2(m)
  {
    MulMono(1, q, Pow2(n));
    if n > m {
      Pow2Mono(m, n);
    } else {
      Pow2Add(m - n, n);
      hide Pow2;
      if q >= Pow2(m - n) {
        MulMono(Pow2(m - n), q, Pow2(n));
      }
      MulMono(q + 1, Pow2(m - n), Pow2(n));
    }
  }

  /** The test finds exactly the single runs of ones. */
  lemma ContiguousIs(q: nat, n: nat)
    requires q % 2 == 1 && Shl(q, n) < TWO64
    ensures Shl(q, n) > 0
    ensures Contiguous(Shl(q, n)) <==> And(q + 1, q) == 0
  {
    LargePowers();
    hide And, Or, Shl, Pow2;
    NextMultiple(q, n, 64);
    Filled(q, n);
    AndFilled(q, n);
    WrapFilled(Shl(q + 1, n) - 1);
  }

  /** A run that fits in es bits without filling them. */
  predicate IsRun(v: nat, len: nat, rot: nat, es: nat) {
    0 < len < es && rot + len <= es && v == Ones(len, rot)
  }

  lemma OnesBound(len: nat, rot: nat)
    ensures Ones(len, rot) == Pow2(len + rot) - Pow2(rot)
  {
    Pow2Add(len, rot);
    hide Pow2;
    var p, q := Pow2(len), Pow2(rot);
    assert (p - 1) * q == p * q - q;
  }

  lemma OnesOdd(len: nat)
    requires len > 0
    ensures (Pow2(len) - 1) % 2 == 1 && And(Pow2(len), Pow2(len) - 1) == 0
  {
    AndNext(len);
    hide And;
    assert Pow2(len) == 2 * Pow2(len - 1);
  }

  lemma RunIsContiguous(v: Word, len: nat, rot: nat)
    requires len > 0 && v == Ones(len, rot)
    ensures v > 0 && Contiguous(v) && Ctz(v) == rot
  {
    OnesOdd(len);
    hide And;
    ContiguousIs(Pow2(len) - 1, rot);
    hide Contiguous;
    CtzOf(Pow2(len) - 1, rot);
  }

  /** What a contiguous element is: ctz and the length of the run find it. */
  lemma ContiguousIsRun(v: Word, es: nat) returns (len: nat)
    requires 0 < v < Pow2(es) - 1 && Contiguous(v) && es <= 64
    ensures IsRun(v, len, Ctz(v), es) && Shr(v, Ctz(v)) == Pow2(len) - 1
  {
    hide Contiguous, And, Or, Ones;
    var rot := Ctz(v);
    Odd(v);
    var q := v / Pow2(rot);
    assert v == Shl(q, rot);
    ContiguousIs(q, rot);
    len := AllOnes(q);
    RunFits(v, len, rot, es);
  }

  lemma RunFits(v: nat, len: nat, rot: nat, es: nat)
    requires 0 < v < Pow2(es) - 1 && v == Shl(Pow2(len) - 1, rot)
    ensures IsRun(v, len, rot, es)
  {
    OnesBound(len, rot);
    if len > 0 {
      assert Pow2(len + rot) == 2 * Pow2(len + rot - 1);
      Pow2Mono(rot, len + rot - 1);
      if len + rot > es {
        Pow2Mono(es, len + rot - 1);
      }
    }
  }

  // ---------------------------------------------------------------- rotations

  lemma RorPast(len: nat, r: nat, size: nat)
    requires len <= r <= size
    ensures Ror(Pow2(len) - 1, r, size) == Ones(len, size - r)
  {
    Pow2Mono(len, r);
    hide Shl;
    DivUnique(Pow2(len) - 1, Pow2(r), 0);
  }

  lemma RorNone(v: nat, size: nat)
    ensures Ror(v, 0, size) == v
  {
    assert Pow2(0) == 1;
  }

  lemma OneLess(a: nat, b: nat)
    requires a > 0 && b > 0
    ensures b * a > 0 && (b * a - 1) / a == b - 1 && (b * a - 1) % a == a - 1
  {
    assert (b - 1) * a == b * a - a;
    MulMono(1, b, a);
    DivUnique(b * a - 1, a, b - 1);
  }

  lemma SplitOnes(k: nat, r: nat)
    requires r <= k
    ensures (Pow2(k) - 1) / Pow2(r) == Pow2(k - r) - 1 && (Pow2(k) - 1) % Pow2(r) == Pow2(r) - 1
  {
    hide Pow2;
    Pow2Add(k - r, r);
    OneLess(Pow2(r), Pow2(k - r));
  }

  /** A rotation that splits the run: its complement is a run. */
  lemma RorAcross(k: nat, r: nat, size: nat)
    requires 0 < r <= k <= size
    ensures Ror(Pow2(k) - 1, r, size) == Pow2(size) - 1 - Ones(size - k, k - r)
  {
    hide Pow2;
    SplitOnes(k, r);
    OnesBound(r, size - r);
    OnesBound(size - k, k - r);
    assert Ror(Pow2(k) - 1, r, size) == Pow2(k - r) - 1 + Ones(r, size - r) by { hide Shl; }
    hide Ones, Ror;
  }

  // ---------------------------------------------------------------- no shorter period

  /** The two halves of 2 * half bits are equal. */
  predicate HalvesAgree(v: nat, half: nat) {
    (v / Pow2(half)) % Pow2(half) == v % Pow2(half)
  }

  lemma HalvesOf(v: nat, half: nat, high: nat, low: nat)
    requires high < Pow2(half) && low < Pow2(half) && v == high * Pow2(half) + low
    ensures HalvesAgree(v, half) <==> high == low
  {
    hide Pow2;
    DivUnique(v, Pow2(half), high);
  }

  lemma TwicePow(half: nat)
    ensures Pow2(2 * half) == Pow2(half) * Pow2(half)
  {
    hide Pow2;
    assert half + half == 2 * half;
    Pow2Add(half, half);
  }

  /** A single run of ones that does not fill the element is not two equal halves. */
  lemma RunHalvesDiffer(v: nat, len: nat, rot: nat, half: nat)
    requires half > 0 && IsRun(v, len, rot, 2 * half)
    ensures !HalvesAgree(v, half) && v < Pow2(2 * half)
  {
    hide Pow2, HalvesAgree, Ones;
    OnesBound(len, rot);
    Pow2Mono(len + rot, 2 * half);
    Pow2Step(len + rot - 1);
    Pow2Mono(rot, len + rot - 1);
    if rot >= half {
      RunHigh(v, len, rot, half);
    } else if len + rot <= half {
      Pow2Mono(len + rot, half);
      RunLow(v, half);
    } else {
      RunMiddle(v, len, rot, half);
    }
  }

  lemma RunLow(v: nat, half: nat)
    requires 0 < v < Pow2(half)
    ensures !HalvesAgree(v, half)
  {
    HalvesOf(v, half, 0, v);
  }

  lemma ShlShl(v: nat, a: nat, b: nat)
    ensures Shl(Shl(v, a), b) == Shl(v, a + b)
  {
    hide Pow2;
    Pow2Add(a, b);
    assert (v * Pow2(a)) * Pow2(b) == v * (Pow2(a) * Pow2(b));
  }

  lemma RunHigh(v: nat, len: nat, rot: nat, half: nat)
    requires half <= rot && 0 < len && rot + len <= 2 * half && v == Ones(len, rot)
    ensures !HalvesAgree(v, half)
  {
    hide Pow2, HalvesAgree;
    ShlShl(Pow2(len) - 1, rot - half, half);
    OnesBound(len, rot - half);
    Pow2Mono(len + rot - half, half);
    Pow2Step(len - 1);
    ShlPositive(Pow2(len) - 1, rot - half);
    var h := Ones(len, rot - half);
    assert v == h * Pow2(half);
    hide Ones, Shl;
    HalvesOf(v, half, h, 0);
  }

  lemma RunMiddle(v: nat, len: nat, rot: nat, half: nat)
    requires rot < half < rot + len <= 2 * half && len < 2 * half && v == Pow2(len + rot) - Pow2(rot)
    ensures !HalvesAgree(v, half)
  {
    hide Pow2, HalvesAgree;
    var high := len + rot - half;
    Pow2Add(high, half);
    Pow2Mono(rot, half);
    Pow2Mono(high, half);
    MiddleOdd(high, rot, half);
    var p, q, h := Pow2(high), Pow2(rot), Pow2(half);
    assert (p - 1) * h == p * h - h;
    HalvesOf(v, half, p - 1, h - q);
  }

  lemma MiddleOdd(high: nat, rot: nat, half: nat)
    requires 0 < high <= half && rot < half && (rot == 0 ==> high < half)
    ensures Pow2(high) - 1 != Pow2(half) - Pow2(rot)
  {
    if rot == 0 {
      Pow2Mono(high + 1, half);
      assert Pow2(0) == 1;
      assert Pow2(high + 1) == 2 * Pow2(high);
    } else {
      assert Pow2(high) == 2 * Pow2(high - 1) && Pow2(rot) == 2 * Pow2(rot - 1) && Pow2(half) == 2 * Pow2(half - 1);
    }
  }

  lemma ComplementDigits(v: nat, h: nat)
    requires h > 0 && v < h * h
    ensures v / h < h
    ensures h * h - 1 - v == (h - 1 - v / h) * h + (h - 1 - v % h)
  {
    var q, r := v / h, v % h;
    assert v == q * h + r;
    if q >= h {
      MulMono(h, q, h);
    }
    assert (h - 1 - q) * h == h * h - h - q * h;
  }

  lemma ComplementHalves(v: nat, half: nat)
    requires v < Pow2(2 * half)
    ensures HalvesAgree(Pow2(2 * half) - 1 - v, half) <==> HalvesAgree(v, half)
  {
    hide Pow2, HalvesAgree;
    TwicePow(half);
    var h := Pow2(half);
    ComplementDigits(v, h);
    HalvesOf(v, half, v / h, v % h);
    HalvesOf(h * h - 1 - v, half, h - 1 - v / h, h - 1 - v % h);
  }

  /** The run of ones of an element, or of its complement. */
  ghost predicate IsElement(e: nat, es: nat) {
    exists len, rot :: ElementBy(e, len, rot, es)
  }

  predicate ElementBy(e: nat, len: nat, rot: nat, es: nat) {
    e < Pow2(es) && (IsRun(e, len, rot, es) || IsRun(Pow2(es) - 1 - e, len, rot, es))
  }

  lemma ElementHalvesDiffer(e: nat, half: nat)
    requires half > 0 && IsElement(e, 2 * half)
    ensures !HalvesAgree(e, half)
  {
    hide IsRun, HalvesAgree, Pow2;
    var len, rot :| ElementBy(e, len, rot, 2 * half);
    if IsRun(e, len, rot, 2 * half) {
      RunHalvesDiffer(e, len, rot, half);
    } else {
      RunHalvesDiffer(Pow2(2 * half) - 1 - e, len, rot, half);
      ComplementHalves(e, half);
    }
  }

  lemma RunIsElement(e: nat, len: nat, rot: nat, es: nat)
    requires IsRun(e, len, rot, es)
    ensures e < Pow2(es) && IsElement(e, es) && IsElement(Pow2(es) - 1 - e, es)
  {
    hide Pow2, Ones;
    OnesBound(len, rot);
    Pow2Mono(len + rot, es);
    hide IsRun;
    var f := Pow2(es) - 1 - e;
    assert Pow2(es) - 1 - f == e;
    assert ElementBy(e, len, rot, es) && ElementBy(f, len, rot, es);
  }

  /** A rotated run that does not fill the element is an element. */
  lemma RotatedIsElement(k: nat, r: nat, size: nat)
    requires 0 < k < size && r < size
    ensures IsElement(Ror(Pow2(k) - 1, r, size), size)
  {
    hide Ror, IsElement, Pow2, Ones;
    if r == 0 {
      RorNone(Pow2(k) - 1, size);
      OnesAtZero(k);
      RunIsElement(Pow2(k) - 1, k, 0, size);
    } else if r >= k {
      RorPast(k, r, size);
      RunIsElement(Ones(k, size - r), k, size - r, size);
    } else {
      RorAcross(k, r, size);
      RunIsElement(Ones(size - k, k - r), size - k, k - r, size);
    }
  }

  lemma OnesAtZero(k: nat)
    ensures Ones(k, 0) == Pow2(k) - 1
  {
    hide Pow2;
    ShlZero(Pow2(k) - 1);
  }

  // ---------------------------------------------------------------- repetition

  lemma {:induction false} ReplicateBound(e: nat, size: nat, n: nat)
    requires e < Pow2(size)
    ensures Replicate(e, size, n) < Pow2(size * n)
  {
    if n == 0 {
      assert size * n == 0;
    } else {
      ReplicateBound(e, size, n - 1);
      assert size * n == size + size * (n - 1);
      Pow2Add(size, size * (n - 1));
      hide Pow2;
      TwoDigits(e, Pow2(size), Replicate(e, size, n - 1), Pow2(size * (n - 1)));
    }
  }

  lemma TwoDigits(low: nat, p: nat, high: nat, q: nat)
    requires low < p && high < q
    ensures low + p * high < p * q
  {
    MulMono(high + 1, q, p);
    assert p * (high + 1) == p * high + p;
  }

  lemma {:induction false} ReplicateSplit(e: nat, size: nat, m: nat, n: nat)
    ensures Replicate(e, size, m + n) == Replicate(e, size, m) + Pow2(size * m) * Replicate(e, size, n)
  {
    if m == 0 {
      assert size * m == 0;
      assert Pow2(0) == 1;
    } else {
      ReplicateSplit(e, size, m - 1, n);
      assert size * m == size + size * (m - 1);
      Pow2Add(size, size * (m - 1));
      var p, q, w := Pow2(size), Pow2(size * (m - 1)), Replicate(e, size, n);
      hide Pow2, Replicate;
      Distribute(p, Replicate(e, size, m - 1), q, w);
    }
  }

  lemma Distribute(p: nat, a: nat, q: nat, w: nat)
    ensures p * (a + q * w) == p * a + (p * q) * w
  {
    assert p * (q * w) == (p * q) * w;
  }

  /** Any number of copies of a doubled element are twice as many copies of the element. */
  lemma {:induction false} ReplicateHalved(h: nat, half: nat, n: nat)
    ensures Replicate(h + Pow2(half) * h, 2 * half, n) == Replicate(h, half, 2 * n)
  {
    if n > 0 {
      ReplicateHalved(h, half, n - 1);
      TwicePow(half);
      var p, w := Pow2(half), Replicate(h, half, 2 * n - 2);
      assert Replicate(h, half, 2 * n - 1) == h + p * w;
      assert Replicate(h, half, 2 * n) == h + p * (h + p * w);
      hide Pow2, Replicate;
      Distribute(p, h, p, w);
    }
  }

  lemma ReplicateOne(e: nat, size: nat)
    ensures Replicate(e, size, 1) == e
  {
    assert Replicate(e, size, 0) == 0;
  }

  lemma {:induction false} ReplicateFull(size: nat, n: nat)
    ensures Replicate(Pow2(size) - 1, size, n) == Pow2(size * n) - 1 && Replicate(0, size, n) == 0
  {
    if n == 0 {
      assert size * n == 0;
    } else {
      ReplicateFull(size, n - 1);
      assert size * n == size + size * (n - 1);
      Pow2Add(size, size * (n - 1));
      var p, q := Pow2(size), Pow2(size * (n - 1));
      hide Pow2;
      assert p * (q - 1) == p * q - p;
    }
  }

  /** A value made of copies of e agrees in all halves that hold whole copies. */
  lemma CopiesAgree(e: nat, size: nat, j: nat, n: nat)
    requires e < Pow2(size) && 2 * j <= n
    ensures HalvesAgree(Replicate(e, size, n), size * j)
  {
    hide Pow2, Replicate;
    ReplicateSplit(e, size, j, n - j);
    ReplicateSplit(e, size, j, n - 2 * j);
    ReplicateBound(e, size, j);
    HighAndLow(Replicate(e, size, j), Pow2(size * j), Replicate(e, size, n - j));
    HighAndLow(Replicate(e, size, j), Pow2(size * j), Replicate(e, size, n - 2 * j));
  }

  lemma HighAndLow(low: nat, p: nat, high: nat)
    requires low < p
    ensures (low + p * high) / p == high && (low + p * high) % p == low
  {
    AddMultiple(low, p, high);
  }

  /** The lowest element of a repetition decides whether its halves agree. */
  lemma LowestElement(e: nat, half: nat, n: nat)
    requires e < Pow2(2 * half) && n > 0
    ensures HalvesAgree(Replicate(e, 2 * half, n), half) <==> HalvesAgree(e, half)
    ensures Replicate(e, 2 * half, n) % Pow2(2 * half) == e
  {
    TwicePow(half);
    var p, w := Pow2(half), Replicate(e, 2 * half, n - 1);
    assert Replicate(e, 2 * half, n) == e + (p * p) * w;
    hide Pow2, Replicate;
    DivUnique(e + (p * p) * w, p * p, w);
    LowHalves(e, p, w);
  }

  lemma LowHalves(e: nat, p: nat, w: nat)
    requires p > 0 && e < p * p
    ensures (e + (p * p) * w) % p == e % p
    ensures ((e + (p * p) * w) / p) % p == (e / p) % p
  {
    assert (p * p) * w == p * (p * w);
    AddMultiple(e, p, p * w);
    AddMultiple(e / p, p, w);
  }

  // ---------------------------------------------------------------- element sizes

  predicate IsSize(es: nat) {
    es == 2 || es == 4 || es == 8 || es == 16 || es == 32 || es == 64
  }

  function Log(es: nat): nat
    requires IsSize(es)
  {
    if es == 2 then 1 else if es == 4 then 2 else if es == 8 then 3 else if es == 16 then 4 else if es == 32 then 5 else 6
  }

  lemma LogPow(es: nat)
    requires IsSize(es)
    ensures Pow2(Log(es)) == es
  {
    Powers();
  }

  lemma SizeOfLog(k: nat)
    requires 1 <= k && Pow2(k) <= 64
    ensures IsSize(Pow2(k)) && Log(Pow2(k)) == k
  {
    Powers();
    if k > 6 {
      Pow2Mono(7, k);
    }
  }

  lemma SizeFacts(a: nat, b: nat, width: nat)
    requires IsSize(a) && IsSize(b) && a < b <= width && (width == 32 || width == 64)
    ensures a * (b / 2 / a) == b / 2 && 2 * (b / 2 / a) <= width / a && b == 2 * (b / 2) && width / b > 0
  {
  }

  lemma HalfSize(es: nat, width: nat)
    requires IsSize(es) && 2 < es <= width && (width == 32 || width == 64)
    ensures IsSize(es / 2) && es == 2 * (es / 2) && width / (es / 2) == 2 * (width / es)
  {
  }

  lemma WholeCopies(es: nat, width: nat)
    requires IsSize(es) && es <= width && (width == 32 || width == 64)
    ensures es * (width / es) == width && width / es > 0
  {
  }

  /** v consists of copies of its lowest es bits. */
  predicate Periodic(v: nat, es: nat, width: nat)
    requires es > 0
  {
    v == Replicate(v % Pow2(es), es, width / es)
  }

  lemma PeriodHalved(v: nat, half: nat, n: nat)
    requires v == Replicate(v % Pow2(2 * half), 2 * half, n) && HalvesAgree(v, half)
    ensures v == Replicate(v % Pow2(half), half, 2 * n)
  {
    TwicePow(half);
    ModProduct(v, Pow2(half), Pow2(half));
    ReplicateHalved(v % Pow2(half), half, n);
    hide Pow2, Replicate;
  }

  lemma PeriodicHalf(v: nat, es: nat, width: nat)
    requires IsSize(es) && 2 < es <= width && (width == 32 || width == 64)
    requires Periodic(v, es, width) && HalvesAgree(v, es / 2)
    ensures Periodic(v, es / 2, width)
  {
    hide Pow2, HalvesAgree, Replicate;
    HalfSize(es, width);
    PeriodHalved(v, es / 2, width / es);
  }

  lemma PeriodicWhole(v: nat, width: nat)
    requires width > 0 && v < Pow2(width)
    ensures Periodic(v, width, width)
  {
    hide Pow2;
    assert width / width == 1;
    assert v % Pow2(width) == v;
    ReplicateOne(v, width);
    hide Replicate;
  }

  /** The smallest size down to 2 whose halves differ. */
  method FindElementSize(width: nat, v: nat) returns (es: nat)
    requires (width == 32 || width == 64) && v < Pow2(width)
    ensures IsSize(es) && es <= width && Periodic(v, es, width)
    ensures es == 2 || !HalvesAgree(v, es / 2)
  {
    hide Pow2, HalvesAgree, Periodic;
    es := width;
    PeriodicWhole(v, width);
    while es > 2
      invariant IsSize(es) && es <= width && Periodic(v, es, width)
    {
      if !HalvesAgree(v, es / 2) {
        return;
      }
      HalfSize(es, width);
      PeriodicHalf(v, es, width);
      es := es / 2;
    }
  }

  /** A value has one element size only. */
  lemma SameSize(v: nat, width: nat, es: nat, e: nat, levels: nat)
    requires (width == 32 || width == 64) && IsSize(es) && es <= width && IsSize(levels) && levels <= width
    requires Periodic(v, es, width) && (es == 2 || !HalvesAgree(v, es / 2))
    requires IsElement(e, levels) && v == Replicate(e, levels, width / levels)
    ensures es == levels && v % Pow2(es) == e
  {
    hide Pow2, HalvesAgree, Replicate;
    WholeCopies(levels, width);
    HalfOf(levels);
    LowestElement(e, levels / 2, width / levels);
    if levels < es {
      SizeFacts(levels, es, width);
      CopiesAgree(e, levels, es / 2 / levels, width / levels);
    } else if es < levels {
      SizeFacts(es, levels, width);
      CopiesAgree(v % Pow2(es), es, levels / 2 / es, width / es);
      ElementHalvesDiffer(e, levels / 2);
    }
  }

  lemma HalfOf(es: nat)
    requires IsSize(es)
    ensures es == 2 * (es / 2)
  {
  }

  /** Neither zero nor all ones has an element. */
  lemma NotUniform(v: nat, width: nat, e: nat, levels: nat)
    requires (width == 32 || width == 64) && IsSize(levels) && levels <= width
    requires IsElement(e, levels) && v == Replicate(e, levels, width / levels)
    ensures v != 0 && v != Pow2(width) - 1
  {
    Powers();
    hide Pow2, HalvesAgree, Replicate;
    WholeCopies(levels, width);
    HalfOf(levels);
    LowestElement(e, levels / 2, width / levels);
    ElementHalvesDiffer(e, levels / 2);
    ReplicateFull(1, width);
    CopiesAgree(0, 1, levels / 2, width);
    CopiesAgree(1, 1, levels / 2, width);
  }

  // ---------------------------------------------------------------- the encoding

  datatype LogicalImm = LogicalImm(n: Bit, immr: Imm6, imms: Imm6)

  predicate Decodes(width: nat, i: LogicalImm, v: nat) {
    DecodeBitMasks(width, i.n, i.immr, i.imms) == Some(v)
  }

  lemma RawImms(es: nat, len: nat)
    requires IsSize(es) && 0 < len < es
    ensures Or(len - 1, (0xFE * es) % 0x100) == 0x100 - 2 * es + len - 1
  {
    hide Or, Pow2, Shl, Log;
    LogPow(es);
    SizeBits(es);
    OrBelow(Log(es), len - 1, 0x100 / es - 2);
  }

  /** The bits of imms that say what the element size is. */
  lemma SizeBits(es: nat)
    requires IsSize(es)
    ensures 0x100 / es >= 2 && Shl(0x100 / es - 2, Log(es)) == 0x100 - 2 * es == (0xFE * es) % 0x100
  {
    hide Pow2;
    LogPow(es);
    hide Log;
    assert 0x100 / es >= 2 && (0x100 / es - 2) * es == 0x100 - 2 * es == (0xFE * es) % 0x100;
  }

  /** N, immr and imms from the element size, the length of the run, and its rotation. */
  function Encode(es: nat, len: nat, rotation: nat): LogicalImm
    requires IsSize(es) && 0 < len < es && rotation <= es
  {
    var raw := Or(len - 1, (0xFE * es) % 0x100);
    LogicalImm(if (raw / 0x40) % 2 == 0 then 1 else 0, And(es - rotation, es - 1), raw % 0x40)
  }

  /** The right rotation for a run that starts `rotation` bits up. */
  function Turn(es: nat, rotation: nat): (r: nat)
    requires rotation <= es
    ensures es > 0 ==> r < es
  {
    if rotation == 0 then 0 else es - rotation
  }

  lemma EncodedRotation(es: nat, rotation: nat)
    requires IsSize(es) && rotation <= es
    ensures And(es - rotation, es - 1) == Turn(es, rotation)
  {
    LogPow(es);
    AndLow(es - rotation, Log(es));
    hide And, Pow2, Log;
    assert (es - rotation) % es == Turn(es, rotation);
  }

  lemma RawFields(es: nat, len: nat, raw: nat)
    requires IsSize(es) && 0 < len < es && raw == 0x100 - 2 * es + len - 1
    ensures var n, imms := if (raw / 0x40) % 2 == 0 then 1 else 0, raw % 0x40;
      64 * n + (63 - imms) == 2 * es - len && imms % es == len - 1
  {
  }

  lemma EncodedLevels(es: nat, len: nat, rotation: nat)
    requires IsSize(es) && 0 < len < es && rotation <= es
    ensures var i := Encode(es, len, rotation);
      && 64 * i.n + (63 - i.imms) == 2 * es - len && i.imms % es == len - 1 && i.immr == Turn(es, rotation)
  {
    hide And, Or;
    RawImms(es, len);
    EncodedRotation(es, rotation);
    RawFields(es, len, Or(len - 1, (0xFE * es) % 0x100));
  }

  lemma EncodedSize(es: nat, len: nat)
    requires IsSize(es) && 0 < len < es
    ensures HighestSetBit(2 * es - len) == Log(es)
  {
    LogPow(es);
    Pow2Step(Log(es));
    hide Pow2;
    HighestOf(2 * es - len, Log(es));
  }

  function Element(es: nat, len: nat, rotation: nat): nat
    requires rotation <= es
  {
    Ror(Pow2(len) - 1, Turn(es, rotation), es)
  }

  lemma EncodeDecodes(width: nat, es: nat, len: nat, rotation: nat, copies: nat)
    requires (width == 32 || width == 64) && IsSize(es) && es <= width && 0 < len < es && rotation <= es
    requires copies == width / es
    ensures Decodes(width, Encode(es, len, rotation), Replicate(Element(es, len, rotation), es, copies))
  {
    hide Encode, HighestSetBit, Replicate, Ror, Pow2;
    EncodedLevels(es, len, rotation);
    EncodedSize(es, len);
    LogPow(es);
    hide Log;
    SmallMod(Turn(es, rotation), es);
  }

  lemma SmallMod(a: nat, b: nat)
    requires a < b
    ensures a % b == a
  {
  }

  /** Every immediate that decodes is copies of an element. */
  lemma DecodedElement(width: nat, i: LogicalImm, v: nat) returns (e: nat, levels: nat)
    requires (width == 32 || width == 64) && Decodes(width, i, v)
    ensures IsSize(levels) && levels <= width && IsElement(e, levels) && v == Replicate(e, levels, width / levels)
  {
    hide Pow2, HighestSetBit, Ror, Replicate, IsElement;
    var k := HighestSetBit(64 * i.n + (63 - i.imms));
    SizeOfLog(k);
    levels := Pow2(k);
    var s, r := i.imms % levels, i.immr % levels;
    RotatedIsElement(s + 1, r, levels);
    e := Ror(Pow2(s + 1) - 1, r, levels);
  }

  // ---------------------------------------------------------------- the two kinds of element

  lemma LenOfOnes(len: nat)
    requires 0 < len < 64
    ensures 0 < TWO64 - Pow2(len) && Ctz(TWO64 - Pow2(len)) == len
  {
    LargePowers();
    hide Pow2;
    OnesBound(64 - len, len);
    OnesOdd(64 - len);
    CtzOf(Pow2(64 - len) - 1, len);
  }

  /** The element is a run: rotation and length as read off by counting trailing bits. */
  lemma RunElement(e: Word, es: nat) returns (len: nat)
    requires IsSize(es) && 0 < e < Pow2(es) - 1 && Contiguous(e)
    ensures 0 < len < es && Ctz(e) <= es && Shr(e, Ctz(e)) < TWO64 - 1
    ensures Ctz(TWO64 - 1 - Shr(e, Ctz(e))) == len
    ensures Element(es, len, Ctz(e)) == e
  {
    hide Pow2, Contiguous, Ctz, Ror;
    len := ContiguousIsRun(e, es);
    hide Ones;
    LenOfOnes(len);
    if Ctz(e) == 0 {
      OnesAtZero(len);
      RorNone(Pow2(len) - 1, es);
    } else {
      RorPast(len, es - Ctz(e), es);
    }
  }

  /** The complement of the element is a run. */
  lemma GapElement(e: nat, zeros: Word, es: nat)
    requires IsSize(es) && e + zeros == Pow2(es) - 1 && 0 < zeros < Pow2(es) - 1 && Contiguous(zeros)
    ensures var lz, tz := Clz64(zeros), Ctz(zeros);
      && 0 < lz + tz - (64 - es) < es && 0 <= 64 - lz <= es
      && Element(es, lz + tz - (64 - es), 64 - lz) == e
  {
    hide Pow2, Contiguous, Ctz, Ror, HighestSetBit;
    var z := ContiguousIsRun(zeros, es);
    var p := Ctz(zeros);
    RunHighest(zeros, z, p);
    hide Ones;
    var k := es - z;
    if p + z == es {
      RorNone(Pow2(k) - 1, es);
      OnesBound(z, p);
    } else {
      RorAcross(k, es - p - z, es);
    }
  }

  lemma RunHighest(v: nat, len: nat, rot: nat)
    requires 0 < len && v == Ones(len, rot)
    ensures v > 0 && HighestSetBit(v) == len + rot - 1
  {
    hide Pow2;
    OnesBound(len, rot);
    Pow2Step(len + rot - 1);
    Pow2Mono(rot, len + rot - 1);
    hide HighestSetBit;
    HighestOf(v, len + rot - 1);
  }

  /** The element of a value that is neither zero nor all ones is neither, too. */
  lemma ProperElement(v: nat, es: nat, width: nat)
    requires (width == 32 || width == 64) && IsSize(es) && es <= width && Periodic(v, es, width)
    requires 0 < v < Pow2(width) - 1
    ensures 0 < v % Pow2(es) < Pow2(es) - 1
  {
    hide Pow2, Replicate;
    WholeCopies(es, width);
    ReplicateFull(es, width / es);
  }

  /** An element whose ones and whose zeros are both scattered is no element. */
  lemma Scattered(e: Word, zeros: Word, es: nat)
    requires IsSize(es) && 0 < e && 0 < zeros && e + zeros == Pow2(es) - 1
    requires !Contiguous(e) && !Contiguous(zeros)
    ensures !IsElement(e, es)
  {
    hide Pow2, Contiguous, Ones;
    if IsElement(e, es) {
      var len, rot :| ElementBy(e, len, rot, es);
      if IsRun(e, len, rot, es) {
        RunIsContiguous(e, len, rot);
      } else {
        RunIsContiguous(zeros, len, rot);
      }
    }
  }

  lemma Size64(es: nat, v: nat)
    requires IsSize(es) && v < Pow2(es)
    ensures v < TWO64
  {
    LargePowers();
    Pow2Mono(es, 64);
  }

  // ---------------------------------------------------------------- is_bitmask_immediate

  ghost predicate Encodable(width: nat, v: nat) {
    exists i :: Decodes(width, i, v)
  }

  lemma UniformNotEncodable(width: nat, v: nat)
    requires (width == 32 || width == 64) && (v == 0 || v == Pow2(width) - 1)
    ensures !Encodable(width, v)
  {
    hide Decodes, Pow2;
    if Encodable(width, v) {
      var i :| Decodes(width, i, v);
      var e, levels := DecodedElement(width, i, v);
      NotUniform(v, width, e, levels);
    }
  }

  lemma ScatteredNotEncodable(width: nat, v: nat, es: nat)
    requires (width == 32 || width == 64) && IsSize(es) && es <= width && Periodic(v, es, width)
    requires es == 2 || !HalvesAgree(v, es / 2)
    requires !IsElement(v % Pow2(es), es)
    ensures !Encodable(width, v)
  {
    hide Decodes, Pow2, Periodic, HalvesAgree, IsElement;
    if Encodable(width, v) {
      var i :| Decodes(width, i, v);
      var e, levels := DecodedElement(width, i, v);
      SameSize(v, width, es, e, levels);
    }
  }

  /** The encoding of a value as a logical immediate; None exactly when there is none. */
  method IsBitmaskImmediate(is64: bool, value: Word) returns (r: Option<LogicalImm>)
    ensures r.Some? ==> Decodes(Width(is64), r.value, Trunc(is64, value))
    ensures r.None? ==> !Encodable(Width(is64), Trunc(is64, value))
  {
    hide Pow2, Decodes, Encodable, Periodic, HalvesAgree;
    LargePowers();
    if Trunc(is64, value + 1) < 2 {
      assert Trunc(is64, value) == 0 || Trunc(is64, value) == Pow2(Width(is64)) - 1;
      UniformNotEncodable(Width(is64), Trunc(is64, value));
      return None;
    }
    var v := Trunc(is64, value);
    assert 0 < v < Pow2(Width(is64)) - 1;
    r := FindEncoding(Width(is64), v);
  }

  method FindEncoding(width: nat, v: Word) returns (r: Option<LogicalImm>)
    requires (width == 32 || width == 64) && 0 < v < Pow2(width) - 1
    ensures r.Some? ==> Decodes(width, r.value, v)
    ensures r.None? ==> !Encodable(width, v)
  {
    hide Pow2, Decodes, Encodable, HalvesAgree, Contiguous, Ctz, Encode, Replicate, Element;
    var es := FindElementSize(width, v);
    var element := v % Pow2(es);
    ghost var copies := width / es;
    ProperElement(v, es, width);
    Size64(es, element);
    if element != 0 && Contiguous(element) {
      ghost var len := RunElement(element, es);
      var rotation := Ctz(element);
      var runLen := Ctz(TWO64 - 1 - Shr(element, rotation));
      EncodeDecodes(width, es, runLen, rotation, copies);
      return Some(Encode(es, runLen, rotation));
    }
    var zeros := Pow2(es) - 1 - element;
    Size64(es, zeros);
    if zeros == 0 || !Contiguous(zeros) {
      Scattered(element, zeros, es);
      ScatteredNotEncodable(width, v, es);
      return None;
    }
    GapElement(element, zeros, es);
    var lz, tz := Clz64(zeros), Ctz(zeros);
    var rotation, runLen := 64 - lz, lz + tz - (64 - es);
    EncodeDecodes(width, es, runLen, rotation, copies);
    return Some(Encode(es, runLen, rotation));
  }
}
