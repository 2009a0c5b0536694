/**
 The numbers behind the names: what FLD1 and FLDZ load, what AX says after a comparison, and where the
 fields of the X87State are.
 */
module X87Numbers {
  import opened Words
  import opened Bits
  import opened X87Model
  import opened X87Deferred
  import opened Arm
  import opened TagDigits
  import opened X87Code
  import opened Fstp80

  // ---------------------------------------------------------------- constants

  predicate IsOne(v: Word) {
    Class64(v) == Normal && Value64(v) == 1.0
  }

  predicate IsPlusZero(v: Word) {
    Class64(v) == Zero && Sign(v) == 0
  }

  lemma OneIsOne()
    ensures IsOne(POSITIVE_ONE) && IsPlusZero(POSITIVE_ZERO)
  {
    var v := POSITIVE_ONE;
    assert Sign(v) == 0 && Exponent(v) == 1023 && Fraction(v) == 0;
    hide Power;
    UnitScale();
  }

  lemma UnitScale()
    ensures (0x10_0000_0000_0000 as real) * Power(-52) == 1.0
  {
    LargePowers();
    PowerShift(-52, 52);
    assert Power(0) == 1.0;
    hide Pow2, Power;
  }

  /** FLD1 leaves the number 1 in ST(0), FLDZ the positive zero. */
  lemma LoadsNumbers(fpu: Fpu, a: Arch)
    ensures IsOne(Get(Eager(fpu, a, Fld1).mem, 0)) && IsPlusZero(Get(Eager(fpu, a, Fldz).mem, 0))
  {
    OneIsOne();
    hide IsOne, IsPlusZero, Push;
  }

  lemma ReadFlushed(c: Cached, d: Depth)
    ensures Read(FlushPerm(c), d) == Read(c, d)
  {
    assert (Phys(c.top, d) - c.top) % 8 == d;
    hide Phys;
  }

  lemma ReadEnd(c: Cached, last: bool, d: Depth)
    ensures Read(X87Deferred.End(c, last), d) == Read(c, d)
  {
    ReadFlushed(c, d);
    hide FlushPerm, Phys;
  }

  lemma ReadWritten(c: Cached, last: bool, v: Word)
    ensures Read(X87Deferred.End(Write(c, 0, v), last), 0) == v
  {
    ReadEnd(Write(c, 0, v), last, 0);
    hide X87Deferred.End, Phys;
  }

  /** So do the translators, inside a run or alone. */
  lemma LeavesNumbers(c: Cached, last: bool)
    ensures IsOne(Read(X87Deferred.End(Write(c, 0, POSITIVE_ONE), last), 0))
    ensures IsPlusZero(Read(X87Deferred.End(Write(c, 0, POSITIVE_ZERO), last), 0))
  {
    OneIsOne();
    ReadWritten(c, last, POSITIVE_ONE);
    ReadWritten(c, last, POSITIVE_ZERO);
    hide X87Deferred.End, Write, Read, IsOne, IsPlusZero;
  }

  /** Three bits of the immediate as an exponent from -3 to 4. */
  function ImmediateExponent(imm8: Byte): (k: int)
    ensures -3 <= k <= 4
  {
    (imm8 / 0x10) % 4 + if (imm8 / 0x40) % 2 == 1 then -3 else 1
  }

  function Scaled(m: nat, k: int): real {
    m as real * Power(k)
  }

  /** The number that an FMOV immediate stands for: 16 to 31 sixteenths of a power of two from -3 to 4. */
  lemma ImmediateIs(imm8: Byte)
    ensures var v := VFPExpandImm(imm8);
      && Class64(v) == Normal && (Sign(v) == 1 <==> imm8 >= 0x80)
      && Value64(v) == Signed(Sign(v) == 1, Scaled(16 + imm8 as int % 0x10, ImmediateExponent(imm8) - 4))
  {
    ImmediateParts(imm8);
    hide VFPExpandImm, ImmediateExponent, Sign, Exponent, Fraction, Scaled, Signed, Value64, Class64;
    FromParts(VFPExpandImm(imm8), imm8 % 0x10, ImmediateExponent(imm8));
  }

  lemma FromParts(v: Word, m: nat, k: int)
    requires Fraction(v) == 0x1_0000_0000_0000 * m && Exponent(v) == 1023 + k && -3 <= k <= 4
    ensures Class64(v) == Normal && Value64(v) == Signed(Sign(v) == 1, Scaled(16 + m, k - 4))
  {
    hide Sign, Exponent, Fraction, Scaled, Signed, Power;
    ValueIs(v);
    hide Value64;
    Sixteenths(m, k - 52);
  }

  lemma ValueIs(v: Word)
    requires 0 < Exponent(v) < 0x7FF
    ensures var e: int := Exponent(v); Value64(v) == Signed(Sign(v) == 1, Scaled(0x10_0000_0000_0000 + Fraction(v), e - 1075))
  {
    var e: int := Exponent(v);
    assert e - 1023 - 52 == e - 1075;
    hide Sign, Exponent, Fraction, Signed, Power;
  }

  lemma Sixteenths(m: nat, k: int)
    ensures Scaled(0x10_0000_0000_0000 + 0x1_0000_0000_0000 * m, k) == Scaled(16 + m, k + 48)
  {
    hide Power;
    LargePowers();
    PowerShift(k, 48);
    hide Pow2;
    var p, q := Power(k), (0x1_0000_0000_0000 as real);
    assert 0x10_0000_0000_0000 + 0x1_0000_0000_0000 * m == 0x1_0000_0000_0000 * (16 + m);
    assert (0x1_0000_0000_0000 * (16 + m)) as real == q * (16 + m) as real;
    Regroup(q, (16 + m) as real, p);
  }

  lemma Regroup(q: real, x: real, p: real)
    ensures (q * x) * p == x * (q * p)
  {
  }

  lemma ImmediateParts(imm8: Byte)
    ensures var v := VFPExpandImm(imm8);
      && Sign(v) == (if imm8 >= 0x80 then 1 else 0) && Fraction(v) == 0x1_0000_0000_0000 * (imm8 % 0x10)
      && Exponent(v) == 1023 + ImmediateExponent(imm8)
  {
    var s, b6, high, low := imm8 / 0x80, (imm8 / 0x40) % 2, (imm8 / 0x10) % 4, imm8 % 0x10;
    var e := high + if b6 == 1 then 1020 else 1024;
    assert imm8 % 0x40 == 0x10 * high + low;
    var v := VFPExpandImm(imm8);
    assert v == s * 0x8000_0000_0000_0000 + e * 0x10_0000_0000_0000 + low * 0x1_0000_0000_0000;
    hide VFPExpandImm;
    PatternParts(s, e, low * 0x1_0000_0000_0000, v);
  }

  lemma PatternParts(s: Bit, e: nat, f: nat, v: Word)
    requires e < 0x800 && f < 0x10_0000_0000_0000 && v == s * 0x8000_0000_0000_0000 + e * 0x10_0000_0000_0000 + f
    ensures Sign(v) == s && Exponent(v) == e && Fraction(v) == f
  {
    DivUnique(v, 0x10_0000_0000_0000, 0x800 * s + e);
    DivUnique(v, 0x8000_0000_0000_0000, s);
  }

  /** The number 1 in the 80-bit format. */
  lemma OneIn80Bits()
    ensures ToF80(POSITIVE_ONE) == F80(0x8000_0000_0000_0000, 0x3FFF)
  {
    assert Sign(POSITIVE_ONE) == 0 && Exponent(POSITIVE_ONE) == 1023 && Fraction(POSITIVE_ONE) == 0;
  }

  // ---------------------------------------------------------------- the status word and AX

  /** Bits 8 to 10 and 14 are C0, C1, C2 and C3, bits 11 to 13 are TOP. */
  lemma StatusFields(sw: StatusWord)
    ensures var w := EncodeSw(sw);
      && (w / 0x100) % 2 == sw.c0 && (w / 0x200) % 2 == sw.c1 && (w / 0x400) % 2 == sw.c2
      && (w / 0x800) % 8 == sw.top && (w / 0x4000) % 2 == sw.c3
  {
    var w, l: int, a: int, b: int, c: int, t: int, d: int, e: int := EncodeSw(sw), sw.low, sw.c0, sw.c1, sw.c2, sw.top, sw.c3, sw.busy;
    assert w == l + 0x100 * a + 0x200 * b + 0x400 * c + 0x800 * t + 0x4000 * d + 0x8000 * e;
    hide EncodeSw;
    Part(w, l, 0x100, a, 2, b + 2 * c + 4 * t + 0x20 * d + 0x40 * e);
    Part(w, l + 0x100 * a, 0x200, b, 2, c + 2 * t + 0x10 * d + 0x20 * e);
    Part(w, l + 0x100 * a + 0x200 * b, 0x400, c, 2, t + 8 * d + 0x10 * e);
    Part(w, l + 0x100 * a + 0x200 * b + 0x400 * c, 0x800, t, 8, d + 2 * e);
    Part(w, l + 0x100 * a + 0x200 * b + 0x400 * c + 0x800 * t, 0x4000, d, 2, e);
  }

  lemma Part(v: nat, low: nat, p: nat, x: nat, q: nat, y: nat)
    requires p > 0 && q > 0 && low < p && x < q && v == low + p * (x + q * y)
    ensures (v / p) % q == x
  {
    AddMultiple(low, p, x + q * y);
    DivUnique(low, p, 0);
    AddMultiple(x, q, y);
    DivUnique(x, q, 0);
  }

  /** After FCOM and FNSTSW AX: bit 8 for less, bit 14 for equal, both and bit 10 for unordered, and TOP. */
  lemma CompareReported(fpu: Fpu, a: Arch, i: Depth)
    ensures var o := fpu.compare(Get(a.mem, 0), Get(a.mem, i));
      var ax := Eager(fpu, Eager(fpu, a, Fcom(i, false)), Fstsw).ax;
      && ((ax / 0x100) % 2 == 1 <==> o == Less || o == Unordered)
      && ((ax / 0x4000) % 2 == 1 <==> o == Equal || o == Unordered)
      && ((ax / 0x400) % 2 == 1 <==> o == Unordered)
      && (ax / 0x200) % 2 == 0 && (ax / 0x800) % 8 == a.mem.sw.top
  {
    StatusFields(SetCc(a.mem.sw, fpu.compare(Get(a.mem, 0), Get(a.mem, i))));
    hide EncodeSw, Get;
  }

  // ---------------------------------------------------------------- pushes, pops and operands

  /** A push goes down and marks its register 0, a pop goes up and marks the register it leaves 3. */
  lemma PushAndPop(fpu: Fpu, a: Arch)
    ensures var t, p, q := a.mem.sw.top, Eager(fpu, a, Fldz).mem, Eager(fpu, a, Fstp(0)).mem;
      && p.sw.top == (t - 1) % 8 && p.tags == a.mem.tags[(t - 1) % 8 := 0]
      && q.sw.top == (t + 1) % 8 && q.tags == a.mem.tags[t := 3]
  {
  }

  /** FSUB and FSUBR, FDIV and FDIVR, with and without a pop: which operand is on the left. */
  lemma Operands(fpu: Fpu, a: Arch, fn: Fn, i: Depth)
    ensures var x, y := Get(a.mem, 0), Get(a.mem, i);
      && Get(Eager(fpu, a, Arith(fn, false, 0, i)).mem, 0) == fpu.binary(fn, x, y)
      && Get(Eager(fpu, a, Arith(fn, true, 0, i)).mem, 0) == fpu.binary(fn, y, x)
      && Get(Eager(fpu, a, Arith(fn, false, i, 0)).mem, i) == fpu.binary(fn, y, x)
      && Get(Eager(fpu, a, Arith(fn, true, i, 0)).mem, i) == fpu.binary(fn, x, y)
      && (i > 0 ==> Get(Eager(fpu, a, ArithPop(fn, false, i)).mem, i - 1) == fpu.binary(fn, y, x))
      && (i > 0 ==> Get(Eager(fpu, a, ArithPop(fn, true, i)).mem, i - 1) == fpu.binary(fn, x, y))
  {
    if i > 0 { assert Phys(Inc(a.mem.sw.top), i - 1) == Phys(a.mem.sw.top, i); }
    hide Phys, Inc;
  }

  /** FCHS, FABS and FSQRT replace ST(0); FST copies it, FXCH exchanges it, and no other register changes. */
  lemma Transfers(fpu: Fpu, a: Arch, i: Depth, k: Depth)
    ensures var x, y, old_k := Get(a.mem, 0), Get(a.mem, i), Get(a.mem, k);
      && Get(Eager(fpu, a, Unary(Chs)).mem, k) == (if k == 0 then fpu.unary(Chs, x) else old_k)
      && Get(Eager(fpu, a, Unary(Abs)).mem, k) == (if k == 0 then fpu.unary(Abs, x) else old_k)
      && Get(Eager(fpu, a, Unary(Sqrt)).mem, k) == (if k == 0 then fpu.unary(Sqrt, x) else old_k)
      && Get(Eager(fpu, a, Fst(i)).mem, k) == (if k == i then x else old_k)
      && Get(Eager(fpu, a, Fxch(i)).mem, k) == (if k == 0 then y else if k == i then x else old_k)
  {
    DepthsDiffer(a.mem.sw.top, 0, k);
    DepthsDiffer(a.mem.sw.top, i, k);
    DepthsDiffer(a.mem.sw.top, 0, i);
    hide Phys;
  }

  lemma DepthsDiffer(t: Depth, i: Depth, k: Depth)
    ensures Phys(t, i) == Phys(t, k) <==> i == k
  {
  }

  // ---------------------------------------------------------------- memory

  lemma {:induction false} DigitAt(t: seq<Tag>, k: nat)
    requires k < |t|
    ensures (Digits(t) / Pow2(2 * k)) % 4 == t[k]
    decreases k
  {
    var rest := Digits(t[1..]);
    if k > 0 {
      DigitAt(t[1..], k - 1);
      Pow2Add(2, 2 * (k - 1));
      Powers();
      assert 2 * k == 2 + 2 * (k - 1);
      hide Pow2;
      DivTwice(Digits(t), 4, Pow2(2 * (k - 1)));
      assert Digits(t) / 4 == rest;
    }
  }

  lemma DivTwice(v: nat, p: nat, q: nat)
    requires p > 0 && q > 0
    ensures p * q > 0 && v / (p * q) == v / p / q
  {
    var a, b := v / p, v / p / q;
    var r, m := v % p, a % q;
    assert v == (b * q + m) * p + r;
    assert (b * q + m) * p == b * (p * q) + m * p;
    MulMono(m + 1, q, p);
    MulMono(1, p, q);
    DivUnique(v, p * q, b);
  }

  /** Where a program finds ST(i), in the 80 bytes that begin at b. */
  lemma RegisterAt(s: State, b: Word, m: X87, i: Depth)
    requires Image(s, b, m)
    ensures b + 0x48 <= TWO64 && var k: Depth := (m.sw.top + i) % 8; Read64(s, b + 8 + 8 * k) == Get(m, i)
  {
    PhysIs(m.sw.top, i);
    hide EncodeSw, EncodeTags, Read16, Read64, Phys;
  }

  lemma PhysIs(t: Depth, i: Depth)
    ensures Phys(t, i) == (t + i) % 8
  {
  }

  /** The control word, and where TOP and the condition codes are. */
  lemma StatusAtTwo(s: State, b: Word, m: X87)
    requires Image(s, b, m)
    ensures Read16(s, b) == m.cw
    ensures b + 2 < TWO64
    ensures var sw := Read16(s, b + 2);
      && (sw / 0x100) % 2 == m.sw.c0 && (sw / 0x200) % 2 == m.sw.c1 && (sw / 0x400) % 2 == m.sw.c2
      && (sw / 0x800) % 8 == m.sw.top && (sw / 0x4000) % 2 == m.sw.c3
  {
    assert Read16(s, b + 2) == EncodeSw(m.sw);
    hide EncodeSw, EncodeTags, Read16, Read64, Image;
    StatusFields(m.sw);
  }

  /** The tag of register k is bits 2 k and 2 k + 1. */
  lemma TagAtFour(s: State, b: Word, m: X87, k: Depth)
    requires Image(s, b, m)
    ensures b + 4 < TWO64 && (Read16(s, b + 4) / Pow2(2 * k)) % 4 == m.tags[k]
  {
    assert Read16(s, b + 4) == Digits(m.tags);
    hide EncodeSw, EncodeTags, Read16, Read64, Image, Digits, Pow2;
    DigitAt(m.tags, k);
  }
}
