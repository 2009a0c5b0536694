/**
 Nodes as the instructions they are lowered to (X87IRLower.cpp), and the laws that the passes need as
 laws of the floating-point unit.
 */
module X87Lower {
  import opened Words
  import opened X87Model
  import opened I = X87IR
  import opened X87Rules
  import opened X87Denotes
  import FmovImm8
  import opened Fstp80
  import Bits
  import Arm
  import X87Ops
  import X87Numbers

  // ---------------------------------------------------------------- encodings

  /** FADD and so on by their opcode field (Arm Architecture Reference Manual, floating-point data-processing, two sources). */
  function TwoSource(opc: nat, dd: Arm.Reg, dn: Arm.Reg, dm: Arm.Reg): Arm.Option<Arm.Instr> {
    match opc
    case 0 => Arm.Some(Arm.Fp2(Mul, dd, dn, dm))
    case 1 => Arm.Some(Arm.Fp2(Div, dd, dn, dm))
    case 2 => Arm.Some(Arm.Fp2(Add, dd, dn, dm))
    case 3 => Arm.Some(Arm.Fp2(Sub, dd, dn, dm))
    case 8 => Arm.Some(Arm.Fnmul(dd, dn, dm))
    case _ => Arm.None
  }

  /** One source. */
  function OneSource(opc: nat, dd: Arm.Reg, dn: Arm.Reg): Arm.Option<Arm.Instr> {
    match opc
    case 1 => Arm.Some(Arm.Fp1(Abs, dd, dn))
    case 2 => Arm.Some(Arm.Fp1(Chs, dd, dn))
    case 3 => Arm.Some(Arm.Fp1(Sqrt, dd, dn))
    case _ => Arm.None
  }

  /** Three sources, by the fields o1 and o0. */
  function ThreeSource(o1: Bit, o0: Bit, dd: Arm.Reg, dn: Arm.Reg, dm: Arm.Reg, da: Arm.Reg): Arm.Option<Arm.Instr> {
    if o1 == 0 then Arm.Some(Arm.Fp3(if o0 == 0 then MAdd else MSub, dd, dn, dm, da))
    else if o0 == 1 then Arm.Some(Arm.Fp3(NMSub, dd, dn, dm, da))
    else Arm.None
  }

  // ---------------------------------------------------------------- lowering of one node

  function Opcode2(op: I.Op): nat {
    match op case FMul => 0 case FDiv => 1 case FAdd => 2 case FSub => 3 case _ => 8
  }

  function Opcode1(op: I.Op): nat {
    if op.FAbs? then 1 else if op.FNeg? then 2 else 3
  }

  function Const(bits: Word, dd: Arm.Reg): Arm.Option<Arm.Instr> {
    var imm8 := FmovImm8.FmovImm8(bits);
    if imm8.Some? then Arm.Some(Arm.FmovImm(dd, imm8.value)) else Arm.None
  }

  /**
   The instruction that computes a node into dd from the registers of its inputs; none for nodes that are
   no value, that load, round or convert, and for constants that FMOV cannot load.
   */
  function Lower(n: Node, dd: Arm.Reg, r0: Arm.Reg, r1: Arm.Reg, r2: Arm.Reg): Arm.Option<Arm.Instr> {
    match n.op
    case ConstZero => Arm.Some(Arm.MoviZero(dd))
    case ConstOne => Arm.Some(Arm.FmovImm(dd, 0x70))
    case ConstF64 => Const(n.imm, dd)
    case FAdd => TwoSource(Opcode2(n.op), dd, r0, r1)
    case FSub => TwoSource(Opcode2(n.op), dd, r0, r1)
    case FMul => TwoSource(Opcode2(n.op), dd, r0, r1)
    case FDiv => TwoSource(Opcode2(n.op), dd, r0, r1)
    case FNMul => TwoSource(Opcode2(n.op), dd, r0, r1)
    case FMAdd => ThreeSource(0, 0, dd, r0, r1, r2)
    case FMSub => ThreeSource(0, 1, dd, r0, r1, r2)
    case FNMSub => ThreeSource(1, 1, dd, r0, r1, r2)
    case FNeg => OneSource(Opcode1(n.op), dd, r0)
    case FAbs => OneSource(Opcode1(n.op), dd, r0)
    case FSqrt => OneSource(Opcode1(n.op), dd, r0)
    case FCSel => Arm.Some(Arm.Fcsel(n.imm % 16, dd, r1, r0))
    case _ => Arm.None
  }

  /** The registers of the inputs hold their values. */
  predicate Loaded(t: Arm.State, n: Node, vals: seq<Word>, r0: Arm.Reg, r1: Arm.Reg, r2: Arm.Reg) {
    && (n.in0 >= 0 ==> t.d[r0] == In(vals, n.in0)) && (n.in1 >= 0 ==> t.d[r1] == In(vals, n.in1))
    && (n.in2 >= 0 ==> t.d[r2] == In(vals, n.in2))
  }

  predicate HasInputs(n: Node) {
    && (Arity(n.op) > 0 ==> n.in0 >= 0) && (Arity(n.op) > 1 ==> n.in1 >= 0) && (Arity(n.op) > 2 ==> n.in2 >= 0)
    && (n.op.FCSel? ==> exists cond: Cond :: n.imm == X87Ops.ArmCond(cond))
  }

  lemma LoweredArith(s: Machine, n: Node, vals: seq<Word>, world: World, t: Arm.State, dd: Arm.Reg, r0: Arm.Reg, r1: Arm.Reg, r2: Arm.Reg)
    requires Computes(s, t.fpu) && HasInputs(n) && Loaded(t, n, vals, r0, r1, r2) && (IsBinary(n.op) || IsFma(n.op))
    requires Lower(n, dd, r0, r1, r2).Some?
    ensures Arm.Exec(Lower(n, dd, r0, r1, r2).value, t) == Arm.SetD(t, dd, Value(s, n, vals, world))
  {
    hide In, CodesOf;
  }

  lemma LoweredUnary(s: Machine, n: Node, vals: seq<Word>, world: World, t: Arm.State, dd: Arm.Reg, r0: Arm.Reg, r1: Arm.Reg, r2: Arm.Reg)
    requires Computes(s, t.fpu) && HasInputs(n) && Loaded(t, n, vals, r0, r1, r2) && (IsUnary(n.op) || IsConst(n.op))
    requires Lower(n, dd, r0, r1, r2).Some?
    ensures Arm.Exec(Lower(n, dd, r0, r1, r2).value, t) == Arm.SetD(t, dd, Value(s, n, vals, world))
  {
    OneIs();
    hide In, CodesOf, Arm.VFPExpandImm;
  }

  lemma OneIs()
    ensures Arm.VFPExpandImm(0x70) == POSITIVE_ONE
  {
  }

  /** The two constants of the builder are lowered to the number 1 and positive zero. */
  lemma LoweredConstants(n: Node, t: Arm.State, dd: Arm.Reg, r: Arm.Reg)
    requires n.op.ConstOne? || n.op.ConstZero?
    ensures var i := Lower(n, dd, r, r, r);
      && i.Some?
      && (n.op.ConstOne? ==> X87Numbers.IsOne(Arm.Exec(i.value, t).d[dd]))
      && (n.op.ConstZero? ==> X87Numbers.IsPlusZero(Arm.Exec(i.value, t).d[dd]))
  {
    OneIs();
    X87Numbers.OneIsOne();
    hide Arm.VFPExpandImm, X87Numbers.IsOne, X87Numbers.IsPlusZero;
  }

  lemma SelectIs(s: Machine, fpu: Fpu, m: X87, n: Node, x: Word, y: Word, world: World)
    requires Observes(s, fpu, m) && n.op.FCSel? && exists cond: Cond :: n.imm == X87Ops.ArmCond(cond)
    ensures n.imm < 16 && s.observe(FCSel, x, y, n.imm, world) == if Arm.Holds(n.imm, world.flags) then y else x
  {
    var cond: Cond :| n.imm == X87Ops.ArmCond(cond);
    ArmCondSmall(cond);
    X87Ops.ArmCondHolds(cond, world.flags);
    hide CondHolds, Arm.Holds, X87Ops.ArmCond, Get, StatusAt, EncodeSw, FcomiFlags;
  }

  lemma LoweredSelect(s: Machine, m: X87, n: Node, vals: seq<Word>, world: World, t: Arm.State, dd: Arm.Reg, r0: Arm.Reg, r1: Arm.Reg, r2: Arm.Reg)
    requires Observes(s, t.fpu, m) && HasInputs(n) && Loaded(t, n, vals, r0, r1, r2) && n.op.FCSel? && world.flags == t.flags
    ensures Arm.Exec(Lower(n, dd, r0, r1, r2).value, t) == Arm.SetD(t, dd, Value(s, n, vals, world))
  {
    SelectIs(s, t.fpu, m, n, In(vals, n.in0), In(vals, n.in1), world);
    hide In, Arm.Holds, Observes;
  }

  /** The instruction leaves the value of the node in dd, and changes nothing else. */
  lemma LoweredIs(s: Machine, m: X87, n: Node, vals: seq<Word>, world: World, t: Arm.State, dd: Arm.Reg, r0: Arm.Reg, r1: Arm.Reg, r2: Arm.Reg)
    requires Implements(s, t.fpu, m) && HasInputs(n) && Loaded(t, n, vals, r0, r1, r2) && world.flags == t.flags
    requires Lower(n, dd, r0, r1, r2).Some?
    ensures Arm.Exec(Lower(n, dd, r0, r1, r2).value, t) == Arm.SetD(t, dd, Value(s, n, vals, world))
  {
    hide Computes, Observes, Value, Arm.Exec, Loaded, HasInputs;
    if n.op.FCSel? {
      LoweredSelect(s, m, n, vals, world, t, dd, r0, r1, r2);
    } else if IsBinary(n.op) || IsFma(n.op) {
      LoweredArith(s, n, vals, world, t, dd, r0, r1, r2);
    } else {
      LoweredUnary(s, n, vals, world, t, dd, r0, r1, r2);
    }
  }

  // ---------------------------------------------------------------- the laws

  /**
   x * 1, 1 * x, x / 1, x - 0 and x + (-0) are x; to divide by a power of two is to multiply by its
   reciprocal, and the two zeros compare alike.
   */
  ghost predicate ConstLaws(fpu: Fpu) {
    && (forall x: Word ::
          && fpu.binary(Mul, x, 0x3FF0_0000_0000_0000) == x && fpu.binary(Mul, 0x3FF0_0000_0000_0000, x) == x
          && fpu.binary(Div, x, 0x3FF0_0000_0000_0000) == x
          && fpu.binary(Sub, x, 0) == x && fpu.binary(Add, x, 0x8000_0000_0000_0000) == x)
    && (forall x: Word, b: Word :: PowerOfTwo(b) ==> fpu.binary(Div, x, b) == fpu.binary(Mul, x, Reciprocal(b)))
    && (forall x: Word :: fpu.compare(x, 0x8000_0000_0000_0000) == fpu.compare(x, 0))
  }

  /** x + (-y) and x - (-y) are x - y and x + y, (-x) + y is y - x, and the negated product is one. */
  ghost predicate SignLaws(fpu: Fpu) {
    forall x: Word, y: Word :: SignLaw(fpu, x, y)
  }

  predicate SignLaw(fpu: Fpu, x: Word, y: Word) {
    && fpu.binary(Add, x, fpu.unary(Chs, y)) == fpu.binary(Sub, x, y)
    && fpu.binary(Add, fpu.unary(Chs, x), y) == fpu.binary(Sub, y, x)
    && fpu.binary(Sub, x, fpu.unary(Chs, y)) == fpu.binary(Add, x, y)
    && fpu.unary(Chs, fpu.binary(Mul, x, y)) == fpu.nmul(x, y)
  }

  /** n * m + a, a + n * m, n * m - a and a - n * m with one rounding are what they are with two. */
  ghost predicate FmaLaws(fpu: Fpu) {
    forall n: Word, m: Word, a: Word ::
      && fpu.binary(Add, fpu.binary(Mul, n, m), a) == fpu.fma(MAdd, n, m, a)
      && fpu.binary(Add, a, fpu.binary(Mul, n, m)) == fpu.fma(MAdd, n, m, a)
      && fpu.binary(Sub, fpu.binary(Mul, n, m), a) == fpu.fma(NMSub, n, m, a)
      && fpu.binary(Sub, a, fpu.binary(Mul, n, m)) == fpu.fma(MSub, n, m, a)
  }

  ghost predicate Lawful(fpu: Fpu) {
    ConstLaws(fpu) && SignLaws(fpu) && FmaLaws(fpu)
  }

  lemma CodesAre(o: Order)
    ensures CodesOf(o) == match o case Greater => 0 case Less => 1 case Equal => 8 case Unordered => 13
  {
  }

  lemma CodesInjective(o: Order, p: Order)
    ensures CodesOf(o) == CodesOf(p) <==> o == p
  {
    CodesAre(o);
    CodesAre(p);
    hide CodesOf;
  }

  lemma ComparesAlike(s: Machine, fpu: Fpu)
    requires Computes(s, fpu)
    ensures (forall x: Word :: s.compare(x, 0) == s.test(x) && s.compare(x, MINUS_ZERO) == s.test(x))
      <==> (forall x: Word :: fpu.compare(x, 0x8000_0000_0000_0000) == fpu.compare(x, 0))
  {
    forall x: Word
      ensures s.compare(x, MINUS_ZERO) == s.test(x) <==> fpu.compare(x, 0x8000_0000_0000_0000) == fpu.compare(x, 0)
      ensures s.compare(x, 0) == s.test(x)
    {
      CodesInjective(fpu.compare(x, MINUS_ZERO), fpu.compare(x, 0));
    }
    hide CodesOf, Computes;
  }

  lemma ConstRulesExact(s: Machine, fpu: Fpu)
    requires Computes(s, fpu)
    ensures ConstRules(s) <==> ConstLaws(fpu)
  {
    ComparesAlike(s, fpu);
    hide CodesOf, Reciprocal, PowerOfTwo;
  }

  /** The four rules at x and y. */
  predicate SignRule(s: Machine, x: Word, y: Word) {
    && s.binary(FAdd, x, s.unary(FNeg, y)) == s.binary(FSub, x, y)
    && s.binary(FAdd, s.unary(FNeg, x), y) == s.binary(FSub, y, x)
    && s.binary(FSub, x, s.unary(FNeg, y)) == s.binary(FAdd, x, y)
    && s.unary(FNeg, s.binary(FMul, x, y)) == s.binary(FNMul, x, y)
  }

  lemma SignRulesAre(s: Machine)
    ensures SignRules(s) <==> forall x: Word, y: Word :: SignRule(s, x, y)
  {
    if forall x: Word, y: Word :: SignRule(s, x, y) {
      forall x: Word, y: Word
        ensures s.binary(FAdd, x, s.unary(FNeg, y)) == s.binary(FSub, x, y)
        ensures s.binary(FAdd, s.unary(FNeg, x), y) == s.binary(FSub, y, x)
        ensures s.binary(FSub, x, s.unary(FNeg, y)) == s.binary(FAdd, x, y)
        ensures s.unary(FNeg, s.binary(FMul, x, y)) == s.binary(FNMul, x, y)
      {
        assert SignRule(s, x, y);
      }
    }
  }

  lemma SignRulesExact(s: Machine, fpu: Fpu)
    requires Computes(s, fpu)
    ensures SignRules(s) <==> SignLaws(fpu)
  {
    SignRulesAre(s);
    hide SignRules, Computes;
    forall x: Word, y: Word
      ensures SignRule(s, x, y) <==> SignLaw(fpu, x, y)
    {
      SignAt(s, fpu, x, y);
    }
    hide SignRule, SignLaw;
  }

  lemma SignAt(s: Machine, fpu: Fpu, x: Word, y: Word)
    requires Computes(s, fpu)
    ensures SignRule(s, x, y) <==> SignLaw(fpu, x, y)
  {
    hide CodesOf;
  }

  lemma FmaRulesExact(s: Machine, fpu: Fpu)
    requires Computes(s, fpu)
    ensures FmaRules(s) <==> FmaLaws(fpu)
  {
    hide CodesOf;
  }

  /** A machine that implements the unit obeys what the passes need exactly if the unit is lawful. */
  lemma ObeysExact(s: Machine, fpu: Fpu)
    requires Computes(s, fpu)
    ensures Obeys(s, Laws(true, true, true)) <==> Lawful(fpu)
  {
    ConstRulesExact(s, fpu);
    SignRulesExact(s, fpu);
    FmaRulesExact(s, fpu);
    hide Computes, ConstRules, SignRules, FmaRules, ConstLaws, SignLaws, FmaLaws;
  }

  // ---------------------------------------------------------------- numbers

  lemma {:induction false} PowerInverse(k: int)
    ensures Power(k) * Power(-k) == 1.0
    decreases if k < 0 then -k else k
  {
    if k > 0 {
      PowerInverse(k - 1);
      PowerStep(-k);
    } else if k < 0 {
      PowerInverse(k + 1);
      PowerStep(-k - 1);
      PowerStep(k);
    }
  }

  /** A normal number without a fraction is a power of two. */
  lemma NoFraction(v: Word)
    requires 0 < Exponent(v) < 0x7FF && Fraction(v) == 0
    ensures Class64(v) == Normal && Value64(v) == Signed(Sign(v) == 1, Power(Exponent(v) - 1023))
  {
    var e: int := Exponent(v);
    hide Exponent, Fraction, Sign, Power;
    Bits.LargePowers();
    PowerShift(e - 1075, 52);
    hide Bits.Pow2;
    assert (0x10_0000_0000_0000 as real) * Power(e - 1075) == Power(e - 1023);
  }

  lemma ReciprocalParts(b: Word)
    requires PowerOfTwo(b)
    ensures 0 < Exponent(b) < 2046 && Fraction(b) == 0
    ensures var r := Reciprocal(b); Exponent(r) == 2046 - Exponent(b) && Fraction(r) == 0 && Sign(r) == Sign(b)
  {
    var sign, e := b / MINUS_ZERO, (b / 0x10_0000_0000_0000) % 0x800;
    var r := Reciprocal(b);
    assert r == 0x10_0000_0000_0000 * (sign * 0x800 + (2046 - e));
  }

  /** A power of two is a pattern without a fraction whose exponent and its negative are in range. */
  lemma PowerOfTwoExact(b: Word)
    ensures PowerOfTwo(b) <==> Fraction(b) == 0 && 1 <= Exponent(b) <= 2045
  {
  }

  /** What the pass calls a power of two is one, and times what it calls the reciprocal it is 1. */
  lemma ReciprocalIs(b: Word)
    requires PowerOfTwo(b)
    ensures var r := Reciprocal(b);
      && Class64(b) == Class64(r) == Normal && Value64(b) * Value64(r) == 1.0
      && Value64(b) == Signed(Sign(b) == 1, Power(Exponent(b) - 1023))
  {
    ReciprocalParts(b);
    NoFraction(b);
    NoFraction(Reciprocal(b));
    PowerInverse(Exponent(b) - 1023);
    hide Exponent, Fraction, Sign, Power, Class64, Value64, Reciprocal, PowerOfTwo;
    assert 2046 - Exponent(b) - 1023 == -(Exponent(b) - 1023);
  }
}
