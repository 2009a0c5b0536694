/**
 FSTP m80: the branching code that turns a binary64 pattern into an 80-bit extended one and
 stores it, for every pattern.
 */
module Fstp80 {
  import opened Words
  import opened Bits
  import opened X87Model
  import opened Arm
  import opened Translation
  import opened X87Code
  import opened X87Compare
  import opened BitmaskImmediate
  import opened LoadImmediate
  import opened OperandAccess

  // ---------------------------------------------------------------- the two formats

  function Sign(v: Word): Bit { v / 0x8000_0000_0000_0000 }
  function Exponent(v: Word): (e: nat) ensures e < 0x800 { (v / 0x10_0000_0000_0000) % 0x800 }
  function Fraction(v: Word): (f: nat) ensures f < 0x10_0000_0000_0000 { v % 0x10_0000_0000_0000 }

  /** Mantissa with its explicit integer bit, and the word of sign and 15-bit exponent. */
  datatype F80 = F80(mantissa: Word, word: Half)

  /** Zeros and denormals become zero, infinities and NaNs keep their fraction. */
  function ToF80(v: Word): F80 {
    var s, e, f := Sign(v), Exponent(v), Fraction(v);
    var mantissa := 0x8000_0000_0000_0000 + 0x800 * f;
    if e == 0 then F80(0, 0x8000 * s)
    else if e == 0x7FF then F80(mantissa, 0x8000 * s + 0x7FFF)
    else F80(mantissa, 0x8000 * s + e + 15360)
  }

  function Power(k: int): real
    decreases if k < 0 then -k else k
  {
    if k == 0 then 1.0 else if k > 0 then 2.0 * Power(k - 1) else Power(k + 1) / 2.0
  }

  function Signed(negative: bool, v: real): real {
    if negative then -v else v
  }

  /** The number a normal binary64 pattern stands for. */
  function Value64(v: Word): real
    requires 0 < Exponent(v) < 0x7FF
  {
    Signed(Sign(v) == 1, (0x10_0000_0000_0000 + Fraction(v)) as real * Power(Exponent(v) - 1023 - 52))
  }

  /** The number an 80-bit pattern with exponent below the maximum stands for. */
  function Value80(x: F80): real
    requires x.word % 0x8000 < 0x7FFF
  {
    Signed(x.word / 0x8000 == 1, x.mantissa as real * Power(x.word % 0x8000 - 16383 - 63))
  }

  lemma {:induction false} PowerStep(k: int)
    ensures Power(k + 1) == 2.0 * Power(k)
  {
    if k < 0 {
      assert Power(k) == Power(k + 1) / 2.0;
    }
  }

  lemma {:induction false} PowerShift(k: int, n: nat)
    ensures Power(k + n) == Pow2(n) as real * Power(k)
  {
    if n > 0 {
      PowerShift(k, n - 1);
      PowerStep(k + n - 1);
      var p, q := Pow2(n - 1), Power(k);
      assert Pow2(n) == 2 * p;
      assert (2 * p) as real == 2.0 * p as real;
    }
  }

  /** Normal numbers keep their value exactly. */
  lemma NormalKeepsValue(v: Word)
    requires 0 < Exponent(v) < 0x7FF
    ensures ToF80(v).word % 0x8000 < 0x7FFF && Value80(ToF80(v)) == Value64(v)
  {
    var e: int, f: int := Exponent(v), Fraction(v);
    assert ToF80(v).word % 0x8000 == e + 15360 && ToF80(v).word / 0x8000 == Sign(v);
    hide Sign, Exponent, Fraction, Power;
    Powers();
    PowerShift(e - 1086, 11);
    hide Pow2;
    var m, p := 0x10_0000_0000_0000 + f, Power(e - 1086);
    assert 0x8000_0000_0000_0000 + 0x800 * f == 0x800 * m;
    assert (0x800 * m) as real == 2048.0 * m as real;
    assert e - 1086 + 11 == e - 1075;
    assert (2048.0 * m as real) * p == m as real * (2048.0 * p);
  }

  datatype Class = Zero | Denormal | Normal | Infinite | NaN

  function Class64(v: Word): Class {
    if Exponent(v) == 0 then (if Fraction(v) == 0 then Zero else Denormal)
    else if Exponent(v) == 0x7FF then (if Fraction(v) == 0 then Infinite else NaN)
    else Normal
  }

  /** The class of an 80-bit pattern; None for the encodings the format does not admit. */
  function Class80(x: F80): Option<Class> {
    var e := x.word % 0x8000;
    if x.mantissa >= 0x8000_0000_0000_0000 then
      if e == 0x7FFF then Some(if x.mantissa == 0x8000_0000_0000_0000 then Infinite else NaN)
      else if e > 0 then Some(Normal)
      else None
    else if e == 0 then Some(if x.mantissa == 0 then Zero else Denormal)
    else None
  }

  lemma KeepsClass(v: Word)
    ensures Class80(ToF80(v)) == Some(if Class64(v) == Denormal then Zero else Class64(v))
    ensures ToF80(v).word / 0x8000 == Sign(v)
  {
    hide Sign, Exponent, Fraction;
  }

  lemma Parts(v: Word)
    ensures v == Sign(v) * 0x8000_0000_0000_0000 + Exponent(v) * 0x10_0000_0000_0000 + Fraction(v)
  {
    assert v / 0x10_0000_0000_0000 / 0x800 == v / 0x8000_0000_0000_0000;
  }

  /** Only the denormals are merged: any other pattern can be read back from its 80-bit form. */
  lemma Injective(v: Word, w: Word)
    requires ToF80(v) == ToF80(w) && Class64(v) != Denormal && Class64(w) != Denormal
    ensures v == w
  {
    Parts(v);
    Parts(w);
    KeepsClass(v);
    KeepsClass(w);
    hide Sign, Exponent, Fraction;
  }

  // ---------------------------------------------------------------- the values computed

  lemma FieldsOf(v: Word, d: Word)
    ensures FieldValue(Ubfm, 64, 52, 62, v, d) == Exponent(v)
    ensures FieldValue(Ubfm, 64, 48, 63, v, d) == (v / 0x1_0000_0000_0000) % 0x1_0000
    ensures FieldValue(Ubfm, 64, 53, 52, v, d) == (v % 0x20_0000_0000_0000) * 0x800
  {
    Powers();
    LargePowers();
    hide Pow2;
  }

  /** The bits after the shift: the fraction, and the low bit of the exponent above it. */
  lemma ShiftedBits(v: Word)
    ensures (v % 0x20_0000_0000_0000) * 0x800 == 0x800 * Fraction(v) + 0x8000_0000_0000_0000 * (Exponent(v) % 2)
  {
    var q := v / 0x10_0000_0000_0000;
    assert v % 0x20_0000_0000_0000 == Fraction(v) + 0x10_0000_0000_0000 * (q % 2);
  }

  lemma {:induction false} AndBit(a: nat, n: nat)
    ensures And(a, Pow2(n)) == BitAt(a, n) * Pow2(n)
  {
    if n > 0 {
      var p := Pow2(n - 1);
      AndBit(a / 2, n - 1);
      AndStep(a, 2 * p);
      DivDiv(a, p);
      assert Pow2(n) == 2 * p;
      hide And, Pow2;
      assert BitAt(a, n) == BitAt(a / 2, n - 1);
    }
  }

  lemma DivDiv(a: nat, p: nat)
    requires p > 0
    ensures a / 2 / p == a / (2 * p)
  {
    var q := a / 2 / p;
    assert q * (2 * p) == 2 * (q * p);
    DivUnique(a, 2 * p, q);
  }

  lemma SignBit(v: Word)
    ensures And((v / 0x1_0000_0000_0000) % 0x1_0000, 0x8000) == 0x8000 * Sign(v)
  {
    Powers();
    AndBit((v / 0x1_0000_0000_0000) % 0x1_0000, 15);
    hide And, Pow2;
  }

  lemma IntegerBit(v: Word)
    ensures Or((v % 0x20_0000_0000_0000) * 0x800, 0x8000_0000_0000_0000) == 0x8000_0000_0000_0000 + 0x800 * Fraction(v)
  {
    ShiftedBits(v);
    LargePowers();
    hide Exponent, Fraction, Pow2;
    OrSplit(63, 0x800 * Fraction(v), Exponent(v) % 2, 0, 1);
    assert Or(Exponent(v) % 2, 1) == 1;
    hide Or;
  }

  lemma JoinSign(low: nat, sign: Bit)
    requires low < 0x8000
    ensures Or(low, 0x8000 * sign) == low + 0x8000 * sign && Or(0x8000 * sign, low) == low + 0x8000 * sign
  {
    Powers();
    OrBelow(15, low, sign);
    hide Or, Pow2;
  }

  // ---------------------------------------------------------------- the three logical immediates

  /** A single run of ones is always encodable. */
  method RunImmediate(is64: bool, value: Word, ghost len: nat, ghost rot: nat) returns (i: LogicalImm)
    requires 0 < len < Width(is64) && len + rot <= Width(is64) && value == Ones(len, rot) && value < Full(is64)
    ensures Decodes(Width(is64), i, value)
  {
    hide Decodes, Encodable, Ones;
    var w := Width(is64);
    RunEncodable(w, len, rot);
    TruncSmall(is64, value);
    var r := IsBitmaskImmediate(is64, value);
    i := r.value;
  }

  lemma RunEncodable(width: nat, len: nat, rot: nat)
    requires (width == 32 || width == 64) && 0 < len && len + rot <= width && len < width
    ensures Encodable(width, Ones(len, rot))
  {
    hide Replicate, Ror, Ones, Decodes, Encode, Pow2;
    assert width / width == 1;
    EncodeDecodes(width, width, len, rot, 1);
    ReplicateOne(Element(width, len, rot), width);
    if rot == 0 {
      RorNone(Pow2(len) - 1, width);
      OnesAtZero(len);
    } else {
      RorPast(len, width - rot, width);
    }
    assert Decodes(width, Encode(width, len, rot), Ones(len, rot));
  }

  // ---------------------------------------------------------------- steps, taken or skipped

  /** The registers of the conversion and where its result goes. */
  datatype Regs = Regs(bits: Reg, exp: Reg, sign: Reg, a: Access)

  predicate Apart(k: Regs) {
    && Distinct(k.bits, k.exp, k.sign, XZR, k.a.base)
    && Encodes(k.a, 0, S64) && Encodes(k.a, 8, S16)
  }

  const INTEGER_BIT: Word := 0x8000_0000_0000_0000
  const MAX_EXPONENT: Word := 0x7FFF

  lemma Skipped(i: Instr, s: State)
    requires s.skip > 0
    ensures Step(i, s) == s.(skip := s.skip - 1)
  {
  }

  function OrrImm(is64: bool, i: LogicalImm, rn: Reg, rd: Reg): Instr {
    LogicImm(is64, LogicOrr, i.n, i.immr, i.imms, rn, rd)
  }

  /** ORR with an immediate that decodes to m. */
  lemma OrrImmStep(s: State, is64: bool, i: LogicalImm, m: Word, rn: Reg, rd: Reg, v: Word)
    requires s.skip == 0 && Decodes(Width(is64), i, m) && s.x[rn] < Full(is64) && Or(s.x[rn], m) == v && v < Full(is64)
    ensures Step(OrrImm(is64, i, rn, rd), s) == SetX(s, rd, v)
  {
    hide Or, DecodeBitMasks;
    TruncSmall(is64, s.x[rn]);
    TruncSmall(is64, v);
    assert LogicValue(LogicOrr, false, s.x[rn], m) == v;
    hide LogicValue, Trunc;
  }

  lemma IntegerBitStep(s: State, i: LogicalImm, bits: Reg, v: Word)
    requires s.skip == 0 && Decodes(64, i, INTEGER_BIT) && s.x[bits] == (v % 0x20_0000_0000_0000) * 0x800
    ensures Step(OrrImm(true, i, bits, bits), s) == SetX(s, bits, INTEGER_BIT + 0x800 * Fraction(v))
  {
    hide Step, Or, Decodes, Fraction, OrrImm;
    IntegerBit(v);
    OrrImmStep(s, true, i, INTEGER_BIT, bits, bits, INTEGER_BIT + 0x800 * Fraction(v));
  }

  lemma MaxExponentStep(s: State, i: LogicalImm, sign: Reg, exp: Reg, b: Bit)
    requires s.skip == 0 && Decodes(32, i, MAX_EXPONENT) && s.x[sign] == 0x8000 * b
    ensures Step(OrrImm(false, i, sign, exp), s) == SetX(s, exp, 0x8000 * b + 0x7FFF)
  {
    hide Step, Or, Decodes, OrrImm;
    JoinSign(0x7FFF, b);
    OrrImmStep(s, false, i, MAX_EXPONENT, sign, exp, 0x8000 * b + 0x7FFF);
  }

  lemma AddStep(s: State, shl12: bool, imm: Imm12, r: Reg, v: Word)
    requires s.skip == 0 && r != XZR && v < TWO32 && v == s.x[r] + (if shl12 then 0x1000 * imm else imm)
    ensures Step(AddSubImm(false, false, false, shl12, imm, r, r), s) == SetX(s, r, v)
  {
  }

  /** ORR exp, exp, sign */
  lemma JoinStep(s: State, exp: Reg, sign: Reg, low: nat, b: Bit)
    requires s.skip == 0 && low < 0x8000 && s.x[exp] == low && s.x[sign] == 0x8000 * b
    ensures Step(LogicReg(false, LogicOrr, false, Lsl, sign, 0, exp, exp), s) == SetX(s, exp, low + 0x8000 * b)
  {
    hide Or, Shifted, LogicValue, Trunc;
    JoinSign(low, b);
    HalfLogic(low, 0x8000 * b);
  }

  function StoreOf(a: Access, extra: nat, size: Size, rt: Reg): Instr
    requires Encodes(a, extra, size)
  {
    EncodedOffset(a, extra, size, seq(32, i => 0));
    LoadStore(size, false, false, ModeAt(a, extra, size), a.base, rt)
  }

  lemma StoreStep(s: State, a: Access, extra: nat, size: Size, rt: Reg)
    requires s.skip == 0 && Encodes(a, extra, size)
    ensures Step(StoreOf(a, extra, size, rt), s) == Store(s, size, false, X(s.x[a.base] + a.offset + extra), rt)
  {
    EncodedOffset(a, extra, size, s.x);
    hide ModeAt, Store, Offset;
  }

  // ---------------------------------------------------------------- flags

  /** What the comparison of the exponent with 0x7FF leaves in NZCV, for a nonzero exponent. */
  function ComparedFlags(v: Word): Flags {
    if Exponent(v) == 0x7FF then Flags(false, true, true, false) else Flags(true, false, false, false)
  }

  /** The flags after the conversion of v: zeros and denormals jump over the comparison. */
  function FlagsAfter(v: Word, before: Flags): Flags {
    if Exponent(v) == 0 then before else ComparedFlags(v)
  }

  /** Exactly when the guest's flags survive. */
  lemma FlagsSurvive(v: Word, before: Flags)
    ensures FlagsAfter(v, before) == before <==> Exponent(v) == 0 || before == ComparedFlags(v)
  {
  }

  /** Storing 1.0 after a comparison that found its operands equal: Z is lost. */
  lemma FlagsLost()
    ensures FlagsAfter(0x3FF0_0000_0000_0000, Flags(false, true, true, false)) == Flags(true, false, false, false)
  {
  }

  // ---------------------------------------------------------------- the three paths

  /** Registers after the pattern v was taken apart. */
  ghost predicate Ready(s: State, k: Regs, v: Word) {
    && s.x[k.bits] == (v % 0x20_0000_0000_0000) * 0x800
    && s.x[k.exp] == Exponent(v) && s.x[k.sign] == 0x8000 * Sign(v)
  }

  /** u is s with the ten bytes of f stored and `skip` instructions still to be jumped over. */
  ghost predicate Stored(s: State, u: State, k: Regs, f: F80, skip: nat) {
    var b := s.x[k.a.base] + k.a.offset;
    && u == s.(x := u.x, q := s.q[X(b) := f.mantissa], h := s.h[X(b + 8) := f.word], skip := skip)
    && KeepsX(s, u, {k.bits, k.exp})
  }

  /** Running instructions in order. */
  function Steps(code: seq<Instr>, s: State): State
    decreases |code|
  {
    if code == [] then s else Steps(code[1..], Step(code[0], s))
  }

  lemma StepsCons(i: Instr, code: seq<Instr>, s: State)
    ensures Steps([i] + code, s) == Steps(code, Step(i, s))
  {
    hide Step;
    assert ([i] + code)[1..] == code;
  }

  lemma {:induction false} StepsAppend(a: seq<Instr>, b: seq<Instr>, s: State)
    ensures Steps(a + b, s) == Steps(b, Steps(a, s))
    decreases |a|
  {
    hide Step;
    if a == [] {
      assert a + b == b;
    } else {
      assert (a + b)[1..] == a[1..] + b;
      StepsAppend(a[1..], b, Step(a[0], s));
    }
  }

  /** A block that lies inside the jump has no effect. */
  lemma {:induction false} StepsSkipped(code: seq<Instr>, s: State)
    requires |code| <= s.skip
    ensures Steps(code, s) == s.(skip := s.skip - |code|)
    decreases |code|
  {
    hide Step;
    if code != [] {
      Skipped(code[0], s);
      StepsSkipped(code[1..], Step(code[0], s));
    }
  }

  lemma StepsOne(i: Instr, s: State)
    ensures Steps([i], s) == Step(i, s)
  {
    hide Step;
    StepsCons(i, [], s);
    assert [i] + [] == [i];
  }

  /** Instructions 11 to 14: the sign, the stores, and the jump to the end. */
  function NormalStores(k: Regs): seq<Instr>
    requires Apart(k)
  {
    [LogicReg(false, LogicOrr, false, Lsl, k.sign, 0, k.exp, k.exp),
     StoreOf(k.a, 0, S64, k.bits), StoreOf(k.a, 8, S16, k.exp), B(8)]
  }

  /** Instructions 8 to 14: normal numbers. */
  function NormalCode(k: Regs, integer: LogicalImm): seq<Instr>
    requires Apart(k)
  {
    [OrrImm(true, integer, k.bits, k.bits),
     AddSubImm(false, false, false, true, 3, k.exp, k.exp),
     AddSubImm(false, false, false, false, 0xC00, k.exp, k.exp)] + NormalStores(k)
  }

  /** Instructions 15 to 17: zeros and denormals. */
  function ZeroCode(k: Regs): seq<Instr>
    requires Apart(k)
  {
    [StoreOf(k.a, 0, S64, XZR), StoreOf(k.a, 8, S16, k.sign), B(5)]
  }

  /** Instructions 18 to 21: infinities and NaNs. */
  function InfiniteCode(k: Regs, integer: LogicalImm, max: LogicalImm): seq<Instr>
    requires Apart(k)
  {
    [OrrImm(true, integer, k.bits, k.bits), StoreOf(k.a, 0, S64, k.bits),
     OrrImm(false, max, k.sign, k.exp), StoreOf(k.a, 8, S16, k.exp)]
  }

  /** Instructions 5 to 7: which of the three. */
  function BranchCode(k: Regs): seq<Instr> {
    [Cbz(k.exp, 10), AddSubImm(false, true, true, false, 0x7FF, k.exp, XZR), BCond(0, 11)]
  }

  function ConversionCode(k: Regs, integer: LogicalImm, max: LogicalImm): seq<Instr>
    requires Apart(k)
  {
    BranchCode(k) + (NormalCode(k, integer) + (ZeroCode(k) + InfiniteCode(k, integer, max)))
  }

  /** The mantissa, then the word, then a jump. */
  lemma StorePair(s: State, k: Regs, m: Reg, w: Reg, f: F80)
    requires Apart(k) && s.skip == 0 && s.x[m] == f.mantissa && s.x[w] == f.word
    ensures var b := s.x[k.a.base] + k.a.offset;
      Step(StoreOf(k.a, 8, S16, w), Step(StoreOf(k.a, 0, S64, m), s))
      == s.(q := s.q[X(b) := f.mantissa], h := s.h[X(b + 8) := f.word])
  {
    hide Step, StoreOf, X;
    StoreStep(s, k.a, 0, S64, m);
    StoreStep(Step(StoreOf(k.a, 0, S64, m), s), k.a, 8, S16, w);
  }

  lemma JumpStep(s: State, n: nat)
    requires s.skip == 0 && n > 0
    ensures Step(B(n), s) == s.(skip := n - 1)
  {
  }

  lemma Steps4(a: Instr, b: Instr, c: Instr, d: Instr, s: State)
    ensures Steps([a, b, c, d], s) == Step(d, Step(c, Step(b, Step(a, s))))
  {
    hide Step;
    StepsCons(a, [b, c, d], s);
    Steps3(b, c, d, Step(a, s));
    assert [a] + [b, c, d] == [a, b, c, d];
  }

  lemma Steps3(a: Instr, b: Instr, c: Instr, s: State)
    ensures Steps([a, b, c], s) == Step(c, Step(b, Step(a, s)))
  {
    hide Step;
    StepsCons(a, [b, c], s);
    StepsCons(b, [c], Step(a, s));
    StepsOne(c, Step(b, Step(a, s)));
    assert [a] + [b, c] == [a, b, c] && [b] + [c] == [b, c];
  }

  lemma NormalPath(s: State, k: Regs, integer: LogicalImm, v: Word)
    requires Apart(k) && Decodes(64, integer, INTEGER_BIT)
    requires s.skip == 0 && Ready(s, k, v) && Class64(v) == Normal
    ensures Stored(s, Steps(NormalCode(k, integer), s), k, ToF80(v), 7)
  {
    hide Step, Steps, Decodes, Fraction, Exponent, Sign, OrrImm, StoreOf, Encodes;
    var e: int, m: int, b: nat := Exponent(v), INTEGER_BIT + 0x800 * Fraction(v), Sign(v);
    var s1 := SetX(s, k.bits, m);
    IntegerBitStep(s, integer, k.bits, v);
    var s2 := SetX(s1, k.exp, e + 12288);
    AddStep(s1, true, 3, k.exp, e + 12288);
    var s3 := SetX(s2, k.exp, e + 15360);
    AddStep(s2, false, 0xC00, k.exp, e + 15360);
    var s4 := SetX(s3, k.exp, e + 15360 + 0x8000 * b);
    JoinStep(s3, k.exp, k.sign, e + 15360, b);
    StorePair(s4, k, k.bits, k.exp, ToF80(v));
    var s6 := Step(StoreOf(k.a, 8, S16, k.exp), Step(StoreOf(k.a, 0, S64, k.bits), s4));
    JumpStep(s6, 8);
    NormalSteps(s, s3, k, integer);
  }

  lemma NormalSteps(s: State, s3: State, k: Regs, integer: LogicalImm)
    requires Apart(k)
    requires s3 == Step(AddSubImm(false, false, false, false, 0xC00, k.exp, k.exp),
                        Step(AddSubImm(false, false, false, true, 3, k.exp, k.exp), Step(OrrImm(true, integer, k.bits, k.bits), s)))
    ensures Steps(NormalCode(k, integer), s) ==
      Step(B(8), Step(StoreOf(k.a, 8, S16, k.exp), Step(StoreOf(k.a, 0, S64, k.bits),
        Step(LogicReg(false, LogicOrr, false, Lsl, k.sign, 0, k.exp, k.exp), s3))))
  {
    hide Step, Steps, OrrImm, StoreOf, Encodes;
    var head := [OrrImm(true, integer, k.bits, k.bits), AddSubImm(false, false, false, true, 3, k.exp, k.exp),
                 AddSubImm(false, false, false, false, 0xC00, k.exp, k.exp)];
    StepsAppend(head, NormalStores(k), s);
    Steps3(head[0], head[1], head[2], s);
    Steps4(NormalStores(k)[0], NormalStores(k)[1], NormalStores(k)[2], NormalStores(k)[3], s3);
  }

  lemma ZeroPath(s: State, k: Regs, v: Word)
    requires Apart(k) && s.skip == 0 && Ready(s, k, v) && Exponent(v) == 0
    ensures Stored(s, Steps(ZeroCode(k), s), k, ToF80(v), 4)
  {
    hide Step, Steps, Fraction, Exponent, Sign, StoreOf, Encodes;
    StorePair(s, k, XZR, k.sign, ToF80(v));
    JumpStep(Step(StoreOf(k.a, 8, S16, k.sign), Step(StoreOf(k.a, 0, S64, XZR), s)), 5);
    Steps3(StoreOf(k.a, 0, S64, XZR), StoreOf(k.a, 8, S16, k.sign), B(5), s);
  }

  lemma InfinitePath(s: State, k: Regs, integer: LogicalImm, max: LogicalImm, v: Word)
    requires Apart(k) && Decodes(64, integer, INTEGER_BIT) && Decodes(32, max, MAX_EXPONENT)
    requires s.skip == 0 && Ready(s, k, v) && Exponent(v) == 0x7FF
    ensures Stored(s, Steps(InfiniteCode(k, integer, max), s), k, ToF80(v), 0)
  {
    hide Step, Steps, Decodes, Fraction, Exponent, Sign, OrrImm, StoreOf, Encodes, X;
    var m: int, b: Bit := INTEGER_BIT + 0x800 * Fraction(v), Sign(v);
    var i, j := OrrImm(true, integer, k.bits, k.bits), OrrImm(false, max, k.sign, k.exp);
    var s1 := SetX(s, k.bits, m);
    IntegerBitStep(s, integer, k.bits, v);
    var s2 := Step(StoreOf(k.a, 0, S64, k.bits), s1);
    StoreStep(s1, k.a, 0, S64, k.bits);
    MaxExponentStep(s2, max, k.sign, k.exp, b);
    var s3 := Step(j, s2);
    StoreStep(s3, k.a, 8, S16, k.exp);
    Steps4(i, StoreOf(k.a, 0, S64, k.bits), j, StoreOf(k.a, 8, S16, k.exp), s);
  }

  /** The dispatch: the jump taken depends on the exponent; the comparison leaves its flags behind. */
  lemma BranchPath(s: State, k: Regs, v: Word)
    requires s.skip == 0 && s.x[k.exp] == Exponent(v)
    ensures var u := Steps(BranchCode(k), s);
      u == s.(flags := FlagsAfter(v, s.flags), skip := if Exponent(v) == 0 then 7 else if Exponent(v) == 0x7FF then 10 else 0)
  {
    hide Exponent, Steps, Step;
    var cmp := AddSubImm(false, true, true, false, 0x7FF, k.exp, XZR);
    Steps3(Cbz(k.exp, 10), cmp, BCond(0, 11), s);
    CbzStep(s, k.exp, 10);
    var s1 := Step(Cbz(k.exp, 10), s);
    if Exponent(v) == 0 {
      Skipped(cmp, s1);
      Skipped(BCond(0, 11), Step(cmp, s1));
    } else {
      CmpStep(s1, k.exp);
      BEqStep(Step(cmp, s1), 11);
    }
  }

  lemma CbzStep(s: State, r: Reg, n: nat)
    requires s.skip == 0 && n > 0 && s.x[r] < TWO32
    ensures Step(Cbz(r, n), s) == s.(skip := if s.x[r] == 0 then n - 1 else 0)
  {
  }

  lemma CmpStep(s: State, r: Reg)
    requires s.skip == 0 && s.x[r] < 0x800
    ensures var u := Step(AddSubImm(false, true, true, false, 0x7FF, r, XZR), s);
      u == s.(flags := if s.x[r] == 0x7FF then Flags(false, true, true, false) else u.flags)
      && (s.x[r] < 0x7FF ==> u.flags == Flags(true, false, false, false))
  {
  }

  lemma BEqStep(s: State, n: nat)
    requires s.skip == 0 && n > 0
    ensures Step(BCond(0, n), s) == s.(skip := if s.flags.z then n - 1 else 0)
  {
  }

  lemma ReadyAfter(s: State, u: State, k: Regs, v: Word)
    requires Ready(s, k, v) && u == s.(flags := u.flags, skip := u.skip)
    ensures Ready(u, k, v)
  {
    hide Exponent, Sign;
  }

  /** Every pattern takes one path, and all paths meet at the end. */
  lemma ConversionPath(s: State, k: Regs, integer: LogicalImm, max: LogicalImm, v: Word)
    requires Apart(k) && Decodes(64, integer, INTEGER_BIT) && Decodes(32, max, MAX_EXPONENT)
    requires s.skip == 0 && Ready(s, k, v)
    ensures var u := Steps(ConversionCode(k, integer, max), s);
      Stored(s.(flags := FlagsAfter(v, s.flags)), u, k, ToF80(v), 0)
  {
    hide Step, Steps, Decodes, Fraction, Exponent, Sign, Encodes, BranchCode, NormalCode, ZeroCode, InfiniteCode, ToF80;
    var n, z, i := NormalCode(k, integer), ZeroCode(k), InfiniteCode(k, integer, max);
    CodeLengths(k, integer, max);
    StepsAppend(BranchCode(k), n + (z + i), s);
    var s1 := Steps(BranchCode(k), s);
    BranchPath(s, k, v);
    StepsAppend(n, z + i, s1);
    var s2 := Steps(n, s1);
    StepsAppend(z, i, s2);
    var s3 := Steps(z, s2);
    ReadyAfter(s, s1, k, v);
    if Exponent(v) == 0 {
      StepsSkipped(n, s1);
      ReadyAfter(s, s2, k, v);
      ZeroPath(s2, k, v);
      StepsSkipped(i, s3);
    } else if Exponent(v) == 0x7FF {
      StepsSkipped(n, s1);
      StepsSkipped(z, s2);
      ReadyAfter(s, s3, k, v);
      InfinitePath(s3, k, integer, max, v);
    } else {
      NormalPath(s1, k, integer, v);
      StepsSkipped(z, s2);
      StepsSkipped(i, s3);
    }
  }

  /** The jumps of the code match the lengths of the blocks they cross. */
  lemma CodeLengths(k: Regs, integer: LogicalImm, max: LogicalImm)
    requires Apart(k)
    ensures |BranchCode(k)| == 3 && |NormalCode(k, integer)| == 7 && |ZeroCode(k)| == 3 && |InfiniteCode(k, integer, max)| == 4
  {
  }

  // ---------------------------------------------------------------- the emitter

  method EmitAll(r: TranslationResult, code: seq<Instr>)
    requires r.Traced()
    modifies r`code, r`cur
    ensures r.Traced() && r.cur == Steps(code, old(r.cur)) && r.code == old(r.code) + code
  {
    hide Step, Reaches;
    for i := 0 to |code|
      invariant r.Traced() && r.code == old(r.code) + code[..i]
      invariant Steps(code[i..], r.cur) == Steps(code, old(r.cur))
    {
      assert code[i..][0] == code[i] && code[i..][1..] == code[i + 1..];
      r.Emit(code[i]);
    }
  }

  /** UBFX and LSL */
  method EmitUbfm(r: TranslationResult, immr: Imm6, imms: Imm6, rn: Reg, rd: Reg, ghost v: Word)
    requires r.Valid() && FieldValue(Ubfm, 64, immr, imms, r.cur.x[rn], r.cur.x[rd]) == v
    modifies r`code, r`cur
    ensures r.Valid() && r.cur == SetX(old(r.cur), rd, v) && |r.code| == |old(r.code)| + 1
  {
    hide Step, Exec, Reaches, FieldValue;
    r.EmitBitfield(true, Ubfm, immr, imms, rn, rd);
  }

  method EmitAndSign(r: TranslationResult, sign: Reg, mask: LogicalImm, ghost v: Word)
    requires r.Valid() && sign != XZR && Decodes(32, mask, 0x8000)
    requires r.cur.x[sign] == (v / 0x1_0000_0000_0000) % 0x1_0000
    modifies r`code, r`cur
    ensures r.Valid() && r.cur == SetX(old(r.cur), sign, 0x8000 * Sign(v)) && |r.code| == |old(r.code)| + 1
  {
    hide Step, Exec, Reaches, And, Sign, DecodeBitMasks;
    SignBit(v);
    r.EmitLogicalImm(false, LogicAnd, mask.n, mask.immr, mask.imms, sign, sign);
  }

  method EmitBitsOf(r: TranslationResult, bits: Reg, dd: Reg)
    requires r.Valid()
    modifies r`code, r`cur
    ensures r.Valid() && r.cur == SetX(old(r.cur), bits, old(r.cur).d[dd]) && |r.code| == |old(r.code)| + 1
  {
    hide Reaches;
    r.EmitPlain(FmovToX(bits, dd));
  }

  /** Instructions 0 to 4: exponent, sign at bit 15, and the fraction shifted to the top. */
  method EmitTakeApart(r: TranslationResult, k: Regs, dd: Reg, signMask: LogicalImm)
    requires r.Valid() && Apart(k) && Decodes(32, signMask, 0x8000)
    modifies r`code, r`cur
    ensures r.Valid() && r.cur == old(r.cur).(x := r.cur.x) && KeepsX(old(r.cur), r.cur, {k.bits, k.exp, k.sign})
    ensures Ready(r.cur, k, old(r.cur).d[dd]) && |r.code| == |old(r.code)| + 5
  {
    hide Step, Reaches, Exec, FieldValue, Exponent, Sign, Decodes, Encodes;
    ghost var v := r.cur.d[dd];
    EmitBitsOf(r, k.bits, dd);
    FieldsOf(v, r.cur.x[k.exp]);
    EmitUbfm(r, 52, 62, k.bits, k.exp, Exponent(v));
    FieldsOf(v, r.cur.x[k.sign]);
    EmitUbfm(r, 48, 63, k.bits, k.sign, (v / 0x1_0000_0000_0000) % 0x1_0000);
    EmitAndSign(r, k.sign, signMask, v);
    FieldsOf(v, r.cur.x[k.bits]);
    EmitUbfm(r, 53, 52, k.bits, k.bits, (v % 0x20_0000_0000_0000) * 0x800);
  }

  /** s with the ten bytes of v's 80-bit form at address a, and v's flags; free registers are whatever u has. */
  ghost predicate Written(s: State, u: State, a: Word, v: Word, free: set<Reg>, sign: Reg) {
    var f := ToF80(v);
    && u == s.(x := u.x, flags := FlagsAfter(v, s.flags), q := s.q[a := f.mantissa], h := s.h[X(a + 8) := f.word])
    && forall r: Reg :: r !in free && r != sign ==> u.x[r] == s.x[r]
  }

  lemma WrittenBy(s: State, s1: State, s2: State, u: State, k: Regs, v: Word, free: set<Reg>, left: set<Reg>, a: Word)
    requires Takes(s, s1, free, left, XZR, k.a.base) && X(s1.x[k.a.base] + k.a.offset) == a
    requires s2 == s1.(x := s2.x) && KeepsX(s1, s2, {k.bits, k.exp, k.sign}) && k.a.base !in {k.bits, k.exp, k.sign}
    requires Stored(s2.(flags := FlagsAfter(v, s2.flags)), u, k, ToF80(v), 0) && s.skip == 0
    requires k.bits in free && k.exp in free
    ensures Written(s, u, a, v, free, k.sign)
  {
    XAdd(s1.x[k.a.base] + k.a.offset, 8);
    hide X, FlagsAfter, ToF80;
  }

  /** Enough scratch registers for the address and the two halves of the result. */
  ghost predicate Three(f: set<Reg>) {
    exists a: Reg, b: Reg, c: Reg :: a < b < c && a in f && b in f && c in f
  }

  lemma TwoLeft(f: set<Reg>, g: set<Reg>, base: Reg)
    requires Three(f) && g == f - {base}
    ensures exists a: Reg, b: Reg :: a < b && a in g && b in g
  {
    var a: Reg, b: Reg, c: Reg :| a < b < c && a in f && b in f && c in f;
    assert base == a ==> b in g && c in g;
    assert base == b ==> a in g && c in g;
    assert base != a && base != b ==> a in g && b in g;
  }

  method TakeTwo(r: TranslationResult) returns (a: Reg, b: Reg)
    requires r.Traced() && exists x: Reg, y: Reg :: x < y && x in r.freeGpr && y in r.freeGpr
    modifies r`freeGpr
    ensures r.Traced() && a != b && a in old(r.freeGpr) && b in old(r.freeGpr) && r.freeGpr == old(r.freeGpr) - {a, b}
  {
    hide Reaches;
    ghost var x: Reg, y: Reg :| x < y && x in r.freeGpr && y in r.freeGpr;
    assert forall k :: k in r.freeGpr ==> GprScratch(k);
    a := r.AllocFreeGpr();
    assert x in r.freeGpr || y in r.freeGpr;
    b := r.AllocFreeGpr();
  }

  method Constants() returns (signMask: LogicalImm, integer: LogicalImm, max: LogicalImm)
    ensures Decodes(32, signMask, 0x8000) && Decodes(64, integer, INTEGER_BIT) && Decodes(32, max, MAX_EXPONENT)
  {
    hide Decodes;
    Powers();
    LargePowers();
    assert Ones(1, 15) == 0x8000 && Ones(1, 63) == INTEGER_BIT && Ones(15, 0) == MAX_EXPONENT;
    hide Ones;
    signMask := RunImmediate(false, 0x8000, 1, 15);
    integer := RunImmediate(true, INTEGER_BIT, 1, 63);
    max := RunImmediate(false, MAX_EXPONENT, 15, 0);
  }

  /**
   The store of FSTP m80: for every pattern in D register dd, every operand and every prior
   state, exactly the ten bytes of its 80-bit form are written, and the pool is as before.  The
   flags are left as they were for zeros and denormals only; see FlagsSurvive.
   */
  method EmitStoreF80(r: TranslationResult, op: Operand, dd: Reg, sign: Reg, fold: bool, ctx: Context)
    requires r.Valid() && GprScratch(sign) && sign !in r.freeGpr && Room(op.seg, r.freeGpr) && Three(r.freeGpr)
    requires WellShifted(op.addr64, op.place) && ctx.fsField / 4 < 4096
    modifies r`code, r`cur, r`freeGpr
    ensures r.Valid() && r.freeGpr == old(r.freeGpr)
    ensures var s := old(r.cur);
      Written(s, r.cur, OperandAddress(s, true, op, ctx), s.d[dd], r.freeGpr, sign)
  {
    hide Reaches, Room, OperandAddress, Encodes, Steps, Decodes, ConversionCode, Three, ToF80, FlagsAfter, Stored, Ready, Written;
    ghost var f, s := r.freeGpr, r.cur;
    var a := ComputeOperandAccess(r, true, op, S64, Second(8, S16), fold, ctx);
    ghost var s1, left := r.cur, r.freeGpr;
    TwoLeft(f, left, a.base);
    var bits, exp := TakeTwo(r);
    var k := Regs(bits, exp, sign, a);
    var signMask, integer, max := Constants();
    EmitTakeApart(r, k, dd, signMask);
    ghost var s2 := r.cur;
    ConversionPath(s2, k, integer, max, s.d[dd]);
    EmitAll(r, ConversionCode(k, integer, max));
    WrittenBy(s, s1, s2, r.cur, k, s.d[dd], f, left, OperandAddress(s, true, op, ctx));
    NoSkip(s2, r.cur, k, s.d[dd]);
    r.FreeGpr(a.base);
    r.FreeGpr(exp);
    r.FreeGpr(bits);
  }

  lemma NoSkip(s: State, u: State, k: Regs, v: Word)
    requires Stored(s.(flags := FlagsAfter(v, s.flags)), u, k, ToF80(v), 0)
    ensures u.skip == 0
  {
  }
}
