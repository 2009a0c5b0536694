/**
 The part of AArch64 that the lowering emits: thirty-one X registers with their zero-extending
 W views, thirty-two D registers holding 64-bit patterns, NZCV, and memory as one map of cells
 per access width.  A taken forward branch skips the instructions it jumps over, so running a
 sequence is folding Step over it.
 */
module Arm {
  import opened Words
  import opened Bits
  import opened X87Model

  type Reg = r: nat | r < 32
  const XZR: Reg := 31
  const X18: Reg := 18
  const X29: Reg := 29

  type Imm6 = n: nat | n < 64
  type Imm9 = n: nat | n < 512
  type Imm12 = n: nat | n < 4096
  type Word32 = w: nat | w < TWO32

  type GprFile = s: seq<Word> | |s| == 32 && s[31] == 0 witness seq(32, i => 0)
  type FprFile = s: seq<Word> | |s| == 32 witness seq(32, i => 0)

  /** `fpu` and `tls`, the address the get_tls_base routine returns, never change. */
  datatype State = State(
    x: GprFile, d: FprFile, flags: Flags,
    h: map<Word, Half>, w: map<Word, Word32>, q: map<Word, Word>,
    skip: nat, fpu: Fpu, tls: Word)

  datatype Size = S16 | S32 | S64
  datatype Logic = LogicAnd | LogicOrr
  datatype FieldOp = Sbfm | Bfm | Ubfm
  datatype MovOp = Movn | Movz | Movk
  datatype Shift = Lsl | Lsr

  datatype Mode =
    | Scaled(imm12: Imm12)
    | Unscaled(imm9: Imm9)
    | Indexed(rm: Reg, scaled: bool)

  datatype Instr =
    | AddSubImm(is64: bool, sub: bool, setFlags: bool, shl12: bool, imm: Imm12, rn: Reg, rd: Reg)
    | AddSubReg(is64: bool, sub: bool, rm: Reg, amount: Imm6, rn: Reg, rd: Reg)
    | LogicReg(is64: bool, logic: Logic, invert: bool, shift: Shift, rm: Reg, amount: Imm6, rn: Reg, rd: Reg)
    | LogicImm(is64: bool, logic: Logic, n: Bit, immr: Imm6, imms: Imm6, rn: Reg, rd: Reg)
    | Bitfield(is64: bool, op: FieldOp, immr: Imm6, imms: Imm6, rn: Reg, rd: Reg)
    | MovWide(is64: bool, mov: MovOp, hw: nat, imm16: Half, rd: Reg)
    | Lslv(is64: bool, rm: Reg, rn: Reg, rd: Reg)
    | LoadStore(size: Size, fp: bool, load: bool, mode: Mode, rn: Reg, rt: Reg)
    | Fp2(fn: Fn, dd: Reg, dn: Reg, dm: Reg)
    | Fp1(unary: UnaryFn, dd: Reg, dn: Reg)
    | Fnmul(dd: Reg, dn: Reg, dm: Reg)
    | Fp3(fma: FmaFn, dd: Reg, dn: Reg, dm: Reg, da: Reg)
    | Fcmp(dn: Reg, dm: Reg)
    | FcmpZero(dn: Reg)
    | Fcsel(cond: nat, dd: Reg, dn: Reg, dm: Reg)
    | FmovToX(rd: Reg, dn: Reg)
    | FmovImm(dd: Reg, imm8: Byte)
    | MoviZero(dd: Reg)
    | Cset(cond: nat, rd: Reg)
    | Mrs(rd: Reg)
    | Msr(rn: Reg)
    | Cbz(rt: Reg, offset: nat)
    | BCond(cond: nat, offset: nat)
    | B(offset: nat)
    | BlTlsBase

  // ---------------------------------------------------------------- immediates

  function HighestSetBit(v: nat): nat
    requires v > 0
    decreases v
  {
    if v < 2 then 0 else 1 + HighestSetBit(v / 2)
  }

  /** Rotate the low `size` bits right by r. */
  function Ror(v: nat, r: nat, size: nat): nat
    requires r <= size
  {
    Shr(v, r) + Shl(v % Pow2(r), size - r)
  }

  /** `count` copies of an element of `size` bits. */
  function Replicate(element: nat, size: nat, count: nat): nat {
    if count == 0 then 0 else element + Pow2(size) * Replicate(element, size, count - 1)
  }

  datatype Option<T> = None | Some(value: T)

  /**
   DecodeBitMasks of the Arm Architecture Reference Manual (shared pseudocode), for an
   immediate: the mask that N, immr and imms denote at the given width, if they denote one.
   */
  function DecodeBitMasks(width: nat, n: Bit, immr: Imm6, imms: Imm6): Option<nat> {
    var combined := 64 * n + (63 - imms);
    if combined == 0 then None
    else
      var len := HighestSetBit(combined);
      if len < 1 || Pow2(len) > width then None
      else
        var levels := Pow2(len);
        var s, r := imms % levels, immr % levels;
        if s == levels - 1 then None
        else Some(Replicate(Ror(Pow2(s + 1) - 1, r, levels), levels, width / levels))
  }

  /** VFPExpandImm of the Arm Architecture Reference Manual, for a 64-bit register. */
  function VFPExpandImm(imm8: Byte): Word {
    var sign, b6, rest := imm8 / 0x80, (imm8 / 0x40) % 2, imm8 % 0x40;
    sign * 0x8000_0000_0000_0000 + (1 - b6) * 0x4000_0000_0000_0000
    + b6 * 0x3FC0_0000_0000_0000 + rest * 0x1_0000_0000_0000
  }

  // ---------------------------------------------------------------- values

  function Width(is64: bool): nat { if is64 then 64 else 32 }

  function FieldValue(op: FieldOp, width: nat, immr: nat, imms: nat, v: nat, dst: nat): int
    requires immr < width && imms < width
  {
    if immr <= imms then
      var f, n := Field(v, immr, imms - immr + 1), imms - immr + 1;
      match op
      case Ubfm => f
      case Bfm => Insert(dst, 0, n, f)
      case Sbfm => if f < Pow2(n - 1) then f else f - Pow2(n)
    else
      var f, lsb := v % Pow2(imms + 1), width - immr;
      match op
      case Ubfm => Shl(f, lsb)
      case Bfm => Insert(dst, lsb, imms + 1, f)
      case Sbfm => (if f < Pow2(imms) then f else f - Pow2(imms + 1)) * Pow2(lsb)
  }

  function Chunk(v: nat, hw: nat): Half {
    (v / Pow2(16 * hw)) % TWO16
  }

  function MovValue(mov: MovOp, is64: bool, hw: nat, imm16: Half, dst: Word): int {
    var placed := imm16 * Pow2(16 * hw);
    match mov
    case Movz => placed
    case Movn => (if is64 then TWO64 else TWO32) - 1 - placed
    case Movk => dst - Chunk(dst, hw) * Pow2(16 * hw) + placed
  }

  function Shifted(is64: bool, shift: Shift, v: Word, amount: nat): Word {
    if shift.Lsl? then Trunc(is64, Shl(Trunc(is64, v), amount)) else Shr(Trunc(is64, v), amount)
  }

  function LogicValue(logic: Logic, invert: bool, a: nat, b: nat): nat {
    if logic.LogicAnd? then (if invert then Bic(a, b) else And(a, b)) else Or(a, b)
  }

  predicate Holds(cond: nat, f: Flags) {
    match cond
    case 0 => f.z
    case 1 => !f.z
    case 2 => f.c
    case 3 => !f.c
    case 4 => f.n
    case 5 => !f.n
    case 6 => f.v
    case 7 => !f.v
    case 8 => f.c && !f.z
    case 9 => !(f.c && !f.z)
    case 10 => f.n == f.v
    case 11 => f.n != f.v
    case 12 => !f.z && f.n == f.v
    case 13 => !(!f.z && f.n == f.v)
    case _ => true
  }

  /** NZCV after FCMP. */
  function FcmpFlags(o: Order): Flags {
    match o
    case Greater => Flags(false, false, true, false)
    case Less => Flags(true, false, false, false)
    case Equal => Flags(false, true, true, false)
    case Unordered => Flags(false, false, true, true)
  }

  /** NZCV after a 32-bit SUBS. */
  function SubsFlags(a: Word, imm: nat): Flags {
    var l := W(a);
    var r := W(l - imm);
    var signed := if l < 0x8000_0000 then l else l - TWO32;
    Flags(r >= 0x8000_0000, r == 0, l >= imm, signed - imm < -0x8000_0000)
  }

  function PackFlags(f: Flags): Word {
    0x8000_0000 * B2N(f.n) + 0x4000_0000 * B2N(f.z) + 0x2000_0000 * B2N(f.c) + 0x1000_0000 * B2N(f.v)
  }

  function UnpackFlags(v: nat): Flags {
    Flags((v / 0x8000_0000) % 2 == 1, (v / 0x4000_0000) % 2 == 1,
          (v / 0x2000_0000) % 2 == 1, (v / 0x1000_0000) % 2 == 1)
  }

  // ---------------------------------------------------------------- memory

  function Read16(s: State, a: Word): Half { if a in s.h then s.h[a] else 0 }
  function Read32(s: State, a: Word): Word32 { if a in s.w then s.w[a] else 0 }
  function Read64(s: State, a: Word): Word { if a in s.q then s.q[a] else 0 }

  function Bytes(size: Size): nat {
    match size case S16 => 2 case S32 => 4 case S64 => 8
  }

  function Offset(mode: Mode, size: Size, x: GprFile): int {
    match mode
    case Scaled(i) => i * Bytes(size)
    case Unscaled(i) => if i < 256 then i else i - 512
    case Indexed(m, scaled) => if scaled then x[m] * Bytes(size) else x[m]
  }

  function Address(s: State, mode: Mode, size: Size, rn: Reg): Word {
    X(s.x[rn] + Offset(mode, size, s.x))
  }

  // ---------------------------------------------------------------- steps

  function SetX(s: State, r: Reg, v: Word): State {
    if r == XZR then s else s.(x := s.x[r := v])
  }

  function SetD(s: State, r: Reg, v: Word): State {
    s.(d := s.d[r := v])
  }

  function Load(s: State, size: Size, fp: bool, a: Word, rt: Reg): State {
    var v: Word := match size case S16 => Read16(s, a) case S32 => Read32(s, a) case S64 => Read64(s, a);
    if fp then SetD(s, rt, v) else SetX(s, rt, v)
  }

  function Store(s: State, size: Size, fp: bool, a: Word, rt: Reg): State {
    var v := if fp then s.d[rt] else s.x[rt];
    match size
    case S16 => s.(h := s.h[a := v % TWO16])
    case S32 => s.(w := s.w[a := v % TWO32])
    case S64 => s.(q := s.q[a := v])
  }

  function Taken(s: State, offset: nat, taken: bool): State {
    if taken && offset > 0 then s.(skip := offset - 1) else s
  }

  function Exec(i: Instr, s: State): State {
    match i
    case AddSubImm(is64, sub, setFlags, shl12, imm, rn, rd) =>
      var k := if shl12 then 0x1000 * imm else imm;
      var t := SetX(s, rd, Trunc(is64, if sub then s.x[rn] - k else s.x[rn] + k));
      if setFlags then t.(flags := SubsFlags(s.x[rn], k)) else t
    case AddSubReg(is64, sub, rm, amount, rn, rd) =>
      var k := Shifted(is64, Lsl, s.x[rm], amount);
      SetX(s, rd, Trunc(is64, if sub then s.x[rn] - k else s.x[rn] + k))
    case LogicReg(is64, logic, invert, shift, rm, amount, rn, rd) =>
      SetX(s, rd, Trunc(is64, LogicValue(logic, invert, Trunc(is64, s.x[rn]), Shifted(is64, shift, s.x[rm], amount))))
    case LogicImm(is64, logic, n, immr, imms, rn, rd) =>
      var m := DecodeBitMasks(Width(is64), n, immr, imms);
      if m.None? then s
      else SetX(s, rd, Trunc(is64, LogicValue(logic, false, Trunc(is64, s.x[rn]), m.value)))
    case Bitfield(is64, op, immr, imms, rn, rd) =>
      if immr < Width(is64) && imms < Width(is64)
      then SetX(s, rd, Trunc(is64, FieldValue(op, Width(is64), immr, imms, Trunc(is64, s.x[rn]), Trunc(is64, s.x[rd]))))
      else s
    case MovWide(is64, mov, hw, imm16, rd) => SetX(s, rd, Trunc(is64, MovValue(mov, is64, hw, imm16, s.x[rd])))
    case Lslv(is64, rm, rn, rd) => SetX(s, rd, Shifted(is64, Lsl, s.x[rn], s.x[rm] % Width(is64)))
    case LoadStore(size, fp, load, mode, rn, rt) =>
      var a := Address(s, mode, size, rn);
      if load then Load(s, size, fp, a, rt) else Store(s, size, fp, a, rt)
    case Fp2(fn, dd, dn, dm) => SetD(s, dd, s.fpu.binary(fn, s.d[dn], s.d[dm]))
    case Fp1(u, dd, dn) => SetD(s, dd, s.fpu.unary(u, s.d[dn]))
    case Fnmul(dd, dn, dm) => SetD(s, dd, s.fpu.nmul(s.d[dn], s.d[dm]))
    case Fp3(f, dd, dn, dm, da) => SetD(s, dd, s.fpu.fma(f, s.d[dn], s.d[dm], s.d[da]))
    case Fcmp(dn, dm) => s.(flags := FcmpFlags(s.fpu.compare(s.d[dn], s.d[dm])))
    case FcmpZero(dn) => s.(flags := FcmpFlags(s.fpu.compare(s.d[dn], 0)))
    case Fcsel(cond, dd, dn, dm) => SetD(s, dd, if Holds(cond, s.flags) then s.d[dn] else s.d[dm])
    case FmovToX(rd, dn) => SetX(s, rd, s.d[dn])
    case FmovImm(dd, imm8) => SetD(s, dd, VFPExpandImm(imm8))
    case MoviZero(dd) => SetD(s, dd, 0)
    case Cset(cond, rd) => SetX(s, rd, if Holds(cond, s.flags) then 1 else 0)
    case Mrs(rd) => SetX(s, rd, PackFlags(s.flags))
    case Msr(rn) => s.(flags := UnpackFlags(s.x[rn]))
    case Cbz(rt, offset) => Taken(s, offset, W(s.x[rt]) == 0)
    case BCond(cond, offset) => Taken(s, offset, Holds(cond, s.flags))
    case B(offset) => Taken(s, offset, true)
    case BlTlsBase => SetX(s, X29, s.tls)
  }

  function Step(i: Instr, s: State): State {
    if s.skip > 0 then s.(skip := s.skip - 1) else Exec(i, s)
  }

  function Run(code: seq<Instr>, s: State): State {
    if code == [] then s else Step(code[|code| - 1], Run(code[..|code| - 1], s))
  }

  ghost predicate IsTrace(trace: seq<State>, code: seq<Instr>, s: State, t: State) {
    && |trace| == |code| + 1
    && trace[0] == s
    && trace[|code|] == t
    && forall i :: 0 <= i < |code| ==> trace[i + 1] == Step(code[i], trace[i])
  }

  /** Running the code from s ends in t; see ReachesIsRun. */
  ghost predicate Reaches(code: seq<Instr>, s: State, t: State) {
    exists trace :: IsTrace(trace, code, s, t)
  }

  lemma ReachesSnoc(code: seq<Instr>, i: Instr, s: State, t: State)
    requires Reaches(code, s, t)
    ensures Reaches(code + [i], s, Step(i, t))
  {
    hide Step;
    var trace :| IsTrace(trace, code, s, t);
    assert IsTrace(trace + [Step(i, t)], code + [i], s, Step(i, t));
  }

  lemma {:induction false} ReachesIsRun(code: seq<Instr>, s: State, t: State)
    requires Reaches(code, s, t)
    ensures t == Run(code, s)
    decreases |code|
  {
    hide Step;
    if code != [] {
      var n := |code| - 1;
      var trace :| IsTrace(trace, code, s, t);
      assert IsTrace(trace[..n + 1], code[..n], s, trace[n]);
      ReachesIsRun(code[..n], s, trace[n]);
    }
  }
}
