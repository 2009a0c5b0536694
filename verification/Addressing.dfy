/** Effective addresses of guest memory operands (compute_mem_operand_address and its callers). */
module Addressing {
  import opened Words
  import opened Bits
  import opened Arm
  import opened Translation
  import opened X87Code
  import opened LoadImmediate

  type Guest = g: nat | g < 16
  type Disp = d: int | -0x8000_0000_0000_0000 <= d < 0x8000_0000_0000_0000

  /** [base + (index << shift) + disp], base and index being optional. */
  datatype MemRef = MemRef(hasBase: bool, base: Guest, hasIndex: bool, index: Guest, shift: nat, disp: Disp)

  function Sum(x: GprFile, m: MemRef): int {
    (if m.hasBase then x[m.base] else 0) + (if m.hasIndex then Shl(x[m.index], m.shift) else 0) + m.disp
  }

  function EffectiveAddress(s: State, is64: bool, m: MemRef): Word {
    Trunc(is64, Sum(s.x, m))
  }

  /** [RBX + 8 * RSI - 16], with 64-bit and with 32-bit addresses. */
  lemma AddressOf(s: State)
    ensures var m := MemRef(true, 3, true, 6, 3, -16);
      var a := s.x[3] as int + 8 * s.x[6] as int - 16;
      EffectiveAddress(s, true, m) == a % 0x1_0000_0000_0000_0000 && EffectiveAddress(s, false, m) == a % 0x1_0000_0000
  {
    Powers();
    hide Pow2;
  }

  // ---------------------------------------------------------------- modular arithmetic

  lemma TruncAdd(is64: bool, a: int, b: int)
    ensures Trunc(is64, Trunc(is64, a) + b) == Trunc(is64, a + b)
    ensures Trunc(is64, a + Trunc(is64, b)) == Trunc(is64, a + b)
  {
    XAdd(a, b);
    WAdd(a, b);
    XAdd(b, a);
    WAdd(b, a);
    hide X, W;
  }

  lemma ModMul(v: nat, p: nat, m: nat)
    requires m > 0
    ensures ((v % m) * p) % m == (v * p) % m
  {
    var q, r := v / m, v % m;
    assert v * p == r * p + m * (q * p) by {
      assert v == q * m + r;
      assert (q * m + r) * p == (q * m) * p + r * p;
      assert (q * m) * p == m * (q * p);
    }
    AddMultiple(r * p, m, q * p);
  }

  lemma ShiftedIs(is64: bool, v: Word, n: nat)
    ensures Shifted(is64, Lsl, v, n) == Trunc(is64, Shl(v, n))
  {
    ModMul(v, Pow2(n), TWO64);
    ModMul(v, Pow2(n), TWO32);
    hide Pow2;
  }

  lemma TruncOfX(is64: bool, v: int)
    ensures Trunc(is64, X(v)) == Trunc(is64, v)
  {
    var q := v / TWO64;
    assert X(v) == v - q * TWO32 * TWO32;
    WSub(v, q * TWO32);
    hide W;
  }

  lemma WSub(v: int, k: int)
    ensures W(v - k * TWO32) == W(v)
  {
  }

  // ---------------------------------------------------------------- displacements

  datatype Imm = AddImm(shl12: bool, imm: Imm12) | SubImm(shl12: bool, imm: Imm12) | NoImm

  /** An unsigned 64-bit value as imm12 or imm12 << 12. */
  function Encode12(u: Word): Option<(bool, Imm12)> {
    if u < 0x1000 then Some((false, u))
    else if u % 0x1000 == 0 && u < 0x100_0000 then Some((true, u / 0x1000))
    else None
  }

  function EncodeDisp(disp: Disp): Imm {
    match Encode12(X(disp))
    case Some((shl12, imm)) => AddImm(shl12, imm)
    case None =>
      match Encode12(X(0 - disp as int))
      case Some((shl12, imm)) => SubImm(shl12, imm)
      case None => NoImm
  }

  function ImmValue(i: Imm): int
    requires !i.NoImm?
  {
    var k := if i.shl12 then 0x1000 * i.imm else i.imm;
    if i.AddImm? then k else -k
  }

  /** The immediate form is used exactly for |disp| < 2^12 and for multiples of 2^12 below 2^24, of either sign. */
  lemma EncodeDispIs(disp: Disp)
    ensures !EncodeDisp(disp).NoImm? <==> -0x1000 < disp < 0x1000 || (disp % 0x1000 == 0 && -0x100_0000 < disp < 0x100_0000)
    ensures !EncodeDisp(disp).NoImm? ==> ImmValue(EncodeDisp(disp)) == disp
  {
  }

  // ---------------------------------------------------------------- where the result goes

  /**
   From s to u with the free set going from f to g: memory, D registers and flags are untouched;
   of the X registers only the hint and one free scratch register t can have changed; and if the
   register returned comes from the pool, it was the lowest there and is the only one taken.
   */
  ghost predicate Settles(s: State, u: State, f: set<Reg>, g: set<Reg>, hint: Reg, out: Reg, t: Reg) {
    && u == s.(x := u.x) && KeepsX(s, u, {hint, t})
    && t in f && t != hint
    && (out == hint || out == t || out < 16)
    && out != XZR
    && g == (if out == t then f - {t} else f)
    && (out == t ==> forall k :: k in f ==> t <= k)
  }

  // ---------------------------------------------------------------- registers

  /** The register to compute in, and the one to return: the hint where it is given. */
  method TakeWork(r: TranslationResult, hint: Reg) returns (work: Reg, out: Reg)
    requires r.Traced() && r.freeGpr != {} && hint !in r.freeGpr
    modifies r`freeGpr
    ensures r.Traced() && out == (if hint == XZR then work else hint)
    ensures GprScratch(hint) ==> work == hint && r.freeGpr == old(r.freeGpr)
    ensures !GprScratch(hint) ==> work in old(r.freeGpr) && r.freeGpr == old(r.freeGpr) - {work}
    ensures !GprScratch(hint) ==> forall k :: k in old(r.freeGpr) ==> work <= k
  {
    hide Reaches;
    work := hint;
    if !GprScratch(hint) {
      work := r.AllocFreeGpr();
    }
    out := if hint == XZR then work else hint;
  }

  method ReleaseWork(r: TranslationResult, work: Reg, out: Reg, ghost f: set<Reg>, ghost hint: Reg) returns (ghost t: Reg)
    requires r.Traced() && f != {} && hint !in f && out == (if hint == XZR then work else hint)
    requires (forall k :: k in f ==> GprScratch(k))
    requires if GprScratch(hint) then work == hint && r.freeGpr == f else work in f && r.freeGpr == f - {work}
    requires !GprScratch(hint) ==> forall k :: k in f ==> work <= k
    modifies r`freeGpr
    ensures r.Traced() && t in f && t != hint && out != XZR && (out == hint || out == t) && work in {hint, t}
    ensures r.freeGpr == (if out == t then f - {t} else f)
    ensures out == t ==> forall k :: k in f ==> t <= k
  {
    hide Reaches;
    if GprScratch(hint) {
      t :| t in f;
    } else {
      t := work;
    }
    if work != out {
      r.FreeGpr(work);
    }
  }

  // ---------------------------------------------------------------- the cases of compute_mem_operand_address

  /** rd := rn + disp by one ADD or SUB */
  method EmitAddDisp(r: TranslationResult, is64: bool, disp: Disp, rn: Reg, rd: Reg)
    requires r.Valid() && !EncodeDisp(disp).NoImm?
    modifies r`code, r`cur
    ensures r.Valid() && r.cur == SetX(old(r.cur), rd, Trunc(is64, old(r.cur).x[rn] + disp))
  {
    EncodeDispIs(disp);
    hide Step, Exec, Reaches, EncodeDisp, Trunc;
    var i := EncodeDisp(disp);
    r.EmitAddImm(is64, i.SubImm?, i.shl12, i.imm, rn, rd);
  }

  /** rd := rn + (rm << shift) */
  method EmitAddIndex(r: TranslationResult, is64: bool, rm: Reg, shift: Imm6, rn: Reg, rd: Reg)
    requires r.Valid()
    modifies r`code, r`cur
    ensures r.Valid() && r.cur == SetX(old(r.cur), rd, Trunc(is64, old(r.cur).x[rn] + Shl(old(r.cur).x[rm], shift)))
  {
    hide Step, Exec, Reaches, Shifted, Trunc, Shl;
    ShiftedIs(is64, r.cur.x[rm], shift);
    TruncAdd(is64, r.cur.x[rn], Shl(r.cur.x[rm], shift));
    r.EmitAddSubShiftedReg(is64, false, rm, shift, rn, rd);
  }

  method EmitAddReg(r: TranslationResult, is64: bool, rd: Reg, rn: Reg, rm: Reg)
    requires r.Valid()
    modifies r`code, r`cur
    ensures r.Valid() && r.cur == SetX(old(r.cur), rd, Trunc(is64, old(r.cur).x[rn] as int + old(r.cur).x[rm]))
  {
    hide Step, Exec, Reaches, Trunc, Shl;
    ShlNone(r.cur.x[rm]);
    EmitAddIndex(r, is64, rm, 0, rn, rd);
  }

  lemma ShlNone(v: nat)
    ensures Shl(v, 0) == v
  {
  }

  lemma Sum3(is64: bool, a: int, b: int, c: int)
    ensures Trunc(is64, Trunc(is64, a + c) + b) == Trunc(is64, a + b + c)
    ensures Trunc(is64, a + Trunc(is64, Trunc(is64, c) + b)) == Trunc(is64, a + b + c)
  {
    TruncAdd(is64, a + c, b);
    TruncAdd(is64, c, b);
    TruncAdd(is64, a, c + b);
    hide Trunc;
    assert a + c + b == a + b + c && a + (c + b) == a + b + c;
  }

  /** base + (index << shift) + disp, disp != 0 */
  method EmitBaseIndexDisp(r: TranslationResult, is64: bool, m: MemRef, hint: Reg) returns (out: Reg, ghost t: Reg)
    requires r.Valid() && r.freeGpr != {} && hint !in r.freeGpr
    requires m.hasBase && m.hasIndex && m.shift < 64 && m.disp != 0
    modifies r`code, r`cur, r`freeGpr
    ensures r.Valid() && r.cur.x[out] == EffectiveAddress(old(r.cur), is64, m)
    ensures Settles(old(r.cur), r.cur, old(r.freeGpr), r.freeGpr, hint, out, t)
  {
    hide Step, Exec, Reaches, Trunc, Shl, EncodeDisp;
    ghost var s := r.cur;
    var work: Reg;
    work, out := TakeWork(r, hint);
    Sum3(is64, s.x[m.base], Shl(s.x[m.index], m.shift), m.disp);
    if !EncodeDisp(m.disp).NoImm? {
      EmitAddDisp(r, is64, m.disp, m.base, work);
      EmitAddIndex(r, is64, m.index, m.shift, work, out);
    } else {
      TruncOfX(is64, m.disp);
      EmitLoadImmediateNoXzr(r, is64, X(m.disp), work);
      EmitAddIndex(r, is64, m.index, m.shift, work, work);
      EmitAddReg(r, is64, out, m.base, work);
    }
    t := ReleaseWork(r, work, out, old(r.freeGpr), hint);
  }

  /** hint, or a fresh scratch register: one register only. */
  method TakeOut(r: TranslationResult, hint: Reg) returns (out: Reg, ghost t: Reg)
    requires r.Traced() && r.freeGpr != {} && hint !in r.freeGpr
    modifies r`freeGpr
    ensures r.Traced() && out != XZR && t in old(r.freeGpr) && t != hint && out == (if hint == XZR then t else hint)
    ensures r.freeGpr == if out == t then old(r.freeGpr) - {t} else old(r.freeGpr)
    ensures out == t ==> forall k :: k in old(r.freeGpr) ==> t <= k
  {
    hide Reaches;
    out := ResolveHint(r, hint);
    if hint == XZR {
      t := out;
    } else {
      t :| t in r.freeGpr;
    }
  }

  method EmitBaseIndex(r: TranslationResult, is64: bool, m: MemRef, hint: Reg) returns (out: Reg, ghost t: Reg)
    requires r.Valid() && r.freeGpr != {} && hint !in r.freeGpr
    requires m.hasBase && m.hasIndex && m.shift < 64 && m.disp == 0
    modifies r`code, r`cur, r`freeGpr
    ensures r.Valid() && r.cur.x[out] == EffectiveAddress(old(r.cur), is64, m)
    ensures Settles(old(r.cur), r.cur, old(r.freeGpr), r.freeGpr, hint, out, t)
  {
    hide Step, Exec, Reaches, Trunc, Shl;
    out, t := TakeOut(r, hint);
    EmitAddIndex(r, is64, m.index, m.shift, m.base, out);
  }

  method EmitBaseDisp(r: TranslationResult, is64: bool, m: MemRef, hint: Reg) returns (out: Reg, ghost t: Reg)
    requires r.Valid() && r.freeGpr != {} && hint !in r.freeGpr
    requires m.hasBase && !m.hasIndex && m.disp != 0
    modifies r`code, r`cur, r`freeGpr
    ensures r.Valid() && r.cur.x[out] == EffectiveAddress(old(r.cur), is64, m)
    ensures Settles(old(r.cur), r.cur, old(r.freeGpr), r.freeGpr, hint, out, t)
  {
    hide Step, Exec, Reaches, Trunc, EncodeDisp;
    if EncodeDisp(m.disp).NoImm? {
      TruncOfX(is64, m.disp);
      TruncAdd(is64, r.cur.x[m.base], m.disp);
      var work: Reg;
      work, out := TakeWork(r, hint);
      EmitLoadImmediateNoXzr(r, is64, X(m.disp), work);
      EmitAddReg(r, is64, out, m.base, work);
      t := ReleaseWork(r, work, out, old(r.freeGpr), hint);
    } else {
      out, t := TakeOut(r, hint);
      EmitAddDisp(r, is64, m.disp, m.base, out);
    }
  }

  /** A register as it is: at 64 bits no code at all, at 32 bits a zero-extending move. */
  method EmitRegister(r: TranslationResult, is64: bool, g: Guest, hint: Reg) returns (out: Reg, ghost t: Reg)
    requires r.Valid() && r.freeGpr != {} && hint !in r.freeGpr
    modifies r`code, r`cur, r`freeGpr
    ensures r.Valid() && r.cur.x[out] == Trunc(is64, old(r.cur).x[g])
    ensures Settles(old(r.cur), r.cur, old(r.freeGpr), r.freeGpr, hint, out, t)
  {
    hide Step, Exec, Reaches;
    if is64 {
      out := g;
      OtherThan(r, g);
      t :| t in r.freeGpr && t != out;
    } else {
      out, t := TakeOut(r, hint);
      r.EmitMovReg(false, out, g);
    }
  }

  lemma OtherThan(r: TranslationResult, g: Guest)
    requires r.Traced() && r.freeGpr != {}
    ensures exists t :: t in r.freeGpr && t != g
  {
    hide Reaches;
    var t :| t in r.freeGpr;
    assert GprScratch(t);
  }

  lemma LslByUbfm(is64: bool, v: Word, shift: nat)
    requires 0 < shift < Width(is64)
    ensures Trunc(is64, FieldValue(Ubfm, Width(is64), Width(is64) - shift, Width(is64) - shift - 1, Trunc(is64, v), 0))
      == Trunc(is64, Shl(v, shift))
  {
    hide Pow2;
    LargePowers();
    Pow2Add(Width(is64) - shift, shift);
    ShiftedOut(Trunc(is64, v), Pow2(Width(is64) - shift), Pow2(shift));
    ModMul(v, Pow2(shift), Full(is64));
    assert Trunc(is64, v) == v % Full(is64);
    assert FieldValue(Ubfm, Width(is64), Width(is64) - shift, Width(is64) - shift - 1, Trunc(is64, v), 0)
      == (Trunc(is64, v) % Pow2(Width(is64) - shift)) * Pow2(shift);
    hide FieldValue;
  }

  lemma ShiftedOut(v: nat, q: nat, p: nat)
    requires q > 0 && p > 0
    ensures q * p > 0 && (v * p) % (q * p) == (v % q) * p < q * p
  {
    var a, b := v / q, v % q;
    assert v * p == a * (q * p) + b * p by {
      assert v == a * q + b;
      assert (a * q + b) * p == (a * q) * p + b * p;
    }
    MulMono(b + 1, q, p);
    DivUnique(v * p, q * p, a);
  }

  method EmitIndexDisp(r: TranslationResult, is64: bool, m: MemRef, hint: Reg) returns (out: Reg, ghost t: Reg)
    requires r.Valid() && r.freeGpr != {} && hint !in r.freeGpr
    requires !m.hasBase && m.hasIndex && m.shift < 64 && m.disp != 0
    modifies r`code, r`cur, r`freeGpr
    ensures r.Valid() && r.cur.x[out] == EffectiveAddress(old(r.cur), is64, m)
    ensures Settles(old(r.cur), r.cur, old(r.freeGpr), r.freeGpr, hint, out, t)
  {
    hide Step, Exec, Reaches, Trunc, Shl;
    var work: Reg;
    work, out := TakeWork(r, hint);
    TruncOfX(is64, m.disp);
    TruncAdd(is64, m.disp, Shl(r.cur.x[m.index], m.shift));
    EmitLoadImmediateNoXzr(r, is64, X(m.disp), work);
    EmitAddIndex(r, is64, m.index, m.shift, work, out);
    t := ReleaseWork(r, work, out, old(r.freeGpr), hint);
  }

  method EmitIndex(r: TranslationResult, is64: bool, m: MemRef, hint: Reg) returns (out: Reg, ghost t: Reg)
    requires r.Valid() && r.freeGpr != {} && hint !in r.freeGpr
    requires !m.hasBase && m.hasIndex && m.shift < Width(is64) && m.disp == 0
    modifies r`code, r`cur, r`freeGpr
    ensures r.Valid() && r.cur.x[out] == EffectiveAddress(old(r.cur), is64, m)
    ensures Settles(old(r.cur), r.cur, old(r.freeGpr), r.freeGpr, hint, out, t)
  {
    hide Step, Exec, Reaches, FieldValue, Trunc, Shl;
    if m.shift != 0 {
      var w := Width(is64);
      out, t := TakeOut(r, hint);
      LslByUbfm(is64, r.cur.x[m.index], m.shift);
      UbfmIgnoresTarget(w, w - m.shift, w - m.shift - 1, Trunc(is64, r.cur.x[m.index]), Trunc(is64, r.cur.x[out]));
      r.EmitBitfield(is64, Ubfm, w - m.shift, w - m.shift - 1, m.index, out);
    } else {
      ShlNone(r.cur.x[m.index]);
      out, t := EmitRegister(r, is64, m.index, hint);
    }
  }

  method EmitAbsolute(r: TranslationResult, is64: bool, m: MemRef, hint: Reg) returns (out: Reg, ghost t: Reg)
    requires r.Valid() && r.freeGpr != {} && hint !in r.freeGpr
    requires !m.hasBase && !m.hasIndex
    modifies r`code, r`cur, r`freeGpr
    ensures r.Valid() && r.cur.x[out] == EffectiveAddress(old(r.cur), is64, m)
    ensures Settles(old(r.cur), r.cur, old(r.freeGpr), r.freeGpr, hint, out, t)
  {
    hide Step, Exec, Reaches, LoadLength;
    TruncOfX(is64, m.disp);
    if m.disp != 0 {
      assert X(m.disp) != 0;
      hide Trunc, X;
      out := EmitLoadImmediate(r, is64, X(m.disp), hint);
      if hint == XZR {
        t := out;
      } else {
        t :| t in r.freeGpr;
      }
    } else {
      out, t := TakeOut(r, hint);
      EmitZero(r, false, out);
    }
  }

  // ---------------------------------------------------------------- compute_mem_operand_address

  /**
   The register returned holds base + (index << shift) + disp, modulo 2^64, or modulo 2^32 and
   zero-extended.
   */
  method ComputeMemOperandAddress(r: TranslationResult, is64: bool, m: MemRef, hint: Reg) returns (out: Reg, ghost t: Reg)
    requires r.Valid() && r.freeGpr != {} && hint !in r.freeGpr && m.shift < Width(is64)
    modifies r`code, r`cur, r`freeGpr
    ensures r.Valid() && r.cur.x[out] == EffectiveAddress(old(r.cur), is64, m)
    ensures Settles(old(r.cur), r.cur, old(r.freeGpr), r.freeGpr, hint, out, t)
  {
    hide Reaches, Settles, EffectiveAddress;
    if m.hasBase && m.hasIndex {
      if m.disp != 0 {
        out, t := EmitBaseIndexDisp(r, is64, m, hint);
      } else {
        out, t := EmitBaseIndex(r, is64, m, hint);
      }
    } else if m.hasBase {
      if m.disp != 0 {
        out, t := EmitBaseDisp(r, is64, m, hint);
      } else {
        BaseOnly(r.cur, is64, m);
        out, t := EmitRegister(r, is64, m.base, hint);
      }
    } else if m.hasIndex {
      if m.disp != 0 {
        out, t := EmitIndexDisp(r, is64, m, hint);
      } else {
        out, t := EmitIndex(r, is64, m, hint);
      }
    } else {
      out, t := EmitAbsolute(r, is64, m, hint);
    }
  }

  lemma BaseOnly(s: State, is64: bool, m: MemRef)
    requires m.hasBase && !m.hasIndex && m.disp == 0
    ensures EffectiveAddress(s, is64, m) == Trunc(is64, s.x[m.base])
  {
  }
}
