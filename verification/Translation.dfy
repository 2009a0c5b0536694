/**
 TranslationResult: the instruction buffer and the scratch registers the translators share.
 The ghost state `cur` is what the machine looks like after running the code emitted so far from
 `init`; nothing is known about `init`, so what a method says about `cur` holds for every
 machine state.
 */
module Translation {
  import opened Words
  import opened X87Model
  import opened Arm

  /** The scratch pools; everything else belongs to the guest or to the runtime. */
  predicate GprScratch(r: Reg) { 22 <= r <= 29 }
  predicate FprScratch(r: Reg) { 24 <= r }

  const GPR_POOL: set<Reg> := set r: Reg | GprScratch(r)
  const FPR_POOL: set<Reg> := set r: Reg | FprScratch(r)

  class TranslationResult {
    var code: seq<Instr>
    var freeGpr: set<Reg>
    var freeFpr: set<Reg>
    ghost const init: State
    ghost var cur: State

    ghost predicate Traced()
      reads this
    {
      && (forall r :: r in freeGpr ==> GprScratch(r))
      && (forall r :: r in freeFpr ==> FprScratch(r))
      && Reaches(code, init, cur)
    }

    /** Between snippets no branch is pending. */
    ghost predicate Valid()
      reads this
    {
      Traced() && cur.skip == 0
    }

    constructor (ghost init: State)
      requires init.skip == 0
      ensures Valid() && code == [] && freeGpr == GPR_POOL && freeFpr == FPR_POOL
      ensures this.init == init && cur == init
    {
      code, freeGpr, freeFpr := [], GPR_POOL, FPR_POOL;
      this.init, this.cur := init, init;
      assert IsTrace([init], [], init, init);
    }

    method Emit(i: Instr)
      requires Traced()
      modifies this`code, this`cur
      ensures Traced() && code == old(code) + [i]
      ensures cur == Step(i, old(cur))
    {
      hide Step;
      ReachesSnoc(code, i, init, cur);
      code := code + [i];
      cur := Step(i, cur);
    }

    // -------------------------------------------------------------- the emitters of AssemblerHelpers

    method EmitAddImm(is64: bool, sub: bool, shl12: bool, imm: Imm12, rn: Reg, rd: Reg)
      requires Valid()
      modifies this`code, this`cur
      ensures Valid() && code == old(code) + [AddSubImm(is64, sub, false, shl12, imm, rn, rd)]
      ensures var s, k := old(cur), if shl12 then 0x1000 * imm else imm;
        cur == SetX(s, rd, Trunc(is64, if sub then s.x[rn] - k else s.x[rn] + k))
    {
      Emit(AddSubImm(is64, sub, false, shl12, imm, rn, rd));
    }

    method EmitAddSubShiftedReg(is64: bool, sub: bool, rm: Reg, amount: Imm6, rn: Reg, rd: Reg)
      requires Valid()
      modifies this`code, this`cur
      ensures Valid() && code == old(code) + [AddSubReg(is64, sub, rm, amount, rn, rd)]
      ensures var s := old(cur);
        var k := Shifted(is64, Lsl, s.x[rm], amount);
        cur == SetX(s, rd, Trunc(is64, if sub then s.x[rn] - k else s.x[rn] + k))
    {
      Emit(AddSubReg(is64, sub, rm, amount, rn, rd));
    }

    method EmitLogicalShiftedReg(is64: bool, logic: Logic, invert: bool, shift: Shift, rm: Reg, amount: Imm6, rn: Reg, rd: Reg)
      requires Valid()
      modifies this`code, this`cur
      ensures Valid() && code == old(code) + [LogicReg(is64, logic, invert, shift, rm, amount, rn, rd)]
      ensures var s := old(cur);
        cur == SetX(s, rd, Trunc(is64, LogicValue(logic, invert, Trunc(is64, s.x[rn]), Shifted(is64, shift, s.x[rm], amount))))
    {
      hide LogicValue, Shifted;
      Emit(LogicReg(is64, logic, invert, shift, rm, amount, rn, rd));
    }

    method EmitLogicalImm(is64: bool, logic: Logic, n: Bit, immr: Imm6, imms: Imm6, rn: Reg, rd: Reg)
      requires Valid() && DecodeBitMasks(Width(is64), n, immr, imms).Some?
      modifies this`code, this`cur
      ensures Valid() && code == old(code) + [LogicImm(is64, logic, n, immr, imms, rn, rd)]
      ensures var s, m := old(cur), DecodeBitMasks(Width(is64), n, immr, imms).value;
        cur == SetX(s, rd, Trunc(is64, LogicValue(logic, false, Trunc(is64, s.x[rn]), m)))
    {
      hide LogicValue, DecodeBitMasks;
      Emit(LogicImm(is64, logic, n, immr, imms, rn, rd));
    }

    method EmitBitfield(is64: bool, op: FieldOp, immr: Imm6, imms: Imm6, rn: Reg, rd: Reg)
      requires Valid() && immr < Width(is64) && imms < Width(is64)
      modifies this`code, this`cur
      ensures Valid() && code == old(code) + [Bitfield(is64, op, immr, imms, rn, rd)]
      ensures var s := old(cur);
        cur == SetX(s, rd, Trunc(is64, FieldValue(op, Width(is64), immr, imms, Trunc(is64, s.x[rn]), Trunc(is64, s.x[rd]))))
    {
      hide FieldValue;
      Emit(Bitfield(is64, op, immr, imms, rn, rd));
    }

    method EmitMovWide(is64: bool, mov: MovOp, hw: nat, imm16: Half, rd: Reg)
      requires Valid()
      modifies this`code, this`cur
      ensures Valid() && code == old(code) + [MovWide(is64, mov, hw, imm16, rd)]
      ensures var s := old(cur);
        cur == SetX(s, rd, Trunc(is64, MovValue(mov, is64, hw, imm16, s.x[rd])))
    {
      hide MovValue;
      Emit(MovWide(is64, mov, hw, imm16, rd));
    }

    method EmitMovReg(is64: bool, rd: Reg, rn: Reg)
      requires Valid()
      modifies this`code, this`cur
      ensures Valid() && code == old(code) + [LogicReg(is64, LogicOrr, false, Lsl, rn, 0, XZR, rd)]
      ensures cur == SetX(old(cur), rd, Trunc(is64, old(cur).x[rn]))
    {
      hide Step, Exec;
      EmitLogicalShiftedReg(is64, LogicOrr, false, Lsl, rn, 0, XZR, rd);
    }

    method EmitLslv(is64: bool, rm: Reg, rn: Reg, rd: Reg)
      requires Valid()
      modifies this`code, this`cur
      ensures Valid() && code == old(code) + [Lslv(is64, rm, rn, rd)]
      ensures cur == SetX(old(cur), rd, Shifted(is64, Lsl, old(cur).x[rn], old(cur).x[rm] % Width(is64)))
    {
      hide Shifted;
      Emit(Lslv(is64, rm, rn, rd));
    }

    method EmitLoad(size: Size, fp: bool, mode: Mode, rn: Reg, rt: Reg)
      requires Valid()
      modifies this`code, this`cur
      ensures Valid() && code == old(code) + [LoadStore(size, fp, true, mode, rn, rt)]
      ensures cur == Load(old(cur), size, fp, Address(old(cur), mode, size, rn), rt)
    {
      hide Address;
      Emit(LoadStore(size, fp, true, mode, rn, rt));
    }

    method EmitStore(size: Size, fp: bool, mode: Mode, rn: Reg, rt: Reg)
      requires Valid()
      modifies this`code, this`cur
      ensures Valid() && code == old(code) + [LoadStore(size, fp, false, mode, rn, rt)]
      ensures cur == Store(old(cur), size, fp, Address(old(cur), mode, size, rn), rt)
    {
      hide Address;
      Emit(LoadStore(size, fp, false, mode, rn, rt));
    }

    /** The floating-point, flag and condition instructions, whose effect needs no computation. */
    method EmitPlain(i: Instr)
      requires Valid()
      requires i.Fp2? || i.Fp1? || i.Fcmp? || i.FcmpZero? || i.Fcsel? || i.FmovToX? || i.FmovImm? || i.MoviZero?
        || i.Cset? || i.Mrs? || i.Msr? || i.BlTlsBase?
      modifies this`code, this`cur
      ensures Valid() && code == old(code) + [i]
      ensures cur == Exec(i, old(cur))
    {
      Emit(i);
    }

    // -------------------------------------------------------------- scratch registers

    /** The fixed slot `index` of the scratch pool; the caller must know that it is free. */
    method AllocGpr(index: nat) returns (r: Reg)
      requires Traced() && index < 8 && 22 + index in freeGpr
      modifies this`freeGpr
      ensures Traced() && r == 22 + index && freeGpr == old(freeGpr) - {r}
    {
      r := 22 + index;
      freeGpr := freeGpr - {r};
    }

    /** The lowest free scratch register. */
    method AllocFreeGpr() returns (r: Reg)
      requires Traced() && freeGpr != {}
      modifies this`freeGpr
      ensures Traced() && r in old(freeGpr) && freeGpr == old(freeGpr) - {r}
      ensures forall k :: k in old(freeGpr) ==> r <= k
    {
      r := 22;
      while r !in freeGpr
        invariant 22 <= r <= 29
        invariant forall k :: k in freeGpr ==> r <= k
        decreases 29 - r
      {
        assert r < 29 by {
          var k :| k in freeGpr;
          assert GprScratch(k);
        }
        r := r + 1;
      }
      freeGpr := freeGpr - {r};
    }

    /** Only scratch registers return to the pool; freeing a guest register does nothing. */
    method FreeGpr(r: Reg)
      requires Traced()
      modifies this`freeGpr
      ensures Traced()
      ensures freeGpr == if GprScratch(r) then old(freeGpr) + {r} else old(freeGpr)
    {
      if GprScratch(r) {
        freeGpr := freeGpr + {r};
      }
    }

    method AllocFreeFpr() returns (r: Reg)
      requires Traced() && freeFpr != {}
      modifies this`freeFpr
      ensures Traced() && r in old(freeFpr) && freeFpr == old(freeFpr) - {r}
      ensures forall k :: k in old(freeFpr) ==> r <= k
    {
      r := 24;
      while r !in freeFpr
        invariant 24 <= r <= 31
        invariant forall k :: k in freeFpr ==> r <= k
        decreases 31 - r
      {
        assert r < 31 by {
          var k :| k in freeFpr;
          assert FprScratch(k);
        }
        r := r + 1;
      }
      freeFpr := freeFpr - {r};
    }

    method FreeFpr(r: Reg)
      requires Traced()
      modifies this`freeFpr
      ensures Traced()
      ensures freeFpr == if FprScratch(r) then old(freeFpr) + {r} else old(freeFpr)
    {
      if FprScratch(r) {
        freeFpr := freeFpr + {r};
      }
    }
  }
}
