/** The translators of two x87 instructions at once (TranslatorX87Fusion.cpp), register forms. */
module X87Fusions {
  import opened Words
  import opened Bits
  import opened X87Model
  import opened X87Deferred
  import opened Arm
  import opened Translation
  import opened X87Code
  import opened X87Compare
  import opened X87Translator
  import opened X87Ops
  import opened X87Fused
  import X87Numbers

  // ---------------------------------------------------------------- shared steps

  /** Pushes that are still pending stay so. */
  method FlushUnlessPending(t: Translator)
    requires t.Working({TMP}, {})
    modifies t`topDirty, t`c, t.r`code, t.r`cur
    ensures t.Working({TMP}, {}) && t.c == NetFlush(old(t.c))
  {
    hide Reaches, t.MachineAt, X87Deferred.FlushTop;
    if !(t.pushCount > 0 && t.topDirty) {
      t.FlushTop(TMP, {TMP}, {});
    }
  }

  /** The value that the FLD pushes, in dd. */
  method Materialize(t: Translator, src: Source, dd: Reg, ghost ds: set<Reg>)
    requires t.Working({TMP}, ds) && dd in ds && FprScratch(dd)
    modifies t.r`code, t.r`cur
    ensures t.Working({TMP}, ds) && t.r.cur.d[dd] == Value(t.c, src)
    ensures src.One? ==> X87Numbers.IsOne(t.r.cur.d[dd])
    ensures src.Zero? ==> X87Numbers.IsPlusZero(t.r.cur.d[dd])
    ensures forall k: Reg :: k != dd ==> t.r.cur.d[k] == old(t.r.cur.d[k])
  {
    hide t.Working, Read, X87Numbers.IsOne, X87Numbers.IsPlusZero;
    X87Numbers.OneIsOne();
    match src {
      case Register(i) => var key := t.LoadDepth(i, TMP, dd, {TMP}, ds);
      case Zero => Compute(t, MoviZero(dd), dd, {TMP}, ds);
      case One => Compute(t, FmovImm(dd, 0x70), dd, {TMP}, ds);
    }
  }

  // ---------------------------------------------------------------- net-zero pairs

  /** ST(0) := ST(0) op the value, the operands swapped for the reversed forms. */
  method OperateValue(t: Translator, src: Source, fn: Fn, reversed: bool)
    requires t.Working({TMP}, {})
    modifies t`c, t.r
    ensures t.Working({TMP}, {})
    ensures var c, fpu := old(t.c), t.start.fpu;
      t.c == Write(c, 0, Combine(fpu, fn, reversed, Read(c, 0), Value(c, src)))
  {
    hide t.Working, t.StBase, Write, Read, Value;
    var st0 := t.TakeFpr({TMP}, {});
    assert FprScratch(24);
    var fld := t.TakeFpr({TMP}, {} + {st0});
    Materialize(t, src, fld, {} + {st0} + {fld});
    var key := t.LoadDepth(0, TMP, st0, {TMP}, {} + {st0} + {fld});
    KnownFpu(t, {TMP}, {} + {st0} + {fld});
    Compute(t, if reversed then Fp2(fn, st0, fld, st0) else Fp2(fn, st0, st0, fld), st0, {TMP}, {} + {st0} + {fld});
    t.StoreKey(0, key, st0, {TMP}, {} + {st0} + {fld});
    t.GiveFpr(fld, {TMP}, {} + {st0});
    t.GiveFpr(st0, {TMP}, {});
  }

  /** FLD, FADDP and its like: no push and no pop. */
  method FuseFldArithp(t: Translator, src: Source, fn: Fn, reversed: bool)
    requires t.Idle()
    modifies t, t.r
    ensures t.Idle() && Untouched(t, old(t.runRemaining), old(t.start), old(t.statusRead)) && Opened(t)
    ensures t.c == X87Deferred.End(Fused(t.start.fpu, old(t.c), FldArithp(src, fn, reversed), t.runRemaining > 0), t.runRemaining <= 2)
  {
    hide t.Working, t.Idle, X87Deferred.End, Write, Read, Combine, Value, NetFlush;
    Start(t);
    FlushUnlessPending(t);
    OperateValue(t, src, fn, reversed);
    t.End(TMP, 2);
  }

  /** FLD, FSTP ST(1): ST(0) is overwritten. */
  method FuseFldFstp(t: Translator, src: Source)
    requires t.Idle()
    modifies t, t.r
    ensures t.Idle() && Untouched(t, old(t.runRemaining), old(t.start), old(t.statusRead)) && Opened(t)
    ensures t.c == X87Deferred.End(Fused(t.start.fpu, old(t.c), FldFstp(src), t.runRemaining > 0), t.runRemaining <= 2)
  {
    hide t.Working, t.Idle, X87Deferred.End, Write, Value, NetFlush;
    Start(t);
    FlushUnlessPending(t);
    assert FprScratch(24);
    var dd := t.TakeFpr({TMP}, {});
    Materialize(t, src, dd, {} + {dd});
    t.StoreDepth(0, TMP, dd, {TMP}, {} + {dd});
    t.GiveFpr(dd, {TMP}, {});
    t.End(TMP, 2);
  }

  /** Is the register that the FLD reads within the permutation? */
  predicate InBounds(c: Cached, f: Fusion) {
    f.FstpFld? && f.src == Register(7) ==> !c.plan.permDirty
  }

  /** FLD ST(i) after a pop that was not made: ST(i + 1). */
  method MaterializeDeeper(t: Translator, src: Source, dd: Reg, ghost ds: set<Reg>)
    requires t.Working({TMP}, ds) && dd in ds && FprScratch(dd) && (src == Register(7) ==> !t.c.plan.permDirty)
    modifies t.r`code, t.r`cur
    ensures t.Working({TMP}, ds) && t.r.cur.d[dd] == Value(t.c, OneDeeper(src))
  {
    hide Reaches, t.MachineAt, Phys;
    if src.Register? {
      var key := t.LoadAt(if t.permDirty then t.perm[src.i + 1] else src.i + 1, TMP, dd, {TMP}, ds);
    } else {
      hide t.Working;
      Materialize(t, src, dd, ds);
    }
  }

  /** ST(0) to ST(dst), nothing if that is ST(0). */
  method StoreFirst(t: Translator, dst: Depth, ghost fld: Reg)
    requires t.Working({TMP}, {} + {fld}) && fld == 24
    modifies t`c, t.r
    ensures t.Working({TMP}, {} + {fld})
    ensures var c := old(t.c);
      t.c == if dst == 0 then c else Write(c, dst, Read(c, 0))
  {
    hide t.Working, Write, Read;
    if dst != 0 {
      assert FprScratch(25);
      var st0 := t.TakeFpr({TMP}, {} + {fld});
      var key := t.LoadDepth(0, TMP, st0, {TMP}, {} + {fld} + {st0});
      t.StoreDepth(dst, TMP, st0, {TMP}, {} + {fld} + {st0});
      t.GiveFpr(st0, {TMP}, {} + {fld});
    }
  }

  lemma DirtyKept(c: Cached, dst: Depth)
    ensures var n := NetFlush(c);
      n.plan.permDirty == c.plan.permDirty && Write(n, dst, Read(n, 0)).plan == n.plan
  {
  }

  /** FSTP, FLD: no pop and no push; FSTP ST(0) only discards. */
  method FuseFstpFld(t: Translator, dst: Depth, src: Source)
    requires t.Idle() && InBounds(t.c, FstpFld(dst, src))
    modifies t, t.r
    ensures t.Idle() && Untouched(t, old(t.runRemaining), old(t.start), old(t.statusRead)) && Opened(t)
    ensures t.c == X87Deferred.End(Fused(t.start.fpu, old(t.c), FstpFld(dst, src), t.runRemaining > 0), t.runRemaining <= 2)
  {
    hide t.Working, t.Idle, X87Deferred.End, Write, Read, Value, OneDeeper, X87Deferred.FlushTop;
    DirtyKept(t.c, dst);
    Start(t);
    FlushUnlessPending(t);
    assert FprScratch(24);
    var fld := t.TakeFpr({TMP}, {});
    StoreFirst(t, dst, fld);
    MaterializeDeeper(t, src, fld, {} + {fld});
    t.StoreDepth(0, TMP, fld, {TMP}, {} + {fld});
    t.GiveFpr(fld, {TMP}, {});
    t.End(TMP, 2);
  }

  // ---------------------------------------------------------------- exchange pairs

  /** The counter is lent one tick while the second instruction is translated. */
  method Lend(t: Translator, n: int)
    requires t.Idle() && (t.gprsValid ==> t.runRemaining + n > 0)
    modifies t`runRemaining
    ensures t.Idle() && t.runRemaining == old(t.runRemaining) + n
  {
    hide Reaches, Image, Outside, StatusInRax;
    t.runRemaining := t.runRemaining + n;
  }

  /** The run is over but its cache was not closed: X28 is still taken, X22 and X23 are not. */
  ghost predicate Stranded(t: Translator)
    reads t, t.r
  {
    && t.r.Valid() && t.offset < 0x100_0000 && t.Bookkeeping() && t.MachineAt(t.r.cur)
    && t.lent && t.gprsValid && t.runRemaining == 0
    && (forall reg: Reg :: reg in t.r.freeGpr <==> GprScratch(reg) && reg != 28)
    && (forall reg: Reg :: reg in t.r.freeFpr <==> FprScratch(reg))
  }

  /** Does FXCH have the last tick of a run whose cache is open? */
  predicate LendsOpen(t: Translator, f: Fusion)
    reads t`runRemaining, t`gprsValid
  {
    f.FxchArithp? && t.runRemaining == 1 && t.gprsValid
  }

  /** x87_begin outside a run, on registers that are in use already: TOP comes from memory. */
  method BeginLent(t: Translator)
    requires t.Idle() && t.runRemaining == 1 && t.gprsValid
    modifies t`runRemaining, t`lent, t`c, t.r`code, t.r`cur
    ensures t.Working({}, {}) && t.lent && t.runRemaining == 0 && t.c == Reread(old(t.c))
  {
    hide Reaches, Image, Outside, StatusInRax;
    ghost var s := t.r.cur;
    EmitBaseAndTop(t.r, t.offset, t.b, t.c.mem);
    ScratchOnly(t.start, s, t.r.cur, t.b, t.c.mem, {22, 23});
    t.runRemaining, t.lent, t.c := 0, true, Reread(t.c);
  }

  method PopLent(t: Translator)
    requires t.Working({TMP}, {}) && t.lent && t.c.top == t.c.mem.sw.top
    modifies t`topDirty, t`c, t.r
    ensures t.Working({TMP}, {}) && t.c == LentPop(old(t.c))
  {
    hide Reaches, t.MachineAt, X87Model.Pop;
    assert Temp(25);
    var tmp2 := t.Take({TMP}, {});
    EmitLentPop(t, tmp2);
    t.Give(tmp2, {TMP}, {});
  }

  method EmitLentPop(t: Translator, tmp2: Reg)
    requires t.Working({TMP} + {tmp2}, {}) && t.lent && t.c.top == t.c.mem.sw.top && tmp2 != TMP && Temp(tmp2)
    modifies t`topDirty, t`c, t.r`code, t.r`cur
    ensures t.Working({TMP} + {tmp2}, {}) && t.c == LentPop(old(t.c))
  {
    hide Reaches, Image, Outside, StatusInRax, Keeps, X87Model.Pop;
    EmitPop(t.r, 22, 23, TMP, tmp2, t.b, t.c.mem);
    t.KeptButTop(old(t.r.cur), {23, TMP, tmp2});
    t.c := LentPop(t.c);
    t.topDirty := false;
  }

  /** x87_end outside a run: everything pending is written, and two of the three registers are given back. */
  method EndLent(t: Translator)
    requires t.Working({TMP}, {}) && t.lent
    modifies t`topDirty, t`pushCount, t`popCount, t`perm, t`permDirty, t`c, t.r
    ensures Stranded(t) && t.c == X87Deferred.End(old(t.c), true)
  {
    hide Reaches, t.MachineAt, FlushPerm, FlushPops, FlushPushes, X87Deferred.FlushTop;
    t.FlushAll(TMP);
    t.r.FreeGpr(23);
    t.r.FreeGpr(22);
    t.r.FreeGpr(TMP);
  }

  lemma SameTop(c: Cached, v: Word)
    requires c.top == c.mem.sw.top
    ensures var w := Write(c, 1, v); w.top == w.mem.sw.top
  {
  }

  method FuseLent(t: Translator, fn: Fn, reversed: bool)
    requires t.Idle() && t.runRemaining == 1 && t.gprsValid
    modifies t, t.r
    ensures Stranded(t) && Untouched(t, 0, old(t.start), old(t.statusRead))
    ensures t.c == LentFused(t.start.fpu, old(t.c), fn, reversed)
  {
    hide t.Idle, t.Working, Stranded, X87Deferred.End, Write, Read, Combine, LentPop;
    BeginLent(t);
    TakeTmp(t);
    SameTop(t.c, Combine(t.start.fpu, fn, Turned(fn, reversed), Read(t.c, 1), Read(t.c, 0)));
    Operate(t, fn, Turned(fn, reversed), 1, 0);
    PopLent(t);
    EndLent(t);
  }

  /**
   FXCH ST(1), FADDP and its like: the exchange becomes the reversed operation.  The tick is given
   back unless that was the last one.
   */
  method FuseFxchArithp(t: Translator, fn: Fn, reversed: bool)
    requires t.Idle()
    modifies t, t.r
    ensures t.start == old(t.start) && t.statusRead == old(t.statusRead)
    ensures t.runRemaining == if old(t.runRemaining) == 1 then 0 else old(t.runRemaining)
    ensures !(old(t.runRemaining) == 1 && old(t.gprsValid)) ==> Opened(t)
    ensures if old(t.runRemaining) == 1 && old(t.gprsValid)
      then Stranded(t) && t.c == LentFused(t.start.fpu, old(t.c), fn, reversed)
      else t.Idle() && t.c == X87Deferred.End(
        Fused(t.start.fpu, old(t.c), FxchArithp(fn, reversed), old(t.runRemaining) > 1), old(t.runRemaining) <= 2)
  {
    hide t.Idle, Stranded, X87Deferred.End, Write, Read, Combine, Popped, LentFused;
    if t.runRemaining == 1 && t.gprsValid {
      FuseLent(t, fn, reversed);
      return;
    }
    var borrowed := t.runRemaining > 0;
    if borrowed {
      Lend(t, -1);
    }
    TranslateArithPop(t, fn, Turned(fn, reversed), 1);
    if borrowed && t.runRemaining > 0 {
      Lend(t, 1);
    }
  }

  /** FXCH ST(1), FSTP ST(1): only the pop is left. */
  method FuseFxchFstp(t: Translator)
    requires t.Idle()
    modifies t, t.r
    ensures t.Idle() && Untouched(t, old(t.runRemaining), old(t.start), old(t.statusRead)) && Opened(t)
    ensures t.c == X87Deferred.End(Fused(t.start.fpu, old(t.c), FxchFstp, t.runRemaining > 0), t.runRemaining <= 2)
  {
    hide t.Working, t.Idle, X87Deferred.End, X87Deferred.FlushTop, DeferPop, X87Model.Pop;
    Start(t);
    t.FlushTop(TMP, {TMP}, {});
    t.Pop(TMP, {TMP}, {});
    t.End(TMP, 2);
  }

  // ---------------------------------------------------------------- comparison and status word

  /** sw := the status word with the condition codes. */
  method EmitJoinCodes(r: TranslationResult, base: Reg, packed: Reg, sw: Reg, ghost b: Word, ghost m: X87, ghost o: Order)
    requires r.Valid() && XZR !in {base, sw} && sw != base && sw != packed
    requires Image(r.cur, b, m) && r.cur.x[base] == b && r.cur.x[packed] == PackedCc(o)
    modifies r`code, r`cur
    ensures r.Valid() && r.cur == SetX(old(r.cur), sw, EncodeSw(SetCc(m.sw, o)))
  {
    hide Step, Exec, Reaches, EncodeSw, EncodeTags, FieldValue, OrShifted, PackedCc, SetCc;
    JoinedCc(m.sw, o);
    OrrUnshifted(EncodeSw(NoCc(m.sw)), PackedCc(o), EncodeSw(SetCc(m.sw, o)));
    r.EmitLoad(S16, false, Scaled(1), base, sw);
    EmitClearCc(r, sw, m.sw);
    EmitOrr(r, packed, 0, sw, sw);
  }

  /** The status word with the condition codes goes to AX and to memory. */
  method EmitCodesToAx(r: TranslationResult, base: Reg, packed: Reg, sw: Reg, ghost b: Word, ghost m: X87, ghost o: Order)
    requires r.Valid() && XZR !in {base, sw} && 0 !in {base, sw, packed} && sw != base && sw != packed
    requires Image(r.cur, b, m) && r.cur.x[base] == b && r.cur.x[packed] == PackedCc(o)
    modifies r`code, r`cur
    ensures r.Valid()
    ensures Image(r.cur, b, m.(sw := SetCc(m.sw, o))) && Keeps(old(r.cur), r.cur, b, {0, sw}, {})
    ensures r.cur.x[0] == StatusInRax(old(r.cur).x[0], EncodeSw(SetCc(m.sw, o)))
  {
    hide Step, Exec, Reaches, EncodeSw, EncodeTags, FieldValue, PackedCc, Keeps, SetCc;
    InsertHalf(EncodeSw(SetCc(m.sw, o)), r.cur.x[0]);
    hide W, StatusInRax;
    EmitJoinCodes(r, base, packed, sw, b, m, o);
    r.EmitBitfield(false, Bfm, 0, 15, sw, 0);
    r.EmitStore(S16, false, Scaled(1), base, sw);
    StoredSw(old(r.cur), r.cur, b, m, SetCc(m.sw, o), {0, sw});
  }

  function ToAx(c: Cached): Cached {
    c.(ax := EncodeSw(c.mem.sw))
  }

  lemma CodesFrame(start: State, s: State, u: State, b: Word, sw: Reg)
    requires Outside(start, s, b) && Keeps(s, u, b, {0, sw}, {}) && Temp(sw)
    ensures Outside(start, u, b) && u.flags == s.flags && u.x[X18] == s.x[X18]
    ensures u.x[22] == s.x[22] && u.x[23] == s.x[23] && u.x[28] == s.x[28]
  {
  }

  method CodesToAx(t: Translator, sw: Reg, ghost o: Order)
    requires t.Working({TMP} + {sw}, {}) && t.r.cur.x[TMP] == PackedCc(o) && sw != TMP && Temp(sw)
    modifies t`c, t`statusRead, t.r`code, t.r`cur
    ensures t.Working({TMP} + {sw}, {}) && t.c == ToAx(WithCc(old(t.c), o)) && t.statusRead
  {
    hide Reaches, Image, Outside, StatusInRax, PackedCc, Keeps, EncodeSw;
    ghost var s := t.r.cur;
    EmitCodesToAx(t.r, 22, TMP, sw, t.b, t.c.mem, o);
    CodesFrame(t.start, s, t.r.cur, t.b, sw);
    RaxWritten(t.start.x[0], s.x[0], t.r.cur.x[0], t.statusRead, t.c.ax, EncodeSw(SetCc(t.c.mem.sw, o)));
    t.c, t.statusRead := ToAx(WithCc(t.c, o)), true;
  }

  /** ST(0) against ST(i); TOP is stored between the comparison and the status word. */
  method CompareAndRead(t: Translator, i: Depth)
    requires t.Working({TMP}, {})
    modifies t`c, t`topDirty, t`statusRead, t.r
    ensures t.Working({TMP}, {}) && t.c == ToAx(Compared(t.start.fpu, old(t.c), i)) && t.statusRead
  {
    hide t.Working, Read, WithCc, X87Deferred.FlushTop, EncodeSw, PackedCc;
    TakeTmp2(t);
    var a := t.TakeFpr({TMP} + {TMP2}, {});
    assert FprScratch(24);
    var b := t.TakeFpr({TMP} + {TMP2}, {} + {a});
    var key0 := t.LoadDepth(0, TMP, a, {TMP} + {TMP2}, {} + {a} + {b});
    var keyI := t.LoadDepth(i, TMP, b, {TMP} + {TMP2}, {} + {a} + {b});
    KnownFpu(t, {TMP} + {TMP2}, {} + {a} + {b});
    ghost var o := t.start.fpu.compare(Read(t.c, 0), Read(t.c, i));
    CompareToTmp(t, Fcmp(a, b), o, {} + {a} + {b});
    t.GiveFpr(b, {TMP}, {} + {a});
    t.GiveFpr(a, {TMP}, {});
    assert Temp(25);
    var sw := t.Take({TMP}, {});
    t.FlushTop(sw, {TMP} + {sw}, {});
    CodesToAx(t, sw, o);
    t.Give(sw, {TMP}, {});
  }

  lemma TopBits(h: nat, sw: StatusWord, top: Depth)
    ensures FieldValue(Bfm, 32, 21, 2, top, h * TWO16 + EncodeSw(sw)) == h * TWO16 + EncodeSw(sw.(top := top))
  {
    var ax := EncodeSw(sw);
    NewTop(sw, top);
    TopField(sw);
    InsertAt11(h * TWO16 + ax, top);
    hide FieldValue, EncodeSw;
    SameField(h, ax);
  }

  lemma SameField(h: nat, ax: nat)
    ensures ((h * TWO16 + ax) / 0x800) % 8 == (ax / 0x800) % 8
  {
    assert (h * TWO16 + ax) / 0x800 == 32 * h + ax / 0x800;
  }

  lemma NewTop(sw: StatusWord, top: Depth)
    ensures EncodeSw(sw.(top := top)) == EncodeSw(sw) - sw.top * 0x800 + top * 0x800
  {
  }

  lemma RaxHigh(rax: Word, ax: Half)
    ensures StatusInRax(rax, ax) == (W(rax) / TWO16) * TWO16 + ax
    ensures W(StatusInRax(rax, ax)) == StatusInRax(rax, ax) && StatusInRax(rax, ax) % TWO16 == ax
  {
    assert W(rax) % TWO16 == rax % TWO16;
    AxBits(rax, ax, StatusInRax(rax, ax));
  }

  lemma TopBitsOfRax(rax: Word, sw: StatusWord, top: Depth)
    ensures var x, y := StatusInRax(rax, EncodeSw(sw)), StatusInRax(rax, EncodeSw(sw.(top := top)));
      && W(x) == x && W(y) == y && y % TWO16 == EncodeSw(sw.(top := top)) && W(top) == top
      && FieldValue(Bfm, 32, 21, 2, top, x) == y
  {
    RaxHigh(rax, EncodeSw(sw));
    RaxHigh(rax, EncodeSw(sw.(top := top)));
    TopBits(W(rax) / TWO16, sw, top);
    hide FieldValue, EncodeSw, StatusInRax;
  }

  method EmitPatchTop(r: TranslationResult, top: Reg, ghost rax: Word, ghost sw: StatusWord, ghost t: Depth)
    requires r.Valid() && r.cur.x[top] == t && r.cur.x[0] == StatusInRax(rax, EncodeSw(sw))
    modifies r`code, r`cur
    ensures r.Valid() && r.cur == SetX(old(r.cur), 0, StatusInRax(rax, EncodeSw(sw.(top := t))))
  {
    hide Step, Exec, Reaches, FieldValue, EncodeSw;
    TopBitsOfRax(rax, sw, t);
    hide StatusInRax, W;
    r.EmitBitfield(false, Bfm, 21, 2, top, 0);
  }

  /** Bits 13 to 11 of AX := TOP after the pop. */
  method PatchTop(t: Translator, ghost sw: StatusWord)
    requires t.Working({TMP}, {}) && t.statusRead && t.c.ax == EncodeSw(sw)
    modifies t`c, t.r`code, t.r`cur
    ensures t.Working({TMP}, {}) && t.c == old(t.c).(ax := EncodeSw(sw.(top := t.c.top)))
  {
    hide Reaches, Image, Outside, StatusInRax, EncodeSw;
    ghost var s := t.r.cur;
    EmitPatchTop(t.r, 23, t.start.x[0], sw, t.c.top);
    AxWritten(t.start, s, t.r.cur, t.b, t.c.mem, TMP);
    RaxHigh(t.start.x[0], EncodeSw(sw.(top := t.c.top)));
    t.c := t.c.(ax := EncodeSw(sw.(top := t.c.top)));
  }

  lemma AxCommutes(c: Cached, v: Half, cached: bool)
    ensures Popped(c.(ax := v), cached) == Popped(c, cached).(ax := v)
    ensures PoppedTwice(c.(ax := v), cached) == PoppedTwice(c, cached).(ax := v)
  {
    hide SetTags, Permuted, Plan.AfterPop, Plan.AfterPop2;
  }

  /** A pop changes nothing in the status word but TOP. */
  lemma PopKeepsSw(c: Cached, cached: bool)
    ensures var p := Popped(c, cached); p.mem.sw.(top := p.top) == c.mem.sw.(top := p.top)
    ensures var p := PoppedTwice(c, cached); p.mem.sw.(top := p.top) == c.mem.sw.(top := p.top)
  {
    hide SetTags, Permuted, Plan.AfterPop, Plan.AfterPop2;
  }

  /** FCOM(P) or FCOMPP, FNSTSW AX. */
  method FuseFcomFstsw(t: Translator, f: Fusion)
    requires t.Idle() && (f.FcomFstsw? || f.FcomppFstsw?)
    modifies t, t.r
    ensures t.Idle() && Untouched(t, old(t.runRemaining), old(t.start), true) && Opened(t)
    ensures t.c == X87Deferred.End(Fused(t.start.fpu, old(t.c), f, t.runRemaining > 0), t.runRemaining <= 2)
  {
    hide t.Working, t.Idle, X87Deferred.End, Compared, EncodeSw, DeferPop, DeferPop2, X87Model.Pop;
    Start(t);
    var i := if f.FcomFstsw? then f.i else 1;
    CompareAndRead(t, i);
    ghost var d := Compared(t.start.fpu, old(t.c), i);
    AxCommutes(d, EncodeSw(d.mem.sw), t.runRemaining > 0);
    PopKeepsSw(d, t.runRemaining > 0);
    if f.FcomppFstsw? {
      t.PopTwo(TMP, {TMP}, {});
      PatchTop(t, d.mem.sw);
    } else if f.pop {
      t.Pop(TMP, {TMP}, {});
      PatchTop(t, d.mem.sw);
    }
    LagAtRead(t, f.FcomppFstsw? || f.pop);
    t.End(TMP, 2);
  }

  /** The lag of TOP at the read is bookkeeping of the proof only. */
  ghost method LagAtRead(t: Translator, popped: bool)
    requires t.Working({TMP}, {})
    modifies t`c
    ensures t.Working({TMP}, {}) && t.c == old(t.c).(plan := old(t.c).plan.(axLag := if popped then 0 else old(t.c).plan.lag))
  {
    hide Reaches, Image, Outside, StatusInRax;
    t.c := t.c.(plan := t.c.plan.(axLag := if popped then 0 else t.c.plan.lag));
  }

  // ---------------------------------------------------------------- the dispatcher

  /** Is the pair translated as inside a run? */
  predicate InRun(f: Fusion, run: int) {
    if f.FxchArithp? then run > 1 else run > 0
  }

  predicate ReadsAx(f: Fusion) {
    f.FcomFstsw? || f.FcomppFstsw?
  }

  /** try_peephole: the code of a fusion means what Fused says, and the last fusion of a run ends it. */
  method TranslateFusion(t: Translator, f: Fusion)
    requires t.Idle() && InBounds(t.c, f)
    modifies t, t.r
    ensures t.start == old(t.start) && t.statusRead == (old(t.statusRead) || ReadsAx(f))
    ensures t.runRemaining == if f.FxchArithp? && old(t.runRemaining) == 1 then 0 else old(t.runRemaining)
    ensures !old(LendsOpen(t, f)) ==> Opened(t)
    ensures if old(LendsOpen(t, f))
      then Stranded(t) && t.c == LentFused(t.start.fpu, old(t.c), f.fn, f.reversed)
      else t.Idle() && t.c == X87Deferred.End(
        Fused(t.start.fpu, old(t.c), f, InRun(f, old(t.runRemaining))), old(t.runRemaining) <= 2)
  {
    hide t.Idle, Stranded, X87Deferred.End, Fused, LentFused;
    match f {
      case FldArithp(src, fn, reversed) => FuseFldArithp(t, src, fn, reversed);
      case FldFstp(src) => FuseFldFstp(t, src);
      case FxchArithp(fn, reversed) => FuseFxchArithp(t, fn, reversed);
      case FxchFstp => FuseFxchFstp(t);
      case FstpFld(dst, src) => FuseFstpFld(t, dst, src);
      case _ => FuseFcomFstsw(t, f);
    }
  }
}
