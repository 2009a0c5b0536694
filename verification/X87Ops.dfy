/** The translators of the single x87 instructions, cached and uncached. */
module X87Ops {
  import opened Words
  import opened Bits
  import opened X87Model
  import opened X87Deferred
  import opened Arm
  import opened Translation
  import opened X87Code
  import opened X87Compare
  import opened OperandAccess
  import opened X87Translator
  import X87Numbers

  const TMP: Reg := 24
  const TMP2: Reg := 25

  // ---------------------------------------------------------------- what is computed

  function Pushed(c: Cached, cached: bool): Cached {
    if cached then DeferPush(c) else Through(c, X87Model.Push(c.mem))
  }

  function Popped(c: Cached, cached: bool): Cached {
    if cached then DeferPop(c) else Through(c, X87Model.Pop(c.mem))
  }

  function PoppedIf(c: Cached, pop: bool, cached: bool): Cached {
    if pop then Popped(c, cached) else c
  }

  /** The instruction outside a run: everything is written through. */
  function Plain(fpu: Fpu, c: Cached, op: Op): Cached {
    var a := Eager(fpu, Leave(c), op);
    Through(c, a.mem).(flags := a.flags, ax := a.ax)
  }

  /** Neither the run counter nor what the machine state is compared with. */
  ghost predicate Untouched(t: Translator, run: int, start: State, read: bool)
    reads t
  {
    t.runRemaining == run && t.start == start && t.statusRead == read
  }

  /** Translating anything but FNSTSW opens the cache inside a run. */
  predicate Opened(t: Translator)
    reads t`gprsValid, t`runRemaining
  {
    t.gprsValid <==> t.runRemaining > 0
  }

  // ---------------------------------------------------------------- shared steps

  method TakeTmp(t: Translator)
    requires t.Working({}, {})
    modifies t.r`freeGpr
    ensures t.Working({TMP}, {})
  {
    hide Reaches, t.MachineAt;
    var tmp := t.r.AllocGpr(2);
  }

  method TakeTmp2(t: Translator)
    requires t.Working({TMP}, {})
    modifies t.r`freeGpr
    ensures t.Working({TMP} + {TMP2}, {})
  {
    hide Reaches, t.MachineAt;
    var tmp2 := t.r.AllocGpr(3);
  }

  /** x87_begin and the first scratch register. */
  method Start(t: Translator)
    requires t.Idle()
    modifies t`gprsValid, t.r
    ensures t.Working({TMP}, {}) && t.c == old(t.c) && !t.lent && Opened(t)
  {
    hide t.Idle, t.Working;
    t.Begin();
    TakeTmp(t);
  }

  /** The D register written by a floating-point instruction, and its new value. */
  predicate Computes(i: Instr, dd: Reg) {
    (i.Fp2? || i.Fp1? || i.FmovImm? || i.MoviZero? || i.Fcsel?) && i.dd == dd
  }

  function FpValue(i: Instr, s: State): Word
    requires i.Fp2? || i.Fp1? || i.FmovImm? || i.MoviZero? || i.Fcsel?
  {
    match i
    case Fp2(fn, _, dn, dm) => s.fpu.binary(fn, s.d[dn], s.d[dm])
    case Fp1(u, _, dn) => s.fpu.unary(u, s.d[dn])
    case FmovImm(_, imm8) => VFPExpandImm(imm8)
    case Fcsel(cond, _, dn, dm) => if Holds(cond, s.flags) then s.d[dn] else s.d[dm]
    case MoviZero(_) => 0
  }

  lemma ComputedOnly(s: State, t: State, b: Word, m: X87, start: State, dd: Reg)
    requires FprScratch(dd) && Outside(start, s, b) && Image(s, b, m) && t == s.(d := t.d)
    requires forall k: Reg :: k != dd ==> t.d[k] == s.d[k]
    ensures Outside(start, t, b) && Image(t, b, m)
  {
    hide EncodeSw, EncodeTags;
  }

  method Compute(t: Translator, i: Instr, dd: Reg, ghost xs: set<Reg>, ghost ds: set<Reg>)
    requires t.Working(xs, ds) && FprScratch(dd) && Computes(i, dd)
    modifies t.r`code, t.r`cur
    ensures t.Working(xs, ds) && t.r.cur.d[dd] == FpValue(i, old(t.r.cur))
    ensures t.r.cur == old(t.r.cur).(d := t.r.cur.d)
    ensures forall k: Reg :: k != dd ==> t.r.cur.d[k] == old(t.r.cur).d[k]
  {
    hide Reaches, Image, Outside, StatusInRax, VFPExpandImm;
    t.r.EmitPlain(i);
    assert t.r.cur == SetD(old(t.r.cur), dd, FpValue(i, old(t.r.cur)));
    ComputedOnly(old(t.r.cur), t.r.cur, t.b, t.c.mem, t.start, dd);
  }

  // ---------------------------------------------------------------- loads

  /** FLDZ and FLD1: a push, a constant, a store; ST(0) is positive zero or the number 1. */
  method TranslateConstant(t: Translator, one: bool)
    requires t.Idle()
    modifies t, t.r
    ensures t.Idle() && Untouched(t, old(t.runRemaining), old(t.start), old(t.statusRead)) && Opened(t)
    ensures t.c == X87Deferred.End(Write(Pushed(old(t.c), t.runRemaining > 0), 0, if one then POSITIVE_ONE else POSITIVE_ZERO), t.runRemaining <= 1)
    ensures if one then X87Numbers.IsOne(Read(t.c, 0)) else X87Numbers.IsPlusZero(Read(t.c, 0))
  {
    hide t.Working, t.Idle, X87Deferred.End, Write, Read, DeferPush, X87Model.Push, X87Numbers.IsOne, X87Numbers.IsPlusZero;
    X87Numbers.LeavesNumbers(Pushed(t.c, t.runRemaining > 0), t.runRemaining <= 1);
    Start(t);
    TakeTmp2(t);
    var dd := t.TakeFpr({TMP} + {TMP2}, {});
    t.Push(TMP, TMP2, {TMP} + {TMP2}, {} + {dd});
    StoreConstant(t, one, dd);
    t.GiveFpr(dd, {TMP} + {TMP2}, {});
    t.Give(TMP2, {TMP}, {});
    t.End(TMP, 1);
  }

  method StoreConstant(t: Translator, one: bool, dd: Reg)
    requires t.Working({TMP} + {TMP2}, {} + {dd}) && FprScratch(dd)
    modifies t`c, t.r`code, t.r`cur
    ensures t.Working({TMP} + {TMP2}, {} + {dd}) && t.c == Write(old(t.c), 0, if one then POSITIVE_ONE else POSITIVE_ZERO)
  {
    hide t.Working, Write;
    Compute(t, if one then FmovImm(dd, 0x70) else MoviZero(dd), dd, {TMP} + {TMP2}, {} + {dd});
    t.StoreDepth(0, TMP, dd, {TMP} + {TMP2}, {} + {dd});
  }

  /** FLD ST(i): the value is read before the push moves TOP. */
  method TranslateFld(t: Translator, i: Depth)
    requires t.Idle()
    modifies t, t.r
    ensures t.Idle() && Untouched(t, old(t.runRemaining), old(t.start), old(t.statusRead)) && Opened(t)
    ensures t.c == X87Deferred.End(Write(Pushed(old(t.c), t.runRemaining > 0), 0, Read(old(t.c), i)), t.runRemaining <= 1)
  {
    hide t.Working, t.Idle, X87Deferred.End, Write, Read, DeferPush, X87Model.Push;
    Start(t);
    TakeTmp2(t);
    var dd := t.TakeFpr({TMP} + {TMP2}, {});
    var key := t.LoadDepth(i, TMP, dd, {TMP} + {TMP2}, {} + {dd});
    t.Push(TMP, TMP2, {TMP} + {TMP2}, {} + {dd});
    t.Give(TMP2, {TMP}, {} + {dd});
    t.StoreDepth(0, TMP, dd, {TMP}, {} + {dd});
    t.GiveFpr(dd, {TMP}, {});
    t.End(TMP, 1);
  }

  // ---------------------------------------------------------------- arithmetic

  /** ST(dst) := ST(dst) op ST(src), the operands swapped for the reversed forms. */
  method Operate(t: Translator, fn: Fn, reversed: bool, dst: Depth, src: Depth)
    requires t.Working({TMP}, {})
    modifies t`c, t.r
    ensures t.Working({TMP}, {})
    ensures var c, fpu := old(t.c), t.start.fpu;
      t.c == Write(c, dst, Combine(fpu, fn, reversed, Read(c, dst), Read(c, src)))
  {
    hide t.Working, t.StBase, Write, Read;
    var ddst := t.TakeFpr({TMP}, {});
    assert FprScratch(24);
    var dsrc := t.TakeFpr({TMP}, {} + {ddst});
    var discarded := t.LoadDepth(src, TMP, dsrc, {TMP}, {} + {ddst} + {dsrc});
    var key := t.LoadDepth(dst, TMP, ddst, {TMP}, {} + {ddst} + {dsrc});
    KnownFpu(t, {TMP}, {} + {ddst} + {dsrc});
    Compute(t, if reversed then Fp2(fn, ddst, dsrc, ddst) else Fp2(fn, ddst, ddst, dsrc), ddst, {TMP}, {} + {ddst} + {dsrc});
    t.StoreKey(dst, key, ddst, {TMP}, {} + {ddst} + {dsrc});
    t.GiveFpr(dsrc, {TMP}, {} + {ddst});
    t.GiveFpr(ddst, {TMP}, {});
  }

  lemma KnownFpu(t: Translator, xs: set<Reg>, ds: set<Reg>)
    requires t.Working(xs, ds)
    ensures t.r.cur.fpu == t.start.fpu && t.r.cur.flags == t.c.flags
  {
    hide Reaches, Image;
  }

  /** FADD, FMUL, FSUB(R), FDIV(R) ST(dst), ST(src). */
  method TranslateArith(t: Translator, fn: Fn, reversed: bool, dst: Depth, src: Depth)
    requires t.Idle()
    modifies t, t.r
    ensures t.Idle() && Untouched(t, old(t.runRemaining), old(t.start), old(t.statusRead)) && Opened(t)
    ensures var c := old(t.c);
      t.c == X87Deferred.End(Write(c, dst, Combine(t.start.fpu, fn, reversed, Read(c, dst), Read(c, src))), t.runRemaining <= 1)
  {
    hide t.Working, t.Idle, X87Deferred.End, Write, Read, Combine;
    Start(t);
    Operate(t, fn, reversed, dst, src);
    t.End(TMP, 1);
  }

  /** FADDP, FMULP, FSUB(R)P, FDIV(R)P: the result is stored before the pop moves TOP. */
  method TranslateArithPop(t: Translator, fn: Fn, reversed: bool, dst: Depth)
    requires t.Idle()
    modifies t, t.r
    ensures t.Idle() && Untouched(t, old(t.runRemaining), old(t.start), old(t.statusRead)) && Opened(t)
    ensures var c := old(t.c);
      t.c == X87Deferred.End(
        Popped(Write(c, dst, Combine(t.start.fpu, fn, reversed, Read(c, dst), Read(c, 0))), t.runRemaining > 0),
        t.runRemaining <= 1)
  {
    hide t.Working, t.Idle, X87Deferred.End, Write, Read, Combine, DeferPop, X87Model.Pop;
    Start(t);
    Operate(t, fn, reversed, dst, 0);
    t.Pop(TMP, {TMP}, {});
    t.End(TMP, 1);
  }

  /** FCHS, FABS, FSQRT. */
  method TranslateUnary(t: Translator, u: UnaryFn)
    requires t.Idle()
    modifies t, t.r
    ensures t.Idle() && Untouched(t, old(t.runRemaining), old(t.start), old(t.statusRead)) && Opened(t)
    ensures var c := old(t.c);
      t.c == X87Deferred.End(Write(c, 0, t.start.fpu.unary(u, Read(c, 0))), t.runRemaining <= 1)
  {
    hide t.Working, t.Idle, t.StBase, X87Deferred.End, Write, Read;
    Start(t);
    var dd := t.TakeFpr({TMP}, {});
    var key := t.LoadDepth(0, TMP, dd, {TMP}, {} + {dd});
    KnownFpu(t, {TMP}, {} + {dd});
    Compute(t, Fp1(u, dd, dd), dd, {TMP}, {} + {dd});
    t.StoreKey(0, key, dd, {TMP}, {} + {dd});
    t.GiveFpr(dd, {TMP}, {});
    t.End(TMP, 1);
  }

  // ---------------------------------------------------------------- stores

  lemma SelfStore(c: Cached)
    ensures Write(c, 0, Read(c, 0)) == c
  {
    hide Phys;
    var k := Phys(c.top, c.plan.Depth(0));
    assert c.mem.st[k := c.mem.st[k]] == c.mem.st;
  }

  /** FST ST(dst) and FSTP ST(dst); storing ST(0) to itself is skipped, the pop is not. */
  method TranslateFst(t: Translator, dst: Depth, pop: bool)
    requires t.Idle()
    modifies t, t.r
    ensures t.Idle() && Untouched(t, old(t.runRemaining), old(t.start), old(t.statusRead)) && Opened(t)
    ensures var c := old(t.c);
      t.c == X87Deferred.End(PoppedIf(Write(c, dst, Read(c, 0)), pop, t.runRemaining > 0), t.runRemaining <= 1)
  {
    hide t.Working, t.Idle, X87Deferred.End, Write, Read, DeferPop, X87Model.Pop;
    SelfStore(t.c);
    Start(t);
    assert FprScratch(24);
    var dd := t.TakeFpr({TMP}, {});
    if dst != 0 {
      var key := t.LoadDepth(0, TMP, dd, {TMP}, {} + {dd});
      t.StoreDepth(dst, TMP, dd, {TMP}, {} + {dd});
    }
    if pop {
      t.Pop(TMP, {TMP}, {} + {dd});
    }
    t.GiveFpr(dd, {TMP}, {});
    t.End(TMP, 1);
  }

  // ---------------------------------------------------------------- exchange

  /** Outside a run the registers are exchanged where they are, whatever is deferred. */
  function SwapAt(c: Cached, i: Depth): Cached {
    var st, p, q := c.mem.st, Phys(c.top, 0), Phys(c.top, i);
    c.(mem := c.mem.(st := st[q := st[p]][p := st[q]]))
  }

  function Exchanged(c: Cached, i: Depth, cached: bool): Cached {
    if i == 0 then c
    else if cached then c.(plan := c.plan.Swapped(i))
    else SwapAt(c, i)
  }

  /** FXCH: inside a run only the permutation changes. */
  method TranslateFxch(t: Translator, i: Depth)
    requires t.Idle()
    modifies t, t.r
    ensures t.Idle() && Untouched(t, old(t.runRemaining), old(t.start), old(t.statusRead)) && Opened(t)
    ensures t.c == X87Deferred.End(Exchanged(old(t.c), i, t.runRemaining > 0), t.runRemaining <= 1)
  {
    hide t.Working, t.Idle, X87Deferred.End, Write, Read;
    Start(t);
    if i == 0 {
    } else if t.runRemaining > 0 {
      Defer(t, i);
    } else {
      Exchange(t, i);
    }
    t.End(TMP, 1);
  }

  method Defer(t: Translator, i: Depth)
    requires t.Working({TMP}, {}) && t.runRemaining > 0
    modifies t`perm, t`permDirty, t`c
    ensures t.Working({TMP}, {}) && t.c == old(t.c).(plan := old(t.c).plan.Swapped(i))
  {
    hide Reaches, Image, Outside, StatusInRax;
    t.perm := t.perm[0 := t.perm[i]][i := t.perm[0]];
    t.permDirty := true;
    t.c := t.c.(plan := t.c.plan.Swapped(i));
  }

  method Exchange(t: Translator, i: Depth)
    requires t.Working({TMP}, {}) && t.runRemaining <= 0
    modifies t`c, t.r
    ensures t.Working({TMP}, {}) && t.c == SwapAt(old(t.c), i)
  {
    hide t.Working, t.StBase, Phys;
    TakeTmp2(t);
    var a := t.TakeFpr({TMP} + {TMP2}, {});
    assert FprScratch(24);
    var b := t.TakeFpr({TMP} + {TMP2}, {} + {a});
    var key0 := t.LoadAt(0, TMP, a, {TMP} + {TMP2}, {} + {a} + {b});
    var keyI := t.LoadAt(i, TMP2, b, {TMP} + {TMP2}, {} + {a} + {b});
    t.StoreAt(Phys(t.c.top, i), keyI, a, {TMP} + {TMP2}, {} + {a} + {b});
    t.StoreAt(Phys(t.c.top, 0), key0, b, {TMP} + {TMP2}, {} + {a} + {b});
    t.GiveFpr(b, {TMP} + {TMP2}, {} + {a});
    t.GiveFpr(a, {TMP} + {TMP2}, {});
    t.Give(TMP2, {TMP}, {});
  }

  // ---------------------------------------------------------------- comparisons

  /** The compare instruction `i` finds the order o. */
  ghost predicate Compares(i: Instr, s: State, o: Order) {
    || (i.Fcmp? && o == s.fpu.compare(s.d[i.dn], s.d[i.dm]))
    || (i.FcmpZero? && o == s.fpu.compare(s.d[i.dn], 0))
  }

  method EmitCompare(r: TranslationResult, i: Instr, ghost o: Order)
    requires r.Valid() && Compares(i, r.cur, o)
    modifies r`code, r`cur
    ensures r.Valid() && r.cur == old(r.cur).(flags := FcmpFlags(o))
  {
    hide Reaches, FcmpFlags;
    r.EmitPlain(i);
  }

  method EmitSaveFlags(r: TranslationResult, save: Reg)
    requires r.Valid() && save != XZR
    modifies r`code, r`cur
    ensures r.Valid() && r.cur == old(r.cur).(x := old(r.cur).x[save := PackFlags(old(r.cur).flags)])
  {
    hide Reaches, PackFlags;
    r.EmitPlain(Mrs(save));
  }

  method EmitSavedCompare(r: TranslationResult, i: Instr, result: Reg, save: Reg, cc: Reg, vs: Reg, ghost o: Order)
    requires r.Valid() && Distinct(result, save, cc, vs, XZR) && Compares(i, r.cur, o)
    modifies r`code, r`cur
    ensures r.Valid() && r.cur.x[result] == PackedCc(o)
    ensures r.cur == old(r.cur).(x := r.cur.x) && KeepsX(old(r.cur), r.cur, {result, save, cc, vs})
  {
    hide Reaches, Step, Exec, PackFlags, PackedCc, FcmpFlags;
    ghost var f := r.cur.flags;
    EmitSaveFlags(r, save);
    EmitCompare(r, i, o);
    EmitFcomCcPack(r, result, save, cc, vs, o, f);
  }

  /** Compares; the packed condition codes are in TMP, and the flags of the guest survive. */
  method CompareToTmp(t: Translator, i: Instr, ghost o: Order, ghost ds: set<Reg>)
    requires t.Working({TMP} + {TMP2}, ds) && Compares(i, t.r.cur, o)
    modifies t.r
    ensures t.Working({TMP}, ds) && t.r.cur.x[TMP] == PackedCc(o)
  {
    hide t.Working;
    assert Temp(26) && Temp(27);
    var cc := t.Take({TMP} + {TMP2}, ds);
    var vs := t.Take({TMP} + {TMP2} + {cc}, ds);
    PackUnder(t, i, o, cc, vs, ds);
    t.Give(vs, {TMP} + {TMP2} + {cc}, ds);
    t.Give(cc, {TMP} + {TMP2}, ds);
    t.Give(TMP2, {TMP}, ds);
  }

  /** Compares and writes the condition codes. */
  method CompareToStatus(t: Translator, i: Instr, ghost o: Order, ghost ds: set<Reg>)
    requires t.Working({TMP} + {TMP2}, ds) && Compares(i, t.r.cur, o)
    modifies t`c, t.r
    ensures t.Working({TMP}, ds) && t.c == WithCc(old(t.c), o)
  {
    hide t.Working;
    CompareToTmp(t, i, o, ds);
    assert Temp(25);
    var sw := t.Take({TMP}, ds);
    WriteCodes(t, sw, o, ds);
    t.Give(sw, {TMP}, ds);
  }

  method PackUnder(t: Translator, i: Instr, ghost o: Order, cc: Reg, vs: Reg, ghost ds: set<Reg>)
    requires t.Working({TMP} + {TMP2} + {cc} + {vs}, ds) && Compares(i, t.r.cur, o)
    requires Temp(cc) && Temp(vs) && Distinct(TMP, TMP2, cc, vs, XZR)
    modifies t.r`code, t.r`cur
    ensures t.Working({TMP} + {TMP2} + {cc} + {vs}, ds) && t.r.cur.x[TMP] == PackedCc(o)
  {
    hide Reaches, Image, Outside, StatusInRax, PackedCc, Compares;
    EmitSavedCompare(t.r, i, TMP, TMP2, cc, vs, o);
    ScratchOnly(t.start, old(t.r.cur), t.r.cur, t.b, t.c.mem, {TMP, TMP2, cc, vs});
  }

  method WriteCodes(t: Translator, sw: Reg, ghost o: Order, ghost ds: set<Reg>)
    requires t.Working({TMP} + {sw}, ds) && t.r.cur.x[TMP] == PackedCc(o) && sw != TMP && Temp(sw)
    modifies t`c, t.r`code, t.r`cur
    ensures t.Working({TMP} + {sw}, ds) && t.c == WithCc(old(t.c), o)
  {
    hide Reaches, Image, Outside, StatusInRax, PackedCc, Keeps;
    EmitFcomCcWriteSw(t.r, 22, TMP, sw, t.b, t.c.mem, o);
    t.KeptAll(old(t.r.cur), {sw}, {});
    t.c := WithCc(t.c, o);
  }

  /** ST(0) against ST(i): loads, comparison, condition codes. */
  method CompareDepths(t: Translator, i: Depth)
    requires t.Working({TMP}, {})
    modifies t`c, t.r
    ensures t.Working({TMP}, {})
    ensures var c := old(t.c);
      t.c == WithCc(c, t.start.fpu.compare(Read(c, 0), Read(c, i)))
  {
    hide t.Working, Read, WithCc;
    TakeTmp2(t);
    var a := t.TakeFpr({TMP} + {TMP2}, {});
    assert FprScratch(24);
    var b := t.TakeFpr({TMP} + {TMP2}, {} + {a});
    var key0 := t.LoadDepth(0, TMP, a, {TMP} + {TMP2}, {} + {a} + {b});
    var keyI := t.LoadDepth(i, TMP, b, {TMP} + {TMP2}, {} + {a} + {b});
    KnownFpu(t, {TMP} + {TMP2}, {} + {a} + {b});
    CompareToStatus(t, Fcmp(a, b), t.start.fpu.compare(Read(t.c, 0), Read(t.c, i)), {} + {a} + {b});
    t.GiveFpr(b, {TMP}, {} + {a});
    t.GiveFpr(a, {TMP}, {});
  }

  /** FCOM and FCOMP. */
  method TranslateFcom(t: Translator, i: Depth, pop: bool)
    requires t.Idle()
    modifies t, t.r
    ensures t.Idle() && Untouched(t, old(t.runRemaining), old(t.start), old(t.statusRead)) && Opened(t)
    ensures var c := old(t.c);
      t.c == X87Deferred.End(
        PoppedIf(WithCc(c, t.start.fpu.compare(Read(c, 0), Read(c, i))), pop, t.runRemaining > 0), t.runRemaining <= 1)
  {
    hide t.Working, t.Idle, X87Deferred.End, WithCc, Read, DeferPop, X87Model.Pop;
    Start(t);
    CompareDepths(t, i);
    if pop {
      t.Pop(TMP, {TMP}, {});
    }
    t.End(TMP, 1);
  }

  function PoppedTwice(c: Cached, cached: bool): Cached {
    if cached then DeferPop2(c) else Through(c, X87Model.Pop(X87Model.Pop(c.mem)))
  }

  method TranslateFcompp(t: Translator)
    requires t.Idle()
    modifies t, t.r
    ensures t.Idle() && Untouched(t, old(t.runRemaining), old(t.start), old(t.statusRead)) && Opened(t)
    ensures var c := old(t.c);
      t.c == X87Deferred.End(
        PoppedTwice(WithCc(c, t.start.fpu.compare(Read(c, 0), Read(c, 1))), t.runRemaining > 0), t.runRemaining <= 1)
  {
    hide t.Working, t.Idle, X87Deferred.End, WithCc, Read, DeferPop2, X87Model.Pop;
    Start(t);
    CompareDepths(t, 1);
    t.PopTwo(TMP, {TMP}, {});
    t.End(TMP, 1);
  }

  method TranslateFtst(t: Translator)
    requires t.Idle()
    modifies t, t.r
    ensures t.Idle() && Untouched(t, old(t.runRemaining), old(t.start), old(t.statusRead)) && Opened(t)
    ensures var f := X87Deferred.FlushTop(X87Deferred.FlushTags(old(t.c)));
      t.c == X87Deferred.End(WithCc(f, t.start.fpu.compare(Read(f, 0), POSITIVE_ZERO)), t.runRemaining <= 1)
  {
    hide t.Working, t.Idle, X87Deferred.End, X87Deferred.FlushTop, X87Deferred.FlushTags, WithCc, Read;
    Start(t);
    TakeTmp2(t);
    t.FlushTags(TMP, TMP2, {TMP} + {TMP2}, {});
    t.FlushTop(TMP, {TMP} + {TMP2}, {});
    var a := t.TakeFpr({TMP} + {TMP2}, {});
    var key := t.LoadDepth(0, TMP, a, {TMP} + {TMP2}, {} + {a});
    KnownFpu(t, {TMP} + {TMP2}, {} + {a});
    CompareToStatus(t, FcmpZero(a), t.start.fpu.compare(Read(t.c, 0), POSITIVE_ZERO), {} + {a});
    t.GiveFpr(a, {TMP}, {});
    t.End(TMP, 1);
  }

  lemma FlagsOnly(s: State, t: State, b: Word, m: X87, start: State, xs: set<Reg>)
    requires Outside(start, s, b) && Image(s, b, m) && t == s.(x := t.x, flags := t.flags) && KeepsX(s, t, xs)
    requires forall k :: k in xs ==> Temp(k)
    ensures Outside(start, t, b) && Image(t, b, m) && t.x[0] == s.x[0] && t.x[X18] == s.x[X18]
    ensures t.x[22] == s.x[22] && t.x[23] == s.x[23] && t.x[28] == s.x[28]
  {
    hide EncodeSw, EncodeTags;
  }

  /** FCOMI: the flags of the guest become those of the comparison. */
  method CompareToFlags(t: Translator, a: Reg, b: Reg, ghost o: Order, ghost ds: set<Reg>)
    requires t.Working({TMP}, ds) && Compares(Fcmp(a, b), t.r.cur, o)
    modifies t`c, t.r
    ensures t.Working({TMP}, ds) && t.c == old(t.c).(flags := FcomiFlags(o))
  {
    hide t.Working;
    assert Temp(25) && Temp(26) && Temp(27);
    var z := t.Take({TMP}, ds);
    var v := t.Take({TMP} + {z}, ds);
    var c := t.Take({TMP} + {z} + {v}, ds);
    FlagsUnder(t, a, b, z, v, c, o, ds);
    t.Give(c, {TMP} + {z} + {v}, ds);
    t.Give(v, {TMP} + {z}, ds);
    t.Give(z, {TMP}, ds);
  }

  method FlagsUnder(t: Translator, a: Reg, b: Reg, z: Reg, v: Reg, c: Reg, ghost o: Order, ghost ds: set<Reg>)
    requires t.Working({TMP} + {z} + {v} + {c}, ds) && Compares(Fcmp(a, b), t.r.cur, o)
    requires Temp(z) && Temp(v) && Temp(c) && z != v && z != c && v != c
    modifies t`c, t.r`code, t.r`cur
    ensures t.Working({TMP} + {z} + {v} + {c}, ds) && t.c == old(t.c).(flags := FcomiFlags(o))
  {
    hide Reaches, Image, Outside, StatusInRax, Compares, FcmpFlags, FcomiFlags;
    EmitCompare(t.r, Fcmp(a, b), o);
    EmitFcomiFlags(t.r, z, v, c, o);
    FlagsOnly(old(t.r.cur), t.r.cur, t.b, t.c.mem, t.start, {z, v, c});
    t.c := t.c.(flags := FcomiFlags(o));
  }

  /** FCOMI and FCOMIP. */
  method TranslateFcomi(t: Translator, i: Depth, pop: bool)
    requires t.Idle()
    modifies t, t.r
    ensures t.Idle() && Untouched(t, old(t.runRemaining), old(t.start), old(t.statusRead)) && Opened(t)
    ensures var c := old(t.c);
      t.c == X87Deferred.End(
        PoppedIf(c.(flags := FcomiFlags(t.start.fpu.compare(Read(c, 0), Read(c, i)))), pop, t.runRemaining > 0),
        t.runRemaining <= 1)
  {
    hide t.Working, t.Idle, X87Deferred.End, FcomiFlags, Read, DeferPop, X87Model.Pop;
    Start(t);
    var a := t.TakeFpr({TMP}, {});
    assert FprScratch(24);
    var b := t.TakeFpr({TMP}, {} + {a});
    var key0 := t.LoadDepth(0, TMP, a, {TMP}, {} + {a} + {b});
    var keyI := t.LoadDepth(i, TMP, b, {TMP}, {} + {a} + {b});
    KnownFpu(t, {TMP}, {} + {a} + {b});
    CompareToFlags(t, a, b, t.start.fpu.compare(Read(t.c, 0), Read(t.c, i)), {} + {a} + {b});
    t.GiveFpr(b, {TMP}, {} + {a});
    t.GiveFpr(a, {TMP}, {});
    if pop {
      t.Pop(TMP, {TMP}, {});
    }
    t.End(TMP, 1);
  }

  // ---------------------------------------------------------------- conditional move

  function ArmCond(cond: Cond): nat {
    match cond
    case Below => 3
    case BelowEqual => 9
    case Eq => 0
    case NotBelow => 2
    case Above => 8
    case NotEq => 1
    case Unord => 6
    case NotUnord => 7
  }

  lemma ArmCondHolds(cond: Cond, f: Flags)
    ensures Holds(ArmCond(cond), f) == CondHolds(cond, f)
  {
  }

  function Moved(c: Cached, cond: Cond, i: Depth): Cached {
    if CondHolds(cond, c.flags) then Write(c, 0, Read(c, i)) else c
  }

  /** FCMOVcc ST(0), ST(i). */
  method TranslateFcmov(t: Translator, cond: Cond, i: Depth)
    requires t.Idle()
    modifies t, t.r
    ensures t.Idle() && Untouched(t, old(t.runRemaining), old(t.start), old(t.statusRead)) && Opened(t)
    ensures t.c == X87Deferred.End(Moved(X87Deferred.FlushTop(X87Deferred.FlushTags(old(t.c))), cond, i), t.runRemaining <= 1)
  {
    hide t.Working, t.Idle, X87Deferred.End, X87Deferred.FlushTop, X87Deferred.FlushTags, Moved;
    Start(t);
    assert Temp(25);
    var tmp2 := t.Take({TMP}, {});
    t.FlushTags(TMP, tmp2, {TMP} + {tmp2}, {});
    t.Give(tmp2, {TMP}, {});
    t.FlushTop(TMP, {TMP}, {});
    Select(t, cond, i);
    t.End(TMP, 1);
  }

  /** ST(0) := cond ? ST(i) : ST(0), without a branch. */
  method Select(t: Translator, cond: Cond, i: Depth)
    requires t.Working({TMP}, {})
    modifies t`c, t.r
    ensures t.Working({TMP}, {}) && t.c == Moved(old(t.c), cond, i)
  {
    hide t.Working, t.StBase, Write, Read, CondHolds, Holds;
    assert FprScratch(24);
    var a := t.TakeFpr({TMP}, {});
    var b := t.TakeFpr({TMP}, {} + {a});
    var discarded := t.LoadDepth(i, TMP, b, {TMP}, {} + {a} + {b});
    var key := t.LoadDepth(0, TMP, a, {TMP}, {} + {a} + {b});
    KnownFpu(t, {TMP}, {} + {a} + {b});
    ArmCondHolds(cond, t.c.flags);
    SelfStore(t.c);
    Compute(t, Fcsel(ArmCond(cond), a, b, a), a, {TMP}, {} + {a} + {b});
    t.StoreKey(0, key, a, {TMP}, {} + {a} + {b});
    t.GiveFpr(b, {TMP}, {} + {a});
    t.GiveFpr(a, {TMP}, {});
  }

  /** FNOP only keeps the run going. */
  method TranslateFnop(t: Translator)
    requires t.Idle()
    modifies t, t.r
    ensures t.Idle() && Untouched(t, old(t.runRemaining), old(t.start), old(t.statusRead)) && Opened(t)
    ensures t.c == X87Deferred.End(old(t.c), t.runRemaining <= 1)
  {
    hide t.Working, t.Idle, X87Deferred.End;
    Start(t);
    t.End(TMP, 1);
  }

  // ---------------------------------------------------------------- control and status words

  lemma StoredCw(s: State, t: State, b: Word, m: X87, cw: Half, xs: set<Reg>)
    requires Image(s, b, m) && t == s.(x := t.x, h := s.h[b := cw]) && KeepsX(s, t, xs)
    ensures Image(t, b, m.(cw := cw)) && Keeps(s, t, b, xs, {})
  {
    hide EncodeSw, EncodeTags;
  }

  /** Writing registers that are free, or in use for the instruction being translated. */
  lemma KeptFree(t: Translator, s: State, u: State, xs: set<Reg>)
    requires t.r.Traced() && Outside(t.start, s, t.b) && u == s.(x := u.x) && KeepsX(s, u, xs)
    requires forall k :: k in xs ==> GprScratch(k) && k != 22 && k != 23 && (t.gprsValid ==> k != 28)
    ensures Outside(t.start, u, t.b) && u.x[0] == s.x[0] && u.x[X18] == s.x[X18]
    ensures u.x[22] == s.x[22] && u.x[23] == s.x[23] && (t.gprsValid ==> u.x[28] == s.x[28])
  {
    hide Reaches;
  }

  /** Is RAX part of the address? */
  predicate UsesRax(o: Operand) {
    o.place.Mem? && ((o.place.m.hasBase && o.place.m.base == 0) || (o.place.m.hasIndex && o.place.m.index == 0))
  }

  /** The operand's address does not change while x87 code with its state at b runs from s. */
  ghost predicate Steady(s: State, b: Word, o: Operand, ctx: Context) {
    o.seg.Gs? && ctx.jit ==> X(s.tls + 48) < b + 8 || b + 0x48 <= X(s.tls + 48)
  }

  lemma SameAddress(s: State, u: State, b: Word, o: Operand, ctx: Context)
    requires Outside(s, u, b) && Steady(s, b, o, ctx) && (UsesRax(o) ==> u.x[0] == s.x[0])
    ensures OperandAddress(u, true, o, ctx) == OperandAddress(s, true, o, ctx)
  {
    hide X, W, Shl;
    assert u.x[X18] == s.x[X18];
    if o.place.Mem? {
      assert o.place.m.hasBase ==> u.x[o.place.m.base] == s.x[o.place.m.base];
      assert o.place.m.hasIndex ==> u.x[o.place.m.index] == s.x[o.place.m.index];
    }
  }

  /** The operand addresses a halfword v outside the control, status and tag words. */
  ghost predicate OperandFits(s: State, b: Word, o: Operand, ctx: Context, v: Half) {
    && WellShifted(o.addr64, o.place) && ctx.fsField / 4 < 4096 && Steady(s, b, o, ctx)
    && var a := OperandAddress(s, true, o, ctx);
      (a < b || b + 6 <= a) && Read16(s, a) == v
  }

  /** And its address does not contain what FNSTSW wrote. */
  ghost predicate ControlOperand(t: Translator, o: Operand, ctx: Context, v: Half)
    reads t`start, t`statusRead
  {
    OperandFits(t.start, t.b, o, ctx, v) && (t.statusRead ==> !UsesRax(o))
  }

  /** FLDCW: TOP is written first, pending tags and exchanges are not. */
  method TranslateFldcw(t: Translator, o: Operand, ctx: Context, fold: bool, ghost v: Half)
    requires t.Idle() && ControlOperand(t, o, ctx, v)
    modifies t, t.r
    ensures t.Idle() && Untouched(t, old(t.runRemaining), old(t.start), old(t.statusRead)) && Opened(t)
    ensures var f := X87Deferred.FlushTop(old(t.c));
      t.c == X87Deferred.End(f.(mem := f.mem.(cw := v)), t.runRemaining <= 1)
  {
    hide t.Working, t.Idle, X87Deferred.End, X87Deferred.FlushTop, ControlOperand;
    Start(t);
    t.FlushTop(TMP, {TMP}, {});
    assert Temp(25);
    var cw := t.Take({TMP}, {});
    LoadOperand(t, o, ctx, fold, cw, v);
    StoreControl(t, cw, v);
    t.Give(cw, {TMP}, {});
    t.End(TMP, 1);
  }

  /** Two registers below X29 are free besides the two in use. */
  lemma RoomForOperand(t: Translator, cw: Reg, seg: Segment)
    requires t.Working({TMP} + {cw}, {}) && cw == 25
    ensures Room(seg, t.r.freeGpr) && cw !in t.r.freeGpr
  {
    hide Reaches, Image, Outside, StatusInRax;
    assert 26 in t.r.freeGpr && 27 in t.r.freeGpr && X29 in t.r.freeGpr;
  }

  method LoadOperand(t: Translator, o: Operand, ctx: Context, fold: bool, cw: Reg, ghost v: Half)
    requires t.Working({TMP} + {cw}, {}) && cw == 25 && ControlOperand(t, o, ctx, v)
    modifies t.r`code, t.r`cur, t.r`freeGpr
    ensures t.Working({TMP} + {cw}, {}) && t.r.cur.x[cw] == v
  {
    hide Reaches, Image, Outside, StatusInRax, OperandAddress, Steady, UsesRax;
    ghost var s, f := t.r.cur, t.r.freeGpr;
    RoomForOperand(t, cw, o.seg);
    OperandStays(t, o, ctx);
    EmitMemAccess(t.r, true, o, S16, false, true, cw, fold, ctx);
    SameHalf(t.start, s, t.b, OperandAddress(t.start, true, o, ctx));
    LoadedOperand(s, t.r.cur, f, OperandAddress(s, true, o, ctx), cw);
    KeptFree(t, s, t.r.cur, f + {cw});
    ImageStays(s, t.r.cur, t.b, t.c.mem);
  }

  lemma OperandStays(t: Translator, o: Operand, ctx: Context)
    requires t.MachineAt(t.r.cur) && Steady(t.start, t.b, o, ctx) && (t.statusRead ==> !UsesRax(o))
    ensures OperandAddress(t.r.cur, true, o, ctx) == OperandAddress(t.start, true, o, ctx)
  {
    hide Image, OperandAddress, Outside, Steady, UsesRax;
    SameAddress(t.start, t.r.cur, t.b, o, ctx);
  }

  lemma SameHalf(s: State, u: State, b: Word, a: Word)
    requires Outside(s, u, b) && (a < b || b + 6 <= a)
    ensures Read16(u, a) == Read16(s, a)
  {
  }

  lemma ImageStays(s: State, u: State, b: Word, m: X87)
    requires Image(s, b, m) && u == s.(x := u.x)
    ensures Image(u, b, m)
  {
    hide EncodeSw, EncodeTags;
  }

  lemma LoadedOperand(s: State, u: State, f: set<Reg>, at: Word, cw: Reg)
    requires Accessed(s, u, f, S16, false, true, at, cw) && cw !in f && cw != XZR
    ensures u == s.(x := u.x) && KeepsX(s, u, f + {cw}) && u.x[cw] == Read16(s, at)
  {
  }

  method EmitStoreControl(r: TranslationResult, base: Reg, cw: Reg, ghost b: Word, ghost m: X87, ghost v: Half)
    requires r.Valid() && Image(r.cur, b, m) && r.cur.x[base] == b && r.cur.x[cw] == v
    modifies r`code, r`cur
    ensures r.Valid() && Image(r.cur, b, m.(cw := v)) && Keeps(old(r.cur), r.cur, b, {}, {})
  {
    hide Step, Exec, Reaches, EncodeSw, EncodeTags, Keeps;
    r.EmitStore(S16, false, Scaled(0), base, cw);
    StoredCw(old(r.cur), r.cur, b, m, v, {});
  }

  method StoreControl(t: Translator, cw: Reg, ghost v: Half)
    requires t.Working({TMP} + {cw}, {}) && t.r.cur.x[cw] == v
    modifies t`c, t.r`code, t.r`cur
    ensures t.Working({TMP} + {cw}, {}) && t.c == old(t.c).(mem := old(t.c).mem.(cw := v))
  {
    hide Reaches, Image, Outside, StatusInRax, Keeps;
    EmitStoreControl(t.r, 22, cw, t.b, t.c.mem, v);
    t.KeptAll(old(t.r.cur), {}, {});
    t.c := t.c.(mem := t.c.mem.(cw := v));
  }

  lemma RaxFits(v: Half, dst: Word)
    ensures W(dst) - dst % TWO16 + v < TWO32 && W(dst) % TWO16 == dst % TWO16 && W(v) == v
  {
  }

  lemma InsertHalf(v: Half, dst: Word)
    ensures FieldValue(Bfm, 32, 0, 15, v, W(dst)) == StatusInRax(dst, v)
    ensures W(StatusInRax(dst, v)) == StatusInRax(dst, v) && W(v) == v
  {
    RaxFits(v, dst);
    Powers();
  }

  /** AX := the status word; the upper half of EAX survives, and bits 63 to 32 are cleared. */
  method EmitStatusToAx(r: TranslationResult, base: Reg, sw: Reg, ghost b: Word, ghost m: X87)
    requires r.Valid() && XZR !in {base, sw} && 0 !in {base, sw} && base != sw
    requires Image(r.cur, b, m) && r.cur.x[base] == b
    modifies r`code, r`cur
    ensures r.Valid() && r.cur == old(r.cur).(x := r.cur.x) && KeepsX(old(r.cur), r.cur, {0, sw})
    ensures r.cur.x[0] == StatusInRax(old(r.cur).x[0], EncodeSw(m.sw))
  {
    hide Step, Exec, Reaches, EncodeSw, EncodeTags, FieldValue;
    InsertHalf(EncodeSw(m.sw), r.cur.x[0]);
    hide W, StatusInRax;
    r.EmitLoad(S16, false, Scaled(1), base, sw);
    r.EmitBitfield(false, Bfm, 0, 15, sw, 0);
  }

  lemma AxWritten(start: State, s: State, t: State, b: Word, m: X87, sw: Reg)
    requires Outside(start, s, b) && Image(s, b, m) && t == s.(x := t.x) && KeepsX(s, t, {0, sw}) && GprScratch(sw)
    ensures Outside(start, t, b) && Image(t, b, m)
  {
    hide EncodeSw, EncodeTags;
  }

  method StatusToAx(t: Translator, sw: Reg)
    requires t.Working({} + {sw}, {}) && Temp(sw) && t.gprsValid
    modifies t`c, t`statusRead, t.r`code, t.r`cur
    ensures t.Working({} + {sw}, {}) && t.c == old(t.c).(ax := EncodeSw(old(t.c).mem.sw)) && t.statusRead
  {
    hide Reaches, Image, Outside, StatusInRax, EncodeSw;
    ghost var s := t.r.cur;
    EmitStatusToAx(t.r, 22, sw, t.b, t.c.mem);
    AxWritten(t.start, s, t.r.cur, t.b, t.c.mem, sw);
    RaxWritten(t.start.x[0], s.x[0], t.r.cur.x[0], t.statusRead, t.c.ax, EncodeSw(t.c.mem.sw));
    t.c, t.statusRead := t.c.(ax := EncodeSw(t.c.mem.sw)), true;
  }

  /** A second FNSTSW finds RAX as the first one left it. */
  lemma RaxWritten(rax: Word, x: Word, y: Word, read: bool, ax: Half, v: Half)
    requires x == (if read then StatusInRax(rax, ax) else rax) && y == StatusInRax(x, v)
    ensures y == StatusInRax(rax, v) && y % TWO16 == v
  {
    AxBits(x, v, y);
    if read {
      AxBits(rax, ax, x);
      assert W(x) == x;
    }
  }

  lemma AxBits(x: Word, v: Half, y: Word)
    requires y == W(x) - x % TWO16 + v
    ensures y % TWO16 == v
  {
    assert W(x) % TWO16 == x % TWO16;
    hide W;
    DivUnique(y, TWO16, W(x) / TWO16);
  }

  /**
   FNSTSW AX.  It writes TOP and the tags of pending pushes itself, and never goes through x87_end.
   The rest of RAX is as MachineAt says once statusRead is set.
   */
  method TranslateFstsw(t: Translator)
    requires t.Idle()
    modifies t, t.r
    ensures t.Idle() && Untouched(t, old(t.runRemaining), old(t.start), true) && t.gprsValid == old(t.gprsValid)
    ensures var c := old(t.c);
      t.c == if t.runRemaining > 0 then ReadStatus(c) else c.(ax := EncodeSw(c.mem.sw))
  {
    hide t.Working, t.Idle, ReadStatus, EncodeSw;
    if t.runRemaining > 0 && t.gprsValid {
      CachedStatus(t);
    } else {
      PlainStatus(t);
    }
  }

  method CachedStatus(t: Translator)
    requires t.Idle() && t.runRemaining > 0 && t.gprsValid
    modifies t`topDirty, t`pushCount, t`c, t`statusRead, t.r
    ensures t.Idle() && t.c == ReadStatus(old(t.c)) && t.statusRead
  {
    hide t.Working, t.Idle, EncodeSw, X87Deferred.FlushTop, FlushPushes;
    AsWorking(t);
    assert Temp(24) && Temp(25);
    var sw := t.Take({}, {});
    t.FlushTop(sw, {} + {sw}, {});
    if t.pushCount > 0 {
      var tag := t.Take({} + {sw}, {});
      t.FlushDeferredPushes(sw, tag, {} + {sw} + {tag}, {});
      t.Give(tag, {} + {sw}, {});
    } else {
      NothingPushed(t, {} + {sw});
    }
    StatusToAx(t, sw);
    ReadAt(t);
    t.Give(sw, {}, {});
    AsIdle(t);
  }

  lemma AsWorking(t: Translator)
    requires t.Idle() && t.runRemaining > 0 && t.gprsValid
    ensures t.Working({}, {}) && !t.lent
  {
    hide Reaches, Image, Outside, StatusInRax;
  }

  lemma AsIdle(t: Translator)
    requires t.Working({}, {}) && t.gprsValid && !t.lent
    ensures t.Idle()
  {
    hide Reaches, Image, Outside, StatusInRax;
  }

  lemma NothingPushed(t: Translator, xs: set<Reg>)
    requires t.Working(xs, {}) && t.pushCount == 0
    ensures FlushPushes(t.c) == t.c
  {
    hide Reaches, Image, Outside, StatusInRax;
  }

  /** The lag of TOP at the read is bookkeeping of the proof only. */
  ghost method ReadAt(t: Translator)
    requires exists xs :: t.Working(xs, {})
    modifies t`c
    ensures (forall xs :: old(t.Working(xs, {})) ==> t.Working(xs, {})) && t.c == old(t.c).(plan := old(t.c).plan.(axLag := old(t.c).plan.lag))
  {
    hide Reaches, Image, Outside, StatusInRax;
    t.c := t.c.(plan := t.c.plan.(axLag := t.c.plan.lag));
  }

  /** FNSTSW AX without the cache: base, status word, AX. */
  method EmitPlainStatus(r: TranslationResult, offset: nat, ghost b: Word, ghost m: X87)
    requires r.Valid() && 22 in r.freeGpr && 23 in r.freeGpr && offset < 0x100_0000
    requires Image(r.cur, b, m) && b == X(r.cur.x[X18] + offset)
    modifies r`code, r`cur, r`freeGpr
    ensures r.Valid() && r.freeGpr == old(r.freeGpr)
    ensures r.cur == old(r.cur).(x := r.cur.x) && KeepsX(old(r.cur), r.cur, {0, 22, 23})
    ensures r.cur.x[0] == StatusInRax(old(r.cur).x[0], EncodeSw(m.sw))
  {
    hide Reaches, EncodeSw, EncodeTags, StatusInRax;
    var base := r.AllocGpr(0);
    EmitBase(r, offset, base);
    var sw := r.AllocGpr(1);
    EmitStatusToAx(r, base, sw, b, m);
    r.FreeGpr(sw);
    r.FreeGpr(base);
  }

  lemma StatusFrame(start: State, s: State, t: State, b: Word, m: X87)
    requires Outside(start, s, b) && Image(s, b, m) && t == s.(x := t.x) && KeepsX(s, t, {0, 22, 23})
    ensures Outside(start, t, b) && Image(t, b, m)
  {
    hide EncodeSw, EncodeTags;
  }

  /** Outside a run, or when FNSTSW opens one: memory is up to date. */
  method PlainStatus(t: Translator)
    requires t.Idle() && !(t.runRemaining > 0 && t.gprsValid)
    modifies t`c, t`statusRead, t.r
    ensures t.Idle() && t.statusRead
    ensures var c := old(t.c);
      t.c == if t.runRemaining > 0 then ReadStatus(c) else c.(ax := EncodeSw(c.mem.sw))
  {
    hide Reaches, Image, Outside, StatusInRax, EncodeSw;
    ghost var s := t.r.cur;
    EmitPlainStatus(t.r, t.offset, t.b, t.c.mem);
    StatusFrame(t.start, s, t.r.cur, t.b, t.c.mem);
    RaxWritten(t.start.x[0], s.x[0], t.r.cur.x[0], t.statusRead, t.c.ax, EncodeSw(t.c.mem.sw));
    t.statusRead := true;
    t.c := if t.runRemaining > 0 then ReadStatus(t.c) else t.c.(ax := EncodeSw(t.c.mem.sw));
  }
}
