/**
 Translating a run: one translator call per instruction, the run counter, and what the whole of
 the emitted code does to the x87 state in memory.
 */
module X87Program {
  import opened Words
  import opened X87Model
  import opened X87Deferred
  import opened X87Refinement
  import opened X87Runs
  import opened X87Tags
  import opened Arm
  import opened Translation
  import opened X87Code
  import opened X87Translator
  import opened X87Compare
  import opened Addressing
  import opened OperandAccess
  import opened X87Ops
  import X87Numbers

  /** Nothing is deferred: the state of a translator outside a run. */
  predicate Settled(c: Cached) {
    !c.plan.dirty && c.plan.pushes == 0 && c.plan.pops == 0 && !c.plan.permDirty && c.top == c.mem.sw.top
  }

  lemma EndSettled(c: Cached)
    requires Settled(c)
    ensures X87Deferred.End(c, true) == c
    ensures X87Deferred.FlushTop(X87Deferred.FlushTags(c)) == c
  {
  }

  lemma ReadSettled(c: Cached, d: Depth)
    requires Settled(c)
    ensures Read(c, d) == Get(c.mem, d)
  {
  }

  lemma WriteSettled(c: Cached, d: Depth, v: Word)
    requires Settled(c)
    ensures Write(c, d, v) == Through(c, Put(c.mem, d, v)) && Settled(Write(c, d, v))
  {
    hide Phys;
  }

  lemma PushSettled(c: Cached, v: Word)
    requires Settled(c)
    ensures Write(Pushed(c, false), 0, v) == Through(c, Put(Push(c.mem), 0, v)) && Settled(Write(Pushed(c, false), 0, v))
  {
    hide Phys, Write, Put;
    WriteSettled(Pushed(c, false), 0, v);
  }

  // ---------------------------------------------------------------- the uncached forms write through

  lemma PlainFld(fpu: Fpu, c: Cached, i: Depth)
    requires Settled(c)
    ensures End(Write(Pushed(c, false), 0, Read(c, i)), true) == Plain(fpu, c, Fld(i))
    ensures End(Write(Pushed(c, false), 0, POSITIVE_ZERO), true) == Plain(fpu, c, Fldz)
    ensures End(Write(Pushed(c, false), 0, POSITIVE_ONE), true) == Plain(fpu, c, Fld1)
  {
    ReadSettled(c, i);
    PushSettled(c, Read(c, i));
    PushSettled(c, POSITIVE_ZERO);
    PushSettled(c, POSITIVE_ONE);
    EndSettled(Write(Pushed(c, false), 0, Read(c, i)));
    EndSettled(Write(Pushed(c, false), 0, POSITIVE_ZERO));
    EndSettled(Write(Pushed(c, false), 0, POSITIVE_ONE));
    hide End, Write, Read, Pushed, Put, Get, Push;
  }

  /** Writing one register and possibly popping. */
  lemma PlainWrite(c: Cached, d: Depth, v: Word, pop: bool)
    requires Settled(c)
    ensures End(PoppedIf(Write(c, d, v), pop, false), true) == Through(c, PopIf(Put(c.mem, d, v), pop))
    ensures Settled(Through(c, PopIf(Put(c.mem, d, v), pop)))
  {
    WriteSettled(c, d, v);
    hide Write, Put;
    EndSettled(PoppedIf(Write(c, d, v), pop, false));
    hide End;
  }

  /** What each instruction does outside a run, before x87_end. */
  function Uncached(fpu: Fpu, c: Cached, op: Op): Cached {
    match op
    case Fldz => Write(Pushed(c, false), 0, POSITIVE_ZERO)
    case Fld1 => Write(Pushed(c, false), 0, POSITIVE_ONE)
    case Fld(i) => Write(Pushed(c, false), 0, Read(c, i))
    case Arith(fn, rev, d, s) => Write(c, d, Combine(fpu, fn, rev, Read(c, d), Read(c, s)))
    case ArithPop(fn, rev, d) => Popped(Write(c, d, Combine(fpu, fn, rev, Read(c, d), Read(c, 0))), false)
    case Unary(u) => Write(c, 0, fpu.unary(u, Read(c, 0)))
    case Fst(i) => PoppedIf(Write(c, i, Read(c, 0)), false, false)
    case Fstp(i) => PoppedIf(Write(c, i, Read(c, 0)), true, false)
    case Fxch(i) => Exchanged(c, i, false)
    case Fcom(i, pop) => PoppedIf(WithCc(c, fpu.compare(Read(c, 0), Read(c, i))), pop, false)
    case Fcompp => PoppedTwice(WithCc(c, fpu.compare(Read(c, 0), Read(c, 1))), false)
    case Ftst =>
      var f := X87Deferred.FlushTop(X87Deferred.FlushTags(c));
      WithCc(f, fpu.compare(Read(f, 0), POSITIVE_ZERO))
    case Fcomi(i, pop) => PoppedIf(c.(flags := FcomiFlags(fpu.compare(Read(c, 0), Read(c, i)))), pop, false)
    case Fcmov(cond, i) => Moved(X87Deferred.FlushTop(X87Deferred.FlushTags(c)), cond, i)
    case Fstsw => c.(ax := EncodeSw(c.mem.sw))
    case Fldcw(v) => var f := X87Deferred.FlushTop(c); f.(mem := f.mem.(cw := v))
    case Fnop => c
  }

  /** And with it: an exchange that an earlier run left pending is written now. */
  function Alone(fpu: Fpu, c: Cached, op: Op): Cached {
    if op.Fstsw? then Uncached(fpu, c, op) else End(Uncached(fpu, c, op), true)
  }

  lemma ExchangeAlone(c: Cached, i: Depth)
    requires Settled(c)
    ensures Exchanged(c, i, false) == Through(c, Swap(c.mem, i)) && Settled(Exchanged(c, i, false))
  {
    SwapOrder(c.mem, i);
  }

  lemma SwapOrder(m: X87, i: Depth)
    ensures var st, p, q := m.st, Phys(m.sw.top, 0), Phys(m.sw.top, i);
      Swap(m, i) == m.(st := st[q := st[p]][p := st[q]])
    ensures Swap(m, 0) == m
  {
    var t := m.sw.top;
    if i != 0 {
      PhysInjective(t, 0, i);
    }
    var p, q := Phys(t, 0), Phys(t, i);
    hide Phys;
    if p != q {
      assert m.st[p := m.st[q]][q := m.st[p]] == m.st[q := m.st[p]][p := m.st[q]];
    }
    assert m.st[p := m.st[p]] == m.st;
  }

  lemma CompareAlone(c: Cached, o: Order, pop: bool)
    requires Settled(c)
    ensures var m := c.mem.(sw := SetCc(c.mem.sw, o));
      && End(PoppedIf(WithCc(c, o), pop, false), true) == Through(c, PopIf(m, pop))
      && End(PoppedTwice(WithCc(c, o), false), true) == Through(c, Pop(Pop(m)))
  {
    EndSettled(PoppedIf(WithCc(c, o), pop, false));
    EndSettled(PoppedTwice(WithCc(c, o), false));
    hide End;
  }

  lemma FlagsAlone(c: Cached, f: Flags, pop: bool)
    requires Settled(c)
    ensures End(PoppedIf(c.(flags := f), pop, false), true) == Through(c, PopIf(c.mem, pop)).(flags := f)
  {
    EndSettled(PoppedIf(c.(flags := f), pop, false));
    hide End;
  }

  predicate WritesOne(op: Op) {
    op.Arith? || op.ArithPop? || op.Unary? || op.Fst? || op.Fstp?
  }

  lemma PlainArith(fpu: Fpu, c: Cached, op: Op)
    requires Settled(c) && WritesOne(op)
    ensures End(Uncached(fpu, c, op), true) == Plain(fpu, c, op)
  {
    forall d: Depth ensures Read(c, d) == Get(c.mem, d) { ReadSettled(c, d); }
    var m := c.mem;
    match op {
      case Arith(fn, rev, d, s) => PlainWrite(c, d, Combine(fpu, fn, rev, Get(m, d), Get(m, s)), false);
      case ArithPop(fn, rev, d) => PlainWrite(c, d, Combine(fpu, fn, rev, Get(m, d), Get(m, 0)), true);
      case Unary(u) => PlainWrite(c, 0, fpu.unary(u, Get(m, 0)), false);
      case Fst(i) => PlainWrite(c, i, Get(m, 0), false);
      case Fstp(i) => PlainWrite(c, i, Get(m, 0), true);
    }
    hide Write, Read, Put, Get, Pop, Combine, End;
  }

  /** With nothing pending, every instruction outside a run is written through. */
  lemma AloneIsPlain(fpu: Fpu, c: Cached, op: Op)
    requires Settled(c)
    ensures Alone(fpu, c, op) == Plain(fpu, c, op) && Settled(Alone(fpu, c, op))
  {
    hide Write, Put, Pop, Push, End, Read, Get, Pushed, Combine, FcomiFlags, SetCc, WithCc, CondHolds, EncodeSw;
    hide X87Deferred.FlushTop, X87Deferred.FlushTags;
    forall d: Depth ensures Read(c, d) == Get(c.mem, d) { ReadSettled(c, d); }
    EndSettled(c);
    if WritesOne(op) {
      PlainArith(fpu, c, op);
    } else {
      match op {
        case Fldz => PlainFld(fpu, c, 0);
        case Fld1 => PlainFld(fpu, c, 0);
        case Fld(i) => PlainFld(fpu, c, i);
        case Fxch(i) => ExchangeAlone(c, i); EndSettled(Exchanged(c, i, false));
        case Fcom(i, pop) => CompareAlone(c, fpu.compare(Get(c.mem, 0), Get(c.mem, i)), pop);
        case Fcompp => CompareAlone(c, fpu.compare(Get(c.mem, 0), Get(c.mem, 1)), false);
        case Ftst => CompareAlone(c, fpu.compare(Get(c.mem, 0), POSITIVE_ZERO), false);
        case Fcomi(i, pop) => FlagsAlone(c, FcomiFlags(fpu.compare(Get(c.mem, 0), Get(c.mem, i))), pop);
        case Fcmov(cond, i) => PlainWrite(c, 0, Get(c.mem, i), false);
        case Fldcw(v) => EndSettled(c.(mem := c.mem.(cw := v)));
        case _ =>
      }
    }
  }

  // ---------------------------------------------------------------- one instruction

  /** The memory operand of FLDCW, if the instruction is one. */
  ghost predicate OperandReady(t: Translator, op: Op, o: Operand, ctx: Context)
    reads t`start, t`statusRead
  {
    op.Fldcw? ==> ControlOperand(t, o, ctx, op.value)
  }

  /** What one translator call does, before x87_end. */
  function Effect(fpu: Fpu, c: Cached, op: Op, run: int): Cached {
    if run > 0 then Body(fpu, c, op) else Uncached(fpu, c, op)
  }

  /** The switch of translate_instruction: arithmetic and stores. */
  method DispatchWrite(t: Translator, op: Op)
    requires t.Idle() && WritesOne(op)
    modifies t, t.r
    ensures t.Idle() && Untouched(t, old(t.runRemaining), old(t.start), old(t.statusRead)) && Opened(t)
    ensures t.c == End(Effect(t.start.fpu, old(t.c), op, t.runRemaining), t.runRemaining <= 1)
  {
    hide t.Idle, Write, Read, DeferPop, X87Model.Pop, End, Combine;
    match op {
      case Arith(fn, rev, d, s) => TranslateArith(t, fn, rev, d, s);
      case ArithPop(fn, rev, d) => TranslateArithPop(t, fn, rev, d);
      case Unary(u) => TranslateUnary(t, u);
      case Fst(i) => TranslateFst(t, i, false);
      case Fstp(i) => TranslateFst(t, i, true);
    }
  }

  predicate ComparesOrMoves(op: Op) {
    op.Fcom? || op.Fcompp? || op.Ftst? || op.Fcomi? || op.Fcmov?
  }

  /** The switch of translate_instruction: comparisons and conditional moves. */
  method DispatchCompare(t: Translator, op: Op)
    requires t.Idle() && ComparesOrMoves(op)
    modifies t, t.r
    ensures t.Idle() && Untouched(t, old(t.runRemaining), old(t.start), old(t.statusRead)) && Opened(t)
    ensures t.c == End(Effect(t.start.fpu, old(t.c), op, t.runRemaining), t.runRemaining <= 1)
  {
    hide t.Idle, Write, Read, WithCc, CondHolds, DeferPop, DeferPop2, X87Model.Pop, End, FcomiFlags, X87Deferred.FlushTop, X87Deferred.FlushTags;
    match op {
      case Fcom(i, pop) => TranslateFcom(t, i, pop);
      case Fcompp => TranslateFcompp(t);
      case Ftst => TranslateFtst(t);
      case Fcomi(i, pop) => TranslateFcomi(t, i, pop);
      case Fcmov(cond, i) => TranslateFcmov(t, cond, i);
    }
  }

  /** The switch of translate_instruction, register forms. */
  method Dispatch(t: Translator, op: Op, o: Operand, ctx: Context, fold: bool)
    requires t.Idle() && OperandReady(t, op, o, ctx)
    modifies t, t.r
    ensures t.Idle() && Untouched(t, old(t.runRemaining), old(t.start), old(t.statusRead) || op.Fstsw?)
    ensures if op.Fstsw? then t.gprsValid == old(t.gprsValid) else Opened(t)
    ensures var e := Effect(t.start.fpu, old(t.c), op, t.runRemaining);
      t.c == if op.Fstsw? then e else End(e, t.runRemaining <= 1)
  {
    hide t.Idle, ControlOperand, Write, Read, DeferPush, X87Model.Push, SwapAt, End, X87Deferred.FlushTop, ReadStatus, EncodeSw;
    if WritesOne(op) {
      hide Effect;
      DispatchWrite(t, op);
      return;
    }
    if ComparesOrMoves(op) {
      hide Effect;
      DispatchCompare(t, op);
      return;
    }
    match op {
      case Fldz => TranslateConstant(t, false);
      case Fld1 => TranslateConstant(t, true);
      case Fld(i) => TranslateFld(t, i);
      case Fxch(i) => TranslateFxch(t, i);
      case Fstsw => TranslateFstsw(t);
      case Fldcw(v) => TranslateFldcw(t, o, ctx, fold, v);
      case Fnop => TranslateFnop(t);
    }
  }

  /** The code of one instruction has the deferred meaning inside a run, and outside a run the one it has alone. */
  method TranslateOp(t: Translator, op: Op, o: Operand, ctx: Context, fold: bool)
    requires t.Idle() && OperandReady(t, op, o, ctx)
    modifies t, t.r
    ensures t.Idle() && Untouched(t, old(t.runRemaining), old(t.start), old(t.statusRead) || op.Fstsw?)
    ensures if op.Fstsw? then t.gprsValid == old(t.gprsValid) else Opened(t)
    ensures t.c == if t.runRemaining > 0 then Deferred(t.start.fpu, old(t.c), op, t.runRemaining == 1)
                   else Alone(t.start.fpu, old(t.c), op)
  {
    hide t.Idle, OperandReady, Uncached, End, Body;
    Dispatch(t, op, o, ctx, fold);
  }

  // ---------------------------------------------------------------- the run counter

  /** Between runs: TOP is read again, tag updates still pending are forgotten, exchanges stay pending. */
  function Rest(c: Cached): Cached {
    c.(top := c.mem.sw.top, plan := FRESH.(perm := c.plan.perm, permDirty := c.plan.permDirty))
  }

  /** The counter goes down after every instruction; at zero the pins are dropped and the mask is complete. */
  method Tick(t: Translator)
    requires t.Idle() && t.runRemaining > 0
    modifies t`runRemaining, t`gprsValid, t`topDirty, t`pushCount, t`popCount, t`c, t.r`freeGpr
    ensures t.Idle() && t.runRemaining == old(t.runRemaining) - 1
    ensures t.runRemaining > 0 ==> t.gprsValid == old(t.gprsValid)
    ensures t.c == if t.runRemaining > 0 then old(t.c) else Rest(old(t.c))
  {
    hide Reaches, Image, Outside, StatusInRax;
    t.runRemaining := t.runRemaining - 1;
    if t.runRemaining == 0 {
      t.gprsValid, t.topDirty, t.pushCount, t.popCount := false, false, 0, 0;
      t.r.freeGpr := GPR_POOL;
      t.c := Rest(t.c);
    }
  }

  /** The counter that n x87 instructions in a row get (set_run); without a positive one the next is translated alone. */
  function Segment(n: nat, cacheOff: bool): (r: int)
    ensures r <= n
  {
    if cacheOff || n < 2 then 0 else Int16(n)
  }

  /** The meaning of a list of x87 instructions as the driver cuts it into runs. */
  function ListMeaning(fpu: Fpu, c: Cached, ops: seq<Op>, cacheOff: bool): Cached
    decreases |ops|
  {
    if ops == [] then c
    else
      var r := Segment(|ops|, cacheOff);
      if r <= 0 then ListMeaning(fpu, Alone(fpu, c, ops[0]), ops[1..], cacheOff)
      else ListMeaning(fpu, Rest(DeferredRun(fpu, c, ops[..r])), ops[r..], cacheOff)
  }

  predicate ReadsStatus(ops: seq<Op>) {
    exists i :: 0 <= i < |ops| && ops[i].Fstsw?
  }

  lemma ReadsNext(ops: seq<Op>, i: nat)
    requires i < |ops|
    ensures ReadsStatus(ops[..i + 1]) <==> ReadsStatus(ops[..i]) || ops[i].Fstsw?
  {
    var p, q := ops[..i], ops[..i + 1];
    assert q[i] == ops[i] && forall j :: 0 <= j < i ==> p[j] == q[j];
    if ReadsStatus(p) {
      var j :| 0 <= j < |p| && p[j].Fstsw?;
      assert q[j].Fstsw?;
    }
    if ReadsStatus(q) {
      var j :| 0 <= j < |q| && q[j].Fstsw?;
      assert j < i ==> p[j].Fstsw?;
    }
  }

  /** Where every FLDCW of the list finds its operand; not through RAX, once FNSTSW has written it. */
  ghost predicate OperandsFit(s: State, b: Word, ops: seq<Op>, operands: seq<Operand>, ctx: Context)
    requires |operands| == |ops|
  {
    forall i :: 0 <= i < |ops| && ops[i].Fldcw? ==>
      OperandFits(s, b, operands[i], ctx, ops[i].value) && (UsesRax(operands[i]) ==> !ReadsStatus(ops[..i]))
  }

  lemma OperandIsReady(t: Translator, ops: seq<Op>, operands: seq<Operand>, ctx: Context, i: nat)
    requires |operands| == |ops| && OperandsFit(t.start, t.b, ops, operands, ctx) && i < |ops| && t.statusRead == ReadsStatus(ops[..i])
    ensures OperandReady(t, ops[i], operands[i], ctx)
  {
    hide OperandFits, UsesRax, ReadsStatus;
  }

  lemma DeferredStep(fpu: Fpu, c: Cached, ops: seq<Op>, i: nat)
    requires i < |ops|
    ensures DeferredRun(fpu, c, ops[i..]) == DeferredRun(fpu, Deferred(fpu, c, ops[i], |ops| - i == 1), ops[i + 1..])
  {
    hide Deferred;
    assert ops[i..][0] == ops[i] && ops[i..][1..] == ops[i + 1..];
  }

  lemma DeferredDone(fpu: Fpu, c: Cached, ops: seq<Op>)
    ensures DeferredRun(fpu, c, ops[|ops|..]) == c && DeferredRun(fpu, c, ops[0..]) == DeferredRun(fpu, c, ops)
  {
    assert ops[0..] == ops;
  }

  method StartRun(t: Translator, n: nat)
    requires t.Idle() && t.runRemaining <= 0
    modifies t`runRemaining
    ensures t.Idle() && t.runRemaining == n
  {
    hide Reaches, Image, Outside, StatusInRax;
    Unpinned(t);
    t.runRemaining := n;
  }

  lemma Unpinned(t: Translator)
    requires t.Idle() && t.runRemaining <= 0
    ensures !t.gprsValid
  {
    hide Reaches, Image, Outside;
  }

  /** One run: instructions first .. first + n - 1, counted down. */
  method TranslateSegment(t: Translator, ops: seq<Op>, operands: seq<Operand>, ctx: Context, fold: bool, first: nat, n: nat)
    requires t.Idle() && t.runRemaining <= 0 && 0 < n && first + n <= |ops|
    requires |operands| == |ops| && OperandsFit(t.start, t.b, ops, operands, ctx) && t.statusRead == ReadsStatus(ops[..first])
    modifies t, t.r
    ensures t.Idle() && Untouched(t, 0, old(t.start), ReadsStatus(ops[..first + n]))
    ensures t.c == Rest(DeferredRun(t.start.fpu, old(t.c), ops[first..first + n]))
  {
    hide t.Idle, Deferred, OperandReady, OperandsFit, ReadsStatus, Rest;
    ghost var run := ops[first..first + n];
    StartRun(t, n);
    ghost var c0 := t.c;
    DeferredDone(t.start.fpu, t.c, run);
    for i := 0 to n
      invariant t.Idle() && Untouched(t, n - i, old(t.start), ReadsStatus(ops[..first + i]))
      invariant i < n ==> DeferredRun(t.start.fpu, t.c, run[i..]) == DeferredRun(t.start.fpu, c0, run)
      invariant i == n ==> t.c == Rest(DeferredRun(t.start.fpu, c0, run))
    {
      DeferredStep(t.start.fpu, t.c, run, i);
      ReadsNext(ops, first + i);
      OperandIsReady(t, ops, operands, ctx, first + i);
      TranslateOp(t, ops[first + i], operands[first + i], ctx, fold);
      DeferredDone(t.start.fpu, t.c, run);
      Tick(t);
    }
  }

  lemma ListStep(fpu: Fpu, c: Cached, ops: seq<Op>, i: nat, cacheOff: bool)
    requires i < |ops|
    ensures var r := Segment(|ops| - i, cacheOff);
      ListMeaning(fpu, c, ops[i..], cacheOff) ==
        if r <= 0 then ListMeaning(fpu, Alone(fpu, c, ops[i]), ops[i + 1..], cacheOff)
        else ListMeaning(fpu, Rest(DeferredRun(fpu, c, ops[i..i + r])), ops[i + r..], cacheOff)
  {
    hide Alone, Rest, DeferredRun, Segment;
    var s, r := ops[i..], Segment(|ops| - i, cacheOff);
    assert s[0] == ops[i] && s[1..] == ops[i + 1..];
    if r > 0 {
      assert s[..r] == ops[i..i + r] && s[r..] == ops[i + r..];
    }
  }

  lemma ListEnds(fpu: Fpu, c: Cached, ops: seq<Op>, cacheOff: bool)
    ensures ListMeaning(fpu, c, ops[|ops|..], cacheOff) == c && ops[0..] == ops
    ensures ReadsStatus(ops[..|ops|]) == ReadsStatus(ops) && !ReadsStatus(ops[..0])
  {
    assert ops[..|ops|] == ops;
  }

  /** Translates a list of x87 instructions; afterwards nothing is pinned. */
  method TranslateList(t: Translator, ops: seq<Op>, operands: seq<Operand>, ctx: Context, fold: bool, cacheOff: bool)
    requires t.Idle() && t.runRemaining <= 0 && !t.statusRead
    requires |operands| == |ops| && OperandsFit(t.start, t.b, ops, operands, ctx)
    modifies t, t.r
    ensures t.Idle() && t.runRemaining <= 0 && t.start == old(t.start) && t.statusRead == ReadsStatus(ops)
    ensures t.c == ListMeaning(t.start.fpu, old(t.c), ops, cacheOff)
    ensures t.r.freeGpr == GPR_POOL && t.r.freeFpr == FPR_POOL
  {
    hide t.Idle, Alone, Rest, OperandReady, OperandsFit, ReadsStatus, ListMeaning, Segment, DeferredRun;
    ghost var c0 := t.c;
    ListEnds(t.start.fpu, t.c, ops, cacheOff);
    var i := 0;
    while i < |ops|
      invariant i <= |ops| && t.Idle() && t.runRemaining <= 0 && t.start == old(t.start) && t.statusRead == ReadsStatus(ops[..i])
      invariant ListMeaning(t.start.fpu, t.c, ops[i..], cacheOff) == ListMeaning(t.start.fpu, c0, ops, cacheOff)
    {
      var r := Segment(|ops| - i, cacheOff);
      ListStep(t.start.fpu, t.c, ops, i, cacheOff);
      if r > 0 {
        TranslateSegment(t, ops, operands, ctx, fold, i, r);
        i := i + r;
      } else {
        ReadsNext(ops, i);
        OperandIsReady(t, ops, operands, ctx, i);
        TranslateOp(t, ops[i], operands[i], ctx, fold);
        i := i + 1;
      }
    }
    ListEnds(t.start.fpu, t.c, ops, cacheOff);
    AllFree(t);
  }

  lemma AllFree(t: Translator)
    requires t.Idle() && t.runRemaining <= 0
    ensures t.r.freeGpr == GPR_POOL && t.r.freeFpr == FPR_POOL
  {
    hide Reaches, Image, Outside;
  }

  // ---------------------------------------------------------------- from machine state to machine state

  /** RAX after the list. */
  function RaxAfter(rax: Word, ops: seq<Op>, ax: Half): Word {
    if ReadsStatus(ops) then StatusInRax(rax, ax) else rax
  }

  /** Bits 63 to 16 of RAX survive exactly when no FNSTSW is translated or bits 63 to 32 were clear. */
  lemma RaxSurvives(rax: Word, ops: seq<Op>, ax: Half)
    ensures RaxAfter(rax, ops, ax) / TWO16 == rax / TWO16 <==> !ReadsStatus(ops) || rax < TWO32
  {
    hide ReadsStatus;
    var q := W(rax) / TWO16;
    assert StatusInRax(rax, ax) == q * TWO16 + ax;
    assert rax / TWO16 == (rax / TWO32) * TWO16 + q;
  }

  /** Whatever the status word, FNSTSW turns RAX = 2^32 into a value below 2^32. */
  lemma RaxLost(ax: Half)
    ensures RaxAfter(TWO32, [Fstsw], ax) == ax
  {
    assert [Fstsw][0].Fstsw?;
  }

  /**
   The whole of it: the emitted code takes any machine state that holds the x87 state a.mem at
   X18 + offset to one that holds the meaning of the list there, with the flags and RAX it calls
   for; all other guest registers and all other memory are as they were.  The state s is ghost,
   so the code cannot depend on it.
   */
  method CompileRun(offset: nat, ops: seq<Op>, operands: seq<Operand>, ctx: Context, fold: bool, cacheOff: bool,
                    ghost s: State, ghost b: Word, ghost a: Arch) returns (code: seq<Instr>)
    requires offset < 0x100_0000 && s.skip == 0 && b == X(s.x[X18] + offset)
    requires Image(s, b, a.mem) && s.flags == a.flags && s.x[0] % TWO16 == a.ax
    requires |operands| == |ops| && OperandsFit(s, b, ops, operands, ctx)
    ensures var t, m := Run(code, s), ListMeaning(s.fpu, Enter(a), ops, cacheOff);
      && Image(t, b, m.mem) && t.flags == m.flags && t.x[0] == RaxAfter(s.x[0], ops, m.ax)
      && Outside(s, t, b) && t.skip == 0
  {
    hide Reaches, Image, Outside, ListMeaning, OperandsFit, ReadsStatus, StatusInRax, Step;
    var r := new TranslationResult(s);
    var t := new Translator(r, offset, b, a);
    TranslateList(t, ops, operands, ctx, fold, cacheOff);
    ReachesIsRun(r.code, r.init, r.cur);
    hide Run;
    code := r.code;
  }

  /** The operand [RCX]. */
  const AT_RCX: Operand := Operand(true, NoSegment, Mem(MemRef(true, 1, false, 0, 0, 0)))

  /**
   Every x87 state, flags and AX are those of some machine state that CompileRun accepts, and
   RCX can address any control word in it.
   */
  lemma MachineFor(offset: nat, b: Word, a: Arch, fpu: Fpu, v: Half, ctx: Context) returns (s: State)
    requires b + 0x48 <= TWO64 && ctx.fsField / 4 < 4096
    ensures s.skip == 0 && s.fpu == fpu && b == X(s.x[X18] + offset)
    ensures Image(s, b, a.mem) && s.flags == a.flags && s.x[0] % TWO16 == a.ax
    ensures OperandFits(s, b, AT_RCX, ctx, v)
  {
    hide EncodeSw, EncodeTags;
    XAdd(b - offset, offset);
    assert X(b - offset + offset) == b && X(b + 6) == b + 6;
    var x18 := X(b - offset);
    var x := seq(32, i requires 0 <= i < 32 =>
      if i == 0 then a.ax as Word else if i == 1 then b + 6 as Word else if i == X18 then x18 else 0);
    var h := map[b := a.mem.cw, b + 2 := EncodeSw(a.mem.sw), b + 4 := EncodeTags(a.mem.tags), b + 6 := v];
    var q := map k: Depth | k < 8 :: (b + 8 + 8 * k) as Word := a.mem.st[k];
    s := State(x, seq(32, i => 0), a.flags, h, map[], q, 0, fpu, 0);
    assert OperandAddress(s, true, AT_RCX, ctx) == b + 6;
    hide X;
  }

  // ---------------------------------------------------------------- lists and runs

  /** The meaning of a run: with the cache, instructions defer; without, each is written through. */
  function RunMeaning(fpu: Fpu, a: Arch, ops: seq<Op>, cached: bool): Arch {
    if cached then Leave(DeferredRun(fpu, Enter(a), ops)) else EagerRun(fpu, a, ops)
  }

  /** The cache is used from two instructions on, unless it is disabled. */
  predicate UsesCache(ops: seq<Op>, cacheOff: bool) {
    !cacheOff && |ops| >= 2
  }

  lemma {:induction false} UncachedList(fpu: Fpu, c: Cached, ops: seq<Op>)
    requires Settled(c)
    ensures var d := ListMeaning(fpu, c, ops, true); Settled(d) && Leave(d) == EagerRun(fpu, Leave(c), ops)
    decreases |ops|
  {
    if ops != [] {
      hide Alone, Settled, Eager;
      AloneIsPlain(fpu, c, ops[0]);
      assert Leave(Plain(fpu, c, ops[0])) == Eager(fpu, Leave(c), ops[0]);
      UncachedList(fpu, Alone(fpu, c, ops[0]), ops[1..]);
    }
  }

  /** Up to 32767 instructions are one run. */
  lemma ListIsRun(fpu: Fpu, a: Arch, ops: seq<Op>, cacheOff: bool)
    requires |ops| < 0x8000
    ensures Leave(ListMeaning(fpu, Enter(a), ops, cacheOff)) == RunMeaning(fpu, a, ops, UsesCache(ops, cacheOff))
  {
    hide Alone, EagerRun, DeferredRun;
    if UsesCache(ops, cacheOff) {
      assert Segment(|ops|, cacheOff) == |ops| && ops[..|ops|] == ops;
      assert ListMeaning(fpu, Rest(DeferredRun(fpu, Enter(a), ops)), ops[|ops|..], cacheOff) == Rest(DeferredRun(fpu, Enter(a), ops));
    } else if cacheOff {
      UncachedList(fpu, Enter(a), ops);
    } else {
      ShortList(fpu, Enter(a), ops);
      UncachedList(fpu, Enter(a), ops);
    }
  }

  lemma ShortList(fpu: Fpu, c: Cached, ops: seq<Op>)
    requires |ops| < 2
    ensures ListMeaning(fpu, c, ops, false) == ListMeaning(fpu, c, ops, true)
  {
    hide Alone;
    if |ops| == 1 {
      assert ops[1..] == [];
      assert ListMeaning(fpu, Alone(fpu, c, ops[0]), [], false) == ListMeaning(fpu, Alone(fpu, c, ops[0]), [], true);
    }
  }

  /** When a run leaves exactly what the undeferred instructions would. */
  lemma RunMeaningExact(fpu: Fpu, a: Arch, ops: seq<Op>, cached: bool)
    ensures var d, e, p := RunMeaning(fpu, a, ops, cached), EagerRun(fpu, a, ops), PlanRun(FRESH, ops);
      d == e <==>
        || !cached
        || (&& p.lag == 0 && p.axLag == 0 && TagsRight(ops, a.mem.sw.top, a.mem.tags)
            && (forall i: Depth :: Get(e.mem, p.perm[i]) == Get(e.mem, i)))
  {
    hide EagerRun, DeferredRun, PlanRun, Enter, TagsRight, Get;
    RunExact(fpu, a, ops);
    TagsExact(fpu, a, ops);
  }

  /**
   A run without FLDCW that does not end in FSTSW: registers, TOP, condition codes, control word,
   flags and AX are those of the undeferred instructions, cached or not, from every state.
   */
  lemma RunMeaningPlain(fpu: Fpu, a: Arch, ops: seq<Op>, cached: bool)
    requires ops != [] && !ops[|ops| - 1].Fstsw?
    requires forall i :: 0 <= i < |ops| ==> !ops[i].Fldcw?
    ensures var d, e := RunMeaning(fpu, a, ops, cached), EagerRun(fpu, a, ops);
      d == e.(mem := e.mem.(tags := d.mem.tags))
  {
    hide EagerRun, DeferredRun, Enter;
    PlainRunAgrees(fpu, a, ops);
  }

  /** A run without FLDCW that ends in FLD1 leaves the number 1 in ST(0), one that ends in FLDZ positive zero. */
  lemma RunLoadsNumbers(fpu: Fpu, a: Arch, ops: seq<Op>, cached: bool)
    requires forall i :: 0 <= i < |ops| ==> !ops[i].Fldcw?
    ensures X87Numbers.IsOne(Get(RunMeaning(fpu, a, ops + [Fld1], cached).mem, 0))
    ensures X87Numbers.IsPlusZero(Get(RunMeaning(fpu, a, ops + [Fldz], cached).mem, 0))
  {
    hide X87Numbers.IsOne, X87Numbers.IsPlusZero, RunMeaning, Eager;
    RunEndsIn(fpu, a, ops, Fld1, cached);
    RunEndsIn(fpu, a, ops, Fldz, cached);
    X87Numbers.LoadsNumbers(fpu, EagerRun(fpu, a, ops));
  }

  lemma RunEndsIn(fpu: Fpu, a: Arch, ops: seq<Op>, op: Op, cached: bool)
    requires forall i :: 0 <= i < |ops| ==> !ops[i].Fldcw?
    requires op.Fld1? || op.Fldz?
    ensures Get(RunMeaning(fpu, a, ops + [op], cached).mem, 0) == Get(Eager(fpu, EagerRun(fpu, a, ops), op).mem, 0)
  {
    hide RunMeaning, Eager;
    var all := ops + [op];
    RunMeaningPlain(fpu, a, all, cached);
    EagerAppend(fpu, a, ops, [op]);
    assert [op][1..] == [];
    assert EagerRun(fpu, EagerRun(fpu, a, ops), [op]) == Eager(fpu, EagerRun(fpu, a, ops), op);
    hide EagerRun;
  }

  // ---------------------------------------------------------------- lists of any length

  /** No run into which the list is cut ends in FNSTSW. */
  predicate EndsClean(ops: seq<Op>, cacheOff: bool)
    decreases |ops|
  {
    ops == [] ||
    var r := Segment(|ops|, cacheOff);
    if r <= 0 then EndsClean(ops[1..], cacheOff) else !ops[r - 1].Fstsw? && EndsClean(ops[r..], cacheOff)
  }

  function Retagged(a: Arch, tags: Tags): Arch {
    a.(mem := a.mem.(tags := tags))
  }

  /** No instruction looks at the tag word. */
  lemma EagerBlind(fpu: Fpu, a: Arch, op: Op, tags: Tags, any: Tags)
    ensures Retagged(Eager(fpu, Retagged(a, tags), op), any) == Retagged(Eager(fpu, a, op), any)
  {
    hide Combine, FcomiFlags, CondHolds, EncodeSw, SetCc, Phys, Dec, Inc;
  }

  lemma {:induction false} EagerRunBlind(fpu: Fpu, a: Arch, ops: seq<Op>, tags: Tags, any: Tags)
    ensures Retagged(EagerRun(fpu, Retagged(a, tags), ops), any) == Retagged(EagerRun(fpu, a, ops), any)
    decreases |ops|
  {
    if ops != [] {
      hide Eager;
      var b, c := Eager(fpu, a, ops[0]), Eager(fpu, Retagged(a, tags), ops[0]);
      EagerBlind(fpu, a, ops[0], tags, c.mem.tags);
      assert c == Retagged(b, c.mem.tags);
      EagerRunBlind(fpu, b, ops[1..], c.mem.tags, any);
    }
  }

  /** After a run that does not end in FNSTSW nothing is pending. */
  lemma RestIsFresh(fpu: Fpu, a: Arch, ops: seq<Op>)
    requires ops != [] && !ops[|ops| - 1].Fstsw?
    ensures var d := DeferredRun(fpu, Enter(a), ops); Rest(d) == Enter(Leave(d))
  {
    hide DeferredRun, PlanRun;
    EndsFlushed(FRESH, ops);
    RunFollowsPlan(fpu, Enter(a), ops);
  }

  /**
   Any list without FLDCW, cut into runs none of which ends in FNSTSW: everything but the tag word
   is what the undeferred instructions leave, from every state.
   */
  lemma {:induction false} ListPlain(fpu: Fpu, a: Arch, ops: seq<Op>, cacheOff: bool)
    requires EndsClean(ops, cacheOff) && forall i :: 0 <= i < |ops| ==> !ops[i].Fldcw?
    ensures var d := Leave(ListMeaning(fpu, Enter(a), ops, cacheOff));
      d == Retagged(EagerRun(fpu, a, ops), d.mem.tags)
    decreases |ops|
  {
    if ops == [] {
    } else {
      var r := Segment(|ops|, cacheOff);
      if r <= 0 {
        AloneStep(fpu, a, ops[0]);
        hide Alone, Eager;
        ListPlain(fpu, Eager(fpu, a, ops[0]), ops[1..], cacheOff);
      } else {
        hide DeferredRun, EagerRun, Rest, Retagged;
        var d := Leave(DeferredRun(fpu, Enter(a), ops[..r]));
        RestIsFresh(fpu, a, ops[..r]);
        ListPlain(fpu, d, ops[r..], cacheOff);
        RunThenRest(fpu, a, ops, r, Leave(ListMeaning(fpu, Enter(d), ops[r..], cacheOff)));
      }
    }
  }

  /** A run and what follows it. */
  lemma RunThenRest(fpu: Fpu, a: Arch, ops: seq<Op>, r: nat, z: Arch)
    requires 0 < r <= |ops| && !ops[r - 1].Fstsw? && forall i :: 0 <= i < |ops| ==> !ops[i].Fldcw?
    requires z == Retagged(EagerRun(fpu, Leave(DeferredRun(fpu, Enter(a), ops[..r])), ops[r..]), z.mem.tags)
    ensures z == Retagged(EagerRun(fpu, a, ops), z.mem.tags)
  {
    hide DeferredRun, EagerRun;
    var d := Leave(DeferredRun(fpu, Enter(a), ops[..r]));
    PlainRunAgrees(fpu, a, ops[..r]);
    assert d == Retagged(EagerRun(fpu, a, ops[..r]), d.mem.tags);
    hide Retagged;
    EagerRunBlind(fpu, EagerRun(fpu, a, ops[..r]), ops[r..], d.mem.tags, z.mem.tags);
    EagerAppend(fpu, a, ops[..r], ops[r..]);
    assert ops[..r] + ops[r..] == ops;
  }

  lemma AloneStep(fpu: Fpu, a: Arch, op: Op)
    ensures Alone(fpu, Enter(a), op) == Enter(Eager(fpu, a, op))
  {
    hide Alone, Eager;
    AloneIsPlain(fpu, Enter(a), op);
  }

  // ---------------------------------------------------------------- FCOMI and FCMOVcc translated together

  /** FCOMI(P) followed by FCMOVcc, deferred or not, moves exactly when the x86 condition holds. */
  lemma FcmovAfterFcomi(fpu: Fpu, a: Arch, i: Depth, pop: bool, cond: Cond, j: Depth, cached: bool)
    ensures var o, m := fpu.compare(Get(a.mem, 0), Get(a.mem, i)), PopIf(a.mem, pop);
      RunMeaning(fpu, a, [Fcomi(i, pop), Fcmov(cond, j)], cached).mem
      == if IntelCond(cond, IntelFcomi(o)) then Put(m, 0, Get(m, j)) else m
  {
    var ops := [Fcomi(i, pop), Fcmov(cond, j)];
    EagerPair(fpu, a, ops[0], ops[1]);
    IntelAgrees(cond, fpu.compare(Get(a.mem, 0), Get(a.mem, i)));
    PairTags(i, pop, cond, j, a.mem.sw.top, a.mem.tags);
    hide EagerRun, DeferredRun, Enter, TagsRight, Get, Put, Pop, IntelCond, IntelFcomi, CondHolds, FcomiFlags;
    PlainRunTags(fpu, a, ops);
  }

  lemma IntelAgrees(cond: Cond, o: Order)
    ensures CondHolds(cond, FcomiFlags(o)) == IntelCond(cond, IntelFcomi(o))
  {
  }

  lemma PairTags(i: Depth, pop: bool, cond: Cond, j: Depth, top: Depth, tags: Tags)
    ensures TagsRight([Fcomi(i, pop), Fcmov(cond, j)], top, tags)
  {
    var p, q, g := Fcomi(i, pop), Fcmov(cond, j), Ring(top, UNTOUCHED);
    TwoMarks(g, p, q);
    OneArc(top);
    hide Arc, DeferMarks, EagerMarks;
  }

  lemma TwoMarks(g: Ring, p: Op, q: Op)
    ensures DeferMarks(FRESH, g, [p, q]) == StepMark(FRESH.Step(p, false), StepMark(FRESH, g, p, false), q, true)
    ensures EagerMarks(g, [p, q]) == EagerMark(EagerMark(g, p), q)
  {
    hide StepMark, EagerMark, Plan.Step;
    assert [p, q][1..] == [q] && [q][1..] == [];
    var p1, g1, e1 := FRESH.Step(p, false), StepMark(FRESH, g, p, false), EagerMark(g, p);
    assert DeferMarks(p1, g1, [q]) == DeferMarks(p1.Step(q, true), StepMark(p1, g1, q, true), []);
    assert EagerMarks(e1, [q]) == EagerMarks(EagerMark(e1, q), []);
  }

  lemma OneArc(t: Depth)
    ensures Arc(UNTOUCHED, Inc(t) - 1, 1, EMPTY) == UNTOUCHED[t := Written(EMPTY)]
  {
    var w := Arc(UNTOUCHED, Inc(t) - 1, 1, EMPTY);
    forall k: Depth
      ensures w[k] == if k == t then Written(EMPTY) else UNTOUCHED[k]
    {
    }
    hide Arc;
  }
}
