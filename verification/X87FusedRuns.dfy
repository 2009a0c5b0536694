/**
 Runs translated with fusions.  A fusion leaves garbage in a register that its two instructions
 would have overwritten and marked empty; no program without stack faults can tell.
 */
module X87FusedRuns {
  import opened Words
  import opened X87Model
  import opened X87Deferred
  import opened X87Refinement
  import opened X87Runs
  import opened X87Ops
  import opened X87Fused

  // ---------------------------------------------------------------- what a program can tell apart

  /** The same registers are empty, and everything but their contents is equal. */
  ghost predicate Alike(a: Arch, b: Arch) {
    && a.flags == b.flags && a.ax == b.ax && a.mem.cw == b.mem.cw && a.mem.sw == b.mem.sw
    && (forall k: Depth :: a.mem.tags[k] == EMPTY <==> b.mem.tags[k] == EMPTY)
    && (forall k: Depth :: a.mem.tags[k] != EMPTY ==> a.mem.st[k] == b.mem.st[k])
  }

  predicate Filled(m: X87, d: Depth) {
    m.tags[Phys(m.sw.top, d)] != EMPTY
  }

  /** No stack fault: what the instruction reads is not empty, and what it pushes onto is. */
  predicate Safe(m: X87, op: Op) {
    match op
    case Fldz => m.tags[Dec(m.sw.top)] == EMPTY
    case Fld1 => m.tags[Dec(m.sw.top)] == EMPTY
    case Fld(i) => m.tags[Dec(m.sw.top)] == EMPTY && Filled(m, i)
    case Arith(_, _, d, s) => Filled(m, d) && Filled(m, s)
    case ArithPop(_, _, d) => Filled(m, 0) && Filled(m, d)
    case Fxch(i) => Filled(m, 0) && Filled(m, i)
    case Fcom(i, _) => Filled(m, 0) && Filled(m, i)
    case Fcompp => Filled(m, 0) && Filled(m, 1)
    case Fcomi(i, _) => Filled(m, 0) && Filled(m, i)
    case Fcmov(_, i) => Filled(m, 0) && Filled(m, i)
    case Fstsw => true
    case Fldcw(_) => true
    case Fnop => true
    case _ => Filled(m, 0)
  }

  function With(a: Arch, m: X87): Arch {
    a.(mem := m)
  }

  lemma GetAlike(a: Arch, b: Arch, d: Depth)
    requires Alike(a, b) && Filled(a.mem, d)
    ensures Get(a.mem, d) == Get(b.mem, d) && Filled(b.mem, d)
  {
  }

  lemma PutAlike(a: Arch, b: Arch, d: Depth, v: Word)
    requires Alike(a, b)
    ensures Alike(With(a, Put(a.mem, d, v)), With(b, Put(b.mem, d, v)))
    ensures Put(a.mem, d, v).tags == a.mem.tags && Put(a.mem, d, v).sw == a.mem.sw
  {
  }

  lemma PushAlike(a: Arch, b: Arch, v: Word)
    requires Alike(a, b)
    ensures Alike(With(a, Put(Push(a.mem), 0, v)), With(b, Put(Push(b.mem), 0, v)))
  {
    hide Dec;
    var p, q := Put(Push(a.mem), 0, v), Put(Push(b.mem), 0, v);
    assert p.st == a.mem.st[Dec(a.mem.sw.top) := v] && q.st == b.mem.st[Dec(b.mem.sw.top) := v];
  }

  lemma PopAlike(a: Arch, b: Arch)
    requires Alike(a, b)
    ensures Alike(With(a, Pop(a.mem)), With(b, Pop(b.mem)))
  {
    hide Inc;
  }

  lemma CcAlike(a: Arch, b: Arch, o: Order)
    requires Alike(a, b)
    ensures Alike(With(a, a.mem.(sw := SetCc(a.mem.sw, o))), With(b, b.mem.(sw := SetCc(b.mem.sw, o))))
    ensures SetCc(a.mem.sw, o).top == a.mem.sw.top
  {
  }

  lemma SwapAlike(a: Arch, b: Arch, i: Depth)
    requires Alike(a, b) && Filled(a.mem, 0) && Filled(a.mem, i)
    ensures Alike(With(a, Swap(a.mem, i)), With(b, Swap(b.mem, i)))
  {
    GetAlike(a, b, 0);
    GetAlike(a, b, i);
    var x, y := Get(a.mem, i), Get(a.mem, 0);
    PutAlike(a, b, 0, x);
    hide Get, Put, Alike;
    PutAlike(With(a, Put(a.mem, 0, x)), With(b, Put(b.mem, 0, x)), i, y);
  }

  lemma PopIfAlike(a: Arch, b: Arch, pop: bool)
    requires Alike(a, b)
    ensures Alike(With(a, PopIf(a.mem, pop)), With(b, PopIf(b.mem, pop)))
  {
    hide Alike, Pop;
    if pop { PopAlike(a, b); }
  }

  lemma FlagsAlike(a: Arch, b: Arch, f: Flags, w: Half)
    requires Alike(a, b)
    ensures Alike(a.(flags := f), b.(flags := f)) && Alike(a.(ax := w), b.(ax := w))
    ensures Alike(With(a, a.mem.(cw := w)), With(b, b.mem.(cw := w)))
  {
  }

  lemma CompareAlike(fpu: Fpu, a: Arch, b: Arch, op: Op)
    requires Alike(a, b) && Safe(a.mem, op) && (op.Fcom? || op.Fcompp? || op.Ftst? || op.Fcomi?)
    ensures Alike(Eager(fpu, a, op), Eager(fpu, b, op))
  {
    GetAlike(a, b, 0);
    if !op.Ftst? { GetAlike(a, b, if op.Fcompp? then 1 else op.src); }
    hide Alike, SetCc, FcomiFlags, Get, Pop, PopIf, Filled;
    match op
    case Fcom(i, pop) =>
      var o := fpu.compare(Get(a.mem, 0), Get(a.mem, i));
      CcAlike(a, b, o);
      PopIfAlike(With(a, a.mem.(sw := SetCc(a.mem.sw, o))), With(b, b.mem.(sw := SetCc(b.mem.sw, o))), pop);
    case Fcompp =>
      var o := fpu.compare(Get(a.mem, 0), Get(a.mem, 1));
      CcAlike(a, b, o);
      var p, q := With(a, a.mem.(sw := SetCc(a.mem.sw, o))), With(b, b.mem.(sw := SetCc(b.mem.sw, o)));
      PopAlike(p, q);
      PopAlike(With(p, Pop(p.mem)), With(q, Pop(q.mem)));
    case Ftst => CcAlike(a, b, fpu.compare(Get(a.mem, 0), POSITIVE_ZERO));
    case Fcomi(i, pop) =>
      var f := FcomiFlags(fpu.compare(Get(a.mem, 0), Get(a.mem, i)));
      FlagsAlike(a, b, f, 0);
      PopIfAlike(a.(flags := f), b.(flags := f), pop);
  }

  lemma WriteAlike(fpu: Fpu, a: Arch, b: Arch, op: Op)
    requires Alike(a, b) && Safe(a.mem, op) && (op.Arith? || op.ArithPop? || op.Unary? || op.Fst? || op.Fstp? || op.Fcmov?)
    ensures Alike(Eager(fpu, a, op), Eager(fpu, b, op))
  {
    assert a.flags == b.flags;
    if !op.Arith? { GetAlike(a, b, 0); }
    if op.Arith? || op.Fcmov? { GetAlike(a, b, op.src); }
    if op.Arith? || op.ArithPop? { GetAlike(a, b, op.dst); }
    hide Alike, Get, Put, Pop, Combine, CondHolds, Filled;
    match op
    case Arith(fn, rev, d, s) => PutAlike(a, b, d, Combine(fpu, fn, rev, Get(a.mem, d), Get(a.mem, s)));
    case ArithPop(fn, rev, d) =>
      var v := Combine(fpu, fn, rev, Get(a.mem, d), Get(a.mem, 0));
      PutAlike(a, b, d, v);
      PopAlike(With(a, Put(a.mem, d, v)), With(b, Put(b.mem, d, v)));
    case Unary(u) => PutAlike(a, b, 0, fpu.unary(u, Get(a.mem, 0)));
    case Fst(i) => PutAlike(a, b, i, Get(a.mem, 0));
    case Fstp(i) =>
      PutAlike(a, b, i, Get(a.mem, 0));
      PopAlike(With(a, Put(a.mem, i, Get(a.mem, 0))), With(b, Put(b.mem, i, Get(a.mem, 0))));
    case Fcmov(cond, i) => PutAlike(a, b, 0, Get(a.mem, i));
  }

  /** An instruction without a stack fault cannot tell alike states apart. */
  lemma EagerAlike(fpu: Fpu, a: Arch, b: Arch, op: Op)
    requires Alike(a, b) && Safe(a.mem, op)
    ensures Alike(Eager(fpu, a, op), Eager(fpu, b, op))
  {
    if op.Fcom? || op.Fcompp? || op.Ftst? || op.Fcomi? {
      CompareAlike(fpu, a, b, op);
      return;
    }
    if op.Arith? || op.ArithPop? || op.Unary? || op.Fst? || op.Fstp? || op.Fcmov? {
      WriteAlike(fpu, a, b, op);
      return;
    }
    assert a.mem.sw == b.mem.sw;
    if op.Fld? { GetAlike(a, b, op.src); }
    hide Alike, Get, Put, Push, Swap, EncodeSw, Filled;
    match op
    case Fldz => PushAlike(a, b, POSITIVE_ZERO);
    case Fld1 => PushAlike(a, b, POSITIVE_ONE);
    case Fld(i) => PushAlike(a, b, Get(a.mem, i));
    case Fxch(i) => SwapAlike(a, b, i);
    case Fstsw => FlagsAlike(a, b, a.flags, EncodeSw(a.mem.sw));
    case Fldcw(v) => FlagsAlike(a, b, a.flags, v);
    case _ =>
  }

  // ---------------------------------------------------------------- one fusion

  predicate SafeFusion(fpu: Fpu, a: Arch, f: Fusion) {
    Safe(a.mem, First(f)) && Safe(Eager(fpu, a, First(f)).mem, Second(f)) && FusionCommutes(fpu, a.mem, f)
  }

  lemma LoadReads(fpu: Fpu, a: Arch, f: Fusion)
    requires SafeFusion(fpu, a, f) && (f.FldArithp? || f.FldFstp?)
    ensures a.mem.tags[Dec(a.mem.sw.top)] == EMPTY
    ensures f.FldArithp? ==> Filled(a.mem, 0)
    ensures f.src.Register? ==> Filled(a.mem, f.src.i)
  {
    LoadIs(fpu, a, f.src);
    PushedOver(a.mem, ValueOf(a.mem, f.src));
    hide Eager, FusionCommutes, Get, Put, Push, ValueOf, Dec, Phys, Filled;
  }

  /** After a push ST(1) is what was ST(0). */
  lemma PushedOver(m: X87, v: Word)
    ensures Filled(Put(Push(m), 0, v), 1) == Filled(m, 0)
  {
    DownAndUp(m.sw.top);
    hide Phys, Dec, Inc;
  }

  lemma AllTheWay(t: Depth)
    ensures Phys(Inc(t), 7) == t
  {
  }

  lemma FilledAbove(m: X87, i: Depth)
    requires Filled(Pop(m), i)
    ensures Filled(m, (i + 1) % 8) && i != 7
  {
    OneUp(m.sw.top, i);
    AllTheWay(m.sw.top);
    hide Phys, Inc;
  }

  /** FSTP, FLD ST(7) is always a stack fault. */
  lemma StoreReads(fpu: Fpu, a: Arch, f: Fusion)
    requires SafeFusion(fpu, a, f) && f.FstpFld?
    ensures Filled(a.mem, 0) && (f.src.Register? ==> Filled(a.mem, (f.src.i + 1) % 8) && f.src.i != 7)
  {
    if f.src.Register? {
      var w := Put(a.mem, f.dst, Get(a.mem, 0));
      assert Eager(fpu, a, First(f)).mem == Pop(w);
      hide Get, Put, Pop, Filled;
      FilledAbove(w, f.src.i);
      FilledAfterPut(a.mem, f.dst, Get(a.mem, 0), (f.src.i + 1) % 8);
    }
  }

  lemma ValueAlike(a: Arch, b: Arch, src: Source)
    requires Alike(a, b) && (src.Register? ==> Filled(a.mem, src.i))
    ensures ValueOf(a.mem, src) == ValueOf(b.mem, src)
  {
    if src.Register? { GetAlike(a, b, src.i); }
    hide Alike, Get, Filled;
  }

  lemma FilledAfterPut(m: X87, dst: Depth, v: Word, i: Depth)
    ensures Filled(Put(m, dst, v), i) == Filled(m, i)
  {
  }

  lemma LoadFusionAlike(fpu: Fpu, a: Arch, b: Arch, f: Fusion)
    requires Alike(a, b) && SafeFusion(fpu, a, f) && (f.FldArithp? || f.FldFstp?)
    ensures Alike(Pair(fpu, a, f), EagerFused(fpu, b, f))
  {
    LoadReads(fpu, a, f);
    LoadFusionExact(fpu, a, f);
    ValueAlike(a, b, f.src);
    if f.FldArithp? { GetAlike(a, b, 0); }
    var v := if f.FldArithp? then Combine(fpu, f.fn, f.reversed, Get(a.mem, 0), ValueOf(a.mem, f.src)) else ValueOf(a.mem, f.src);
    PutAlike(a, b, 0, v);
    hide Alike, Get, Put, Combine, ValueOf, Pair, Filled, SafeFusion, Dec;
    Garbage(EagerFused(fpu, a, f), EagerFused(fpu, b, f), Dec(a.mem.sw.top), ValueOf(a.mem, f.src));
  }

  /** The contents and the marking of an empty register do not matter. */
  lemma Garbage(a: Arch, b: Arch, k: Depth, v: Word)
    requires Alike(a, b) && a.mem.tags[k] == EMPTY
    ensures Alike(With(a, a.mem.(st := a.mem.st[k := v])), b)
    ensures Alike(With(a, a.mem.(st := a.mem.st[k := v], tags := a.mem.tags[k := EMPTY])), b)
  {
  }

  lemma ExchangeFusionAlike(fpu: Fpu, a: Arch, b: Arch, f: Fusion)
    requires Alike(a, b) && SafeFusion(fpu, a, f) && (f.FxchArithp? || f.FxchFstp?)
    ensures Alike(Pair(fpu, a, f), EagerFused(fpu, b, f))
  {
    ExchangeFusionExact(fpu, a, f);
    GetAlike(a, b, 0);
    GetAlike(a, b, 1);
    var u, p, q := Get(a.mem, 1), a, b;
    if f.FxchArithp? {
      u := Combine(fpu, f.fn, Turned(f.fn, f.reversed), Get(a.mem, 1), Get(a.mem, 0));
      PutAlike(a, b, 1, u);
      p, q := With(a, Put(a.mem, 1, u)), With(b, Put(b.mem, 1, u));
    }
    PopAlike(p, q);
    assert Pop(p.mem).tags[a.mem.sw.top] == EMPTY;
    hide Alike, Get, Put, Pop, Combine, Pair, Filled, SafeFusion;
    Garbage(EagerFused(fpu, a, f), EagerFused(fpu, b, f), a.mem.sw.top, Get(a.mem, 1));
  }

  /** Two markings of a register that is not empty. */
  lemma Marking(a: Arch, b: Arch, k: Depth)
    requires Alike(a, b) && a.mem.tags[k] != EMPTY
    ensures Alike(With(a, a.mem.(tags := a.mem.tags[k := VALID])), b)
  {
  }

  lemma StoreFusionAlike(fpu: Fpu, a: Arch, b: Arch, f: Fusion)
    requires Alike(a, b) && SafeFusion(fpu, a, f) && f.FstpFld?
    ensures Alike(Pair(fpu, a, f), EagerFused(fpu, b, f))
  {
    StoreReads(fpu, a, f);
    StoreFusionExact(fpu, a, f);
    GetAlike(a, b, 0);
    var p, q, x := a, b, Get(a.mem, 0);
    if f.dst != 0 {
      PutAlike(a, b, f.dst, x);
      p, q := With(a, Put(a.mem, f.dst, x)), With(b, Put(b.mem, f.dst, x));
      if f.src.Register? { FilledAfterPut(a.mem, f.dst, x, (f.src.i + 1) % 8); }
    }
    ValueAlike(p, q, OneDeeper(f.src));
    PutAlike(p, q, 0, ValueOf(p.mem, OneDeeper(f.src)));
    assert p.mem.tags[a.mem.sw.top] != EMPTY;
    hide Alike, Get, Put, ValueOf, OneDeeper, Pair, Filled, SafeFusion;
    Marking(EagerFused(fpu, a, f), EagerFused(fpu, b, f), a.mem.sw.top);
  }

  lemma StatusFusionAlike(fpu: Fpu, a: Arch, b: Arch, f: Fusion)
    requires Alike(a, b) && SafeFusion(fpu, a, f) && (f.FcomFstsw? || f.FcomppFstsw?)
    ensures Alike(Pair(fpu, a, f), EagerFused(fpu, b, f))
  {
    StatusFusionExact(fpu, b, f);
    EagerAlike(fpu, a, b, First(f));
    hide Alike, Eager;
    EagerAlike(fpu, Eager(fpu, a, First(f)), Eager(fpu, b, First(f)), Second(f));
  }

  /** Without a stack fault a fusion is as good as its two instructions. */
  lemma FusionAlike(fpu: Fpu, a: Arch, b: Arch, f: Fusion)
    requires Alike(a, b) && SafeFusion(fpu, a, f)
    ensures Alike(Pair(fpu, a, f), EagerFused(fpu, b, f))
  {
    hide Alike, SafeFusion, Pair, EagerFused;
    match f
    case FldArithp(_, _, _) => LoadFusionAlike(fpu, a, b, f);
    case FldFstp(_) => LoadFusionAlike(fpu, a, b, f);
    case FxchArithp(_, _) => ExchangeFusionAlike(fpu, a, b, f);
    case FxchFstp => ExchangeFusionAlike(fpu, a, b, f);
    case FstpFld(_, _) => StoreFusionAlike(fpu, a, b, f);
    case _ => StatusFusionAlike(fpu, a, b, f);
  }

  // ---------------------------------------------------------------- whole runs

  /** What one step of the driver translates: an instruction, or a fusion of two. */
  datatype Item = Single(op: Op) | Both(fusion: Fusion)

  function Instructions(item: Item): seq<Op> {
    match item
    case Single(op) => [op]
    case Both(f) => [First(f), Second(f)]
  }

  function Flat(items: seq<Item>): seq<Op> {
    if items == [] then [] else Instructions(items[0]) + Flat(items[1..])
  }

  /** The instructions of the item, one after the other. */
  function EagerItem(fpu: Fpu, a: Arch, item: Item): Arch {
    match item
    case Single(op) => Eager(fpu, a, op)
    case Both(f) => Pair(fpu, a, f)
  }

  predicate SafeItem(fpu: Fpu, a: Arch, item: Item) {
    match item
    case Single(op) => Safe(a.mem, op)
    case Both(f) => SafeFusion(fpu, a, f)
  }

  /** No stack fault, and where an exchange was absorbed by FADDP or FMULP, their operands commute. */
  predicate NoFault(fpu: Fpu, a: Arch, items: seq<Item>)
    decreases |items|
  {
    items == [] || (SafeItem(fpu, a, items[0]) && NoFault(fpu, EagerItem(fpu, a, items[0]), items[1..]))
  }

  /** The item written through, in its fused form. */
  function ThroughItem(fpu: Fpu, a: Arch, item: Item): Arch {
    match item
    case Single(op) => Eager(fpu, a, op)
    case Both(f) => EagerFused(fpu, a, f)
  }

  function DeferItem(fpu: Fpu, c: Cached, item: Item, last: bool): Cached {
    match item
    case Single(op) => Deferred(fpu, c, op, last)
    case Both(f) => End(Fused(fpu, c, f, true), last)
  }

  function ItemPlan(p: Plan, item: Item, last: bool): Plan {
    match item
    case Single(op) => p.Step(op, last)
    case Both(f) => FusedPlan(p, f).Ended(last)
  }

  function DeferItems(fpu: Fpu, c: Cached, items: seq<Item>): Cached
    decreases |items|
  {
    if items == [] then c else DeferItems(fpu, DeferItem(fpu, c, items[0], |items| == 1), items[1..])
  }

  function PlanItems(p: Plan, items: seq<Item>): Plan
    decreases |items|
  {
    if items == [] then p else PlanItems(ItemPlan(p, items[0], |items| == 1), items[1..])
  }

  function ThroughItems(fpu: Fpu, a: Arch, items: seq<Item>): Arch
    decreases |items|
  {
    if items == [] then a else ThroughItems(fpu, ThroughItem(fpu, a, items[0]), items[1..])
  }

  lemma {:induction false} FlatRun(fpu: Fpu, a: Arch, items: seq<Item>)
    requires items != []
    ensures EagerRun(fpu, a, Flat(items)) == EagerRun(fpu, EagerItem(fpu, a, items[0]), Flat(items[1..]))
  {
    EagerAppend(fpu, a, Instructions(items[0]), Flat(items[1..]));
    hide Eager;
    match items[0]
    case Single(op) => assert [op][1..] == [] && EagerRun(fpu, Eager(fpu, a, op), []) == Eager(fpu, a, op);
    case Both(f) => EagerPair(fpu, a, First(f), Second(f));
  }

  // ---------------------------------------------------------------- eight pops at most

  predicate PopsTop(op: Op) {
    op.ArithPop? || op.Fstp? || (op.Fcom? && op.pop) || (op.Fcomi? && op.pop)
  }

  /** With eight pops pending every register is empty. */
  lemma RoomToPop(c: Cached, b: Arch)
    requires Refines(c, b, true) && c.plan.pops <= 8 && Filled(b.mem, 0)
    ensures c.plan.pops < 8
  {
    assert InArc(c.top, c.top - 8, 8) && !InArc(c.top, c.top, 0);
  }

  lemma PopsBounded(p: Plan, op: Op)
    requires 0 <= p.pops <= 8 && (PopsTop(op) ==> p.pops < 8)
    ensures p.Body(op).pops <= 8
  {
  }

  lemma EndKeepsPops(p: Plan, last: bool)
    requires p.pops <= 8
    ensures p.Ended(last).pops <= 8
  {
  }

  lemma FusionPopsBounded(p: Plan, f: Fusion)
    requires 0 <= p.pops < 8
    ensures FusedPlan(p, f).pops <= 8
  {
  }

  lemma FusionPopsKept(p: Plan, f: Fusion)
    requires f.FldFstp?
    ensures FusedPlan(p, f).pops == p.pops
  {
  }

  // ---------------------------------------------------------------- what is deferred is about filled registers

  /** The tags of registers whose pop is pending still say filled; only filled registers are exchanged. */
  ghost predicate Held(c: Cached, b: Arch) {
    && (forall k: Depth :: InArc(k, c.top - c.plan.pops, c.plan.pops) ==> c.mem.tags[k] != EMPTY)
    && (c.plan.permDirty ==> forall d: Depth :: c.plan.perm[d] != d ==> Filled(b.mem, d))
  }

  lemma NothingHeld(c: Cached, b: Arch)
    requires c.plan.pops <= 0 && !c.plan.permDirty
    ensures Held(c, b)
  {
  }

  /** Values, condition codes, flags and the TOP in memory are not looked at. */
  lemma HeldSame(c: Cached, b: Arch, d: Cached, e: Arch)
    requires Held(c, b) && d.mem.tags == c.mem.tags && d.top == c.top && d.plan.pops == c.plan.pops
    requires d.plan.perm == c.plan.perm && d.plan.permDirty == c.plan.permDirty
    requires e.mem.tags == b.mem.tags && e.mem.sw.top == b.mem.sw.top
    ensures Held(d, e)
  {
  }

  lemma HeldSwap(c: Cached, b: Arch, i: Depth, e: Arch)
    requires Held(c, b) && Filled(b.mem, 0) && Filled(b.mem, i) && (!c.plan.permDirty ==> c.plan.perm == IDENTITY)
    requires e.mem.tags == b.mem.tags && e.mem.sw.top == b.mem.sw.top
    ensures Held(c.(plan := c.plan.Swapped(i)), e)
  {
    hide Phys, InArc;
  }

  /** The new pop is of a register that is filled, and so is its tag in memory. */
  lemma HeldPop(c: Cached, b: Arch, e: Arch)
    requires Held(c, b) && Refines(c, b, true) && c.plan.pops < 8 && Filled(b.mem, 0)
    ensures Held(DeferPop(c), e)
  {
    var d := DeferPop(c);
    assert !d.plan.permDirty;
    if c.plan.pushes == 0 {
      TopTag(c, b);
      forall k: Depth | InArc(k, d.top - d.plan.pops, d.plan.pops)
        ensures d.mem.tags[k] != EMPTY
      {
        ArcAbove(k, c.top, c.plan.pops);
      }
    }
  }

  lemma TopTag(c: Cached, b: Arch)
    requires Refines(c, b, true) && c.plan.pops < 8 && c.plan.pushes == 0 && Filled(b.mem, 0)
    ensures c.mem.tags[c.top] != EMPTY && 0 <= c.plan.pops
  {
    assert Phys(b.mem.sw.top, 0) == c.top;
    assert !InArc(c.top, c.top - c.plan.pops, c.plan.pops) && !InArc(c.top, c.top, 0);
    hide InArc, Read, Get;
  }

  lemma HeldPopIf(c: Cached, b: Arch, pop: bool, e: Arch)
    requires Held(c, b) && Refines(c, b, true) && (pop ==> c.plan.pops < 8 && Filled(b.mem, 0))
    requires !pop ==> e.mem.tags == b.mem.tags && e.mem.sw.top == b.mem.sw.top
    ensures Held(DeferPopIf(c, pop), e)
  {
    hide Held, Refines, DeferPop;
    if pop { HeldPop(c, b, e); } else { HeldSame(c, b, c, e); }
  }

  /** Writing pending tags of pushes changes nothing that is held: pops are not pending at the same time. */
  lemma HeldFlushPushes(c: Cached, b: Arch, e: Arch)
    requires Held(c, b) && Refines(c, b, true) && e.mem.tags == b.mem.tags && e.mem.sw.top == b.mem.sw.top
    ensures Held(FlushPushes(c), e)
  {
    hide SetTags, Read, Get;
  }

  lemma HeldEnd(c: Cached, b: Arch, last: bool)
    requires Held(c, b)
    ensures Held(X87Deferred.End(c, last), b)
  {
    hide SetTags, Permuted;
  }

  predicate Quiet(op: Op) {
    op.Arith? || op.Unary? || op.Fst? || op.Fnop? || op.Fldcw? || op.Fcmov? || op.Ftst?
  }

  lemma QuietTags(fpu: Fpu, b: Arch, op: Op)
    requires Quiet(op) || op.Fxch? || op.Fstsw?
    ensures Eager(fpu, b, op).mem.tags == b.mem.tags && Eager(fpu, b, op).mem.sw.top == b.mem.sw.top
  {
    hide Combine, CondHolds, EncodeSw, Phys;
  }

  lemma HeldQuiet(fpu: Fpu, c: Cached, b: Arch, op: Op)
    requires Held(c, b) && Quiet(op)
    ensures Held(Body(fpu, c, op), Eager(fpu, b, op))
  {
    QuietTags(fpu, b, op);
    var d := Body(fpu, c, op);
    hide Combine, Read, Phys, CondHolds, SetTags, InArc, Eager;
    if op.Ftst? || op.Fcmov? {
      assert d.plan.pops <= 0 && d.plan.perm == c.plan.perm && d.plan.permDirty == c.plan.permDirty;
    } else {
      HeldSame(c, b, d, Eager(fpu, b, op));
    }
  }

  lemma HeldBody(fpu: Fpu, c: Cached, b: Arch, op: Op)
    requires Held(c, b) && Refines(c, b, true) && Safe(b.mem, op) && (PopsTop(op) ==> c.plan.pops < 8)
    ensures Held(Body(fpu, c, op), Eager(fpu, b, op))
  {
    var e := Eager(fpu, b, op);
    if Quiet(op) {
      HeldQuiet(fpu, c, b, op);
    } else if Pushes(op) || op.Fcompp? {
      HeldFlushed(fpu, c, op);
      hide Held, Body, Eager;
      NothingHeld(Body(fpu, c, op), e);
    } else if op.Fxch? {
      QuietTags(fpu, b, op);
      hide Held, Filled, Eager;
      if op.src != 0 { HeldSwap(c, b, op.src, e); } else { HeldSame(c, b, c, e); }
    } else if op.Fstsw? {
      QuietTags(fpu, b, op);
      FlushTopRefines(c, b, true);
      hide Refines, Held, Eager, EncodeSw, FlushPushes, FlushTop;
      HeldSame(c, b, FlushTop(c), b);
      HeldFlushPushes(FlushTop(c), b, e);
      HeldSame(FlushPushes(FlushTop(c)), e, Body(fpu, c, op), e);
    } else {
      HeldPops(fpu, c, b, op);
    }
  }

  lemma HeldFlushed(fpu: Fpu, c: Cached, op: Op)
    requires Pushes(op) || op.Fcompp?
    ensures var d := Body(fpu, c, op); d.plan.pops <= 0 && !d.plan.permDirty
  {
    hide Read, SetCc, Phys;
  }

  lemma HeldPops(fpu: Fpu, c: Cached, b: Arch, op: Op)
    requires Held(c, b) && Refines(c, b, true) && Safe(b.mem, op) && (PopsTop(op) ==> c.plan.pops < 8)
    requires op.ArithPop? || op.Fstp? || op.Fcom? || op.Fcomi?
    ensures Held(Body(fpu, c, op), Eager(fpu, b, op))
  {
    var e := Eager(fpu, b, op);
    SameReads(c, b, true);
    match op
    case ArithPop(fn, rev, d) => HeldWritePop(c, b, d, Combine(fpu, fn, rev, Read(c, d), Read(c, 0)), e);
    case Fstp(d) => HeldWritePop(c, b, d, Read(c, 0), e);
    case Fcom(i, pop) =>
      var o := fpu.compare(Read(c, 0), Read(c, i));
      var m := b.(mem := b.mem.(sw := SetCc(b.mem.sw, o)));
      CcRefines(c, b, o, true);
      HeldSame(c, b, WithCc(c, o), m);
      assert Filled(m.mem, 0) == Filled(b.mem, 0);
      hide Held, Refines, DeferPopIf, Filled, Read, Get, Pop;
      HeldPopIf(WithCc(c, o), m, pop, e);
    case Fcomi(i, pop) =>
      var f := FcomiFlags(fpu.compare(Read(c, 0), Read(c, i)));
      SameFlags(c, b, f, 0, true);
      HeldSame(c, b, c.(flags := f), b.(flags := f));
      hide Held, Refines, DeferPopIf, Filled, Read, Get, Pop, FcomiFlags;
      HeldPopIf(c.(flags := f), b.(flags := f), pop, e);
  }

  lemma HeldWritePop(c: Cached, b: Arch, d: Depth, v: Word, e: Arch)
    requires Held(c, b) && Refines(c, b, true) && c.plan.pops < 8 && Filled(b.mem, 0)
    ensures Held(DeferPop(Write(c, d, v)), e)
  {
    var m := b.(mem := Put(b.mem, d, v));
    WriteRefines(c, b, d, v, true);
    FilledAfterPut(b.mem, d, v, 0);
    HeldSame(c, b, Write(c, d, v), m);
    assert Write(c, d, v).plan == c.plan;
    hide Held, Refines, Write, Put, Filled;
    HeldPop(Write(c, d, v), m, e);
  }

  lemma HeldNet(c: Cached, b: Arch)
    requires Held(c, b)
    ensures Held(NetFlush(c), b)
  {
    hide InArc;
  }

  lemma HeldWrite(c: Cached, b: Arch, d: Depth, v: Word, e: Depth, w: Word)
    requires Held(c, b)
    ensures Held(Write(c, d, v), With(b, Put(b.mem, e, w)))
  {
    HeldSame(c, b, Write(c, d, v), With(b, Put(b.mem, e, w)));
  }

  /** Fusions that neither push nor pop. */
  lemma HeldFusedWrite(fpu: Fpu, c: Cached, b: Arch, f: Fusion)
    requires Held(c, b) && (f.FldArithp? || f.FldFstp? || f.FstpFld?)
    ensures Held(Fused(fpu, c, f, true), EagerFused(fpu, b, f))
  {
    HeldNet(c, b);
    var n := NetFlush(c);
    hide Held, NetFlush, Write, Put, Combine, Value, ValueOf, Read, Get;
    match f
    case FldArithp(src, fn, rev) =>
      HeldWrite(n, b, 0, Combine(fpu, fn, rev, Read(n, 0), Value(n, src)), 0, Combine(fpu, fn, rev, Get(b.mem, 0), ValueOf(b.mem, src)));
    case FldFstp(src) => HeldWrite(n, b, 0, Value(n, src), 0, ValueOf(b.mem, src));
    case FstpFld(dst, src) =>
      var w, e := n, b;
      if dst != 0 {
        HeldWrite(n, b, dst, Read(n, 0), dst, Get(b.mem, 0));
        w, e := Write(n, dst, Read(n, 0)), With(b, Put(b.mem, dst, Get(b.mem, 0)));
      }
      HeldWrite(w, e, 0, Value(w, OneDeeper(src)), 0, ValueOf(e.mem, OneDeeper(src)));
  }

  lemma HeldFused(fpu: Fpu, c: Cached, b: Arch, f: Fusion)
    requires Held(c, b) && Refines(c, b, true) && (!f.FldFstp? ==> c.plan.pops < 8 && Filled(b.mem, 0))
    ensures Held(Fused(fpu, c, f, true), EagerFused(fpu, b, f))
  {
    var e := EagerFused(fpu, b, f);
    match f
    case FxchArithp(fn, rev) =>
      HeldWritePop(c, b, 1, Combine(fpu, fn, Turned(fn, rev), Read(c, 1), Read(c, 0)), e);
    case FxchFstp =>
      FlushTopRefines(c, b, true);
      HeldSame(c, b, FlushTop(c), b);
      assert FlushTop(c).plan.pops == c.plan.pops;
      hide Held, Refines, FlushTop, Filled, DeferPop;
      HeldPop(FlushTop(c), b, e);
    case FcomFstsw(i, pop) => HeldFcom(fpu, c, b, i, pop, e);
    case FcomppFstsw =>
      hide Held, EagerFused, Read, SetCc, EncodeSw, SetTags, Permuted;
      assert Fused(fpu, c, f, true).plan.pops <= 0 && !Fused(fpu, c, f, true).plan.permDirty;
      NothingHeld(Fused(fpu, c, f, true), e);
    case _ => HeldFusedWrite(fpu, c, b, f);
  }

  lemma HeldFcom(fpu: Fpu, c: Cached, b: Arch, i: Depth, pop: bool, e: Arch)
    requires Held(c, b) && Refines(c, b, true) && c.plan.pops < 8 && Filled(b.mem, 0)
    requires e == EagerFused(fpu, b, FcomFstsw(i, pop))
    ensures Held(Fused(fpu, c, FcomFstsw(i, pop), true), e)
  {
    var d, m := Compared(fpu, c, i), With(b, ComparedTo(fpu, b.mem, i));
    ComparedRefines(fpu, c, b, i, true);
    HeldSame(c, b, d, m);
    assert Filled(m.mem, 0) == Filled(b.mem, 0);
    hide Held, Refines, Compared, ComparedTo, DeferPop, Filled, Pop, EncodeSw;
    HeldPopIf(d, m, pop, With(m, PopIf(m.mem, pop)));
    var q := PoppedIf(d, pop, true);
    assert q == DeferPopIf(d, pop);
    HeldSame(q, With(m, PopIf(m.mem, pop)), StatusAfter(q, pop), e);
  }

  // ---------------------------------------------------------------- the run as a simulation

  /** a: instruction by instruction; b: in fused form; c: as translated. */
  ghost predicate Joint(a: Arch, b: Arch, c: Cached) {
    Alike(a, b) && Refines(c, b, true) && c.plan.pops <= 8 && Held(c, b)
  }

  lemma SafeAlike(a: Arch, b: Arch, op: Op)
    requires Alike(a, b) && Safe(a.mem, op)
    ensures Safe(b.mem, op)
  {
    hide Phys, Dec;
  }

  lemma JointSingle(fpu: Fpu, a: Arch, b: Arch, c: Cached, op: Op, last: bool)
    requires Joint(a, b, c) && Safe(a.mem, op)
    ensures Joint(Eager(fpu, a, op), Eager(fpu, b, op), Deferred(fpu, c, op, last))
  {
    EagerAlike(fpu, a, b, op);
    assert Pushes(op) ==> b.mem.tags[Dec(b.mem.sw.top)] == EMPTY;
    assert 0 <= c.plan.pops;
    if PopsTop(op) {
      GetAlike(a, b, 0);
      RoomToPop(c, b);
    }
    PopsBounded(c.plan, op);
    EndKeepsPops(c.plan.Body(op), last);
    PlanIsStatic(fpu, c, op, last);
    SafeAlike(a, b, op);
    HeldBody(fpu, c, b, op);
    hide Alike, Refines, Held, Safe, Eager, Body, End, Plan.Body, Plan.Ended;
    HeldEnd(Body(fpu, c, op), Eager(fpu, b, op), last);
    BodyRefines(fpu, c, b, op, true);
    EndRefines(Body(fpu, c, op), Eager(fpu, b, op), last, true);
  }

  lemma JointBoth(fpu: Fpu, a: Arch, b: Arch, c: Cached, f: Fusion, last: bool)
    requires Joint(a, b, c) && SafeFusion(fpu, a, f)
    ensures Joint(Pair(fpu, a, f), EagerFused(fpu, b, f), End(Fused(fpu, c, f, true), last))
  {
    FusionAlike(fpu, a, b, f);
    FusedPlanIs(fpu, c, f);
    assert 0 <= c.plan.pops;
    if f.FldFstp? {
      FusionPopsKept(c.plan, f);
    } else {
      if f.FldArithp? { LoadReads(fpu, a, f); }
      GetAlike(a, b, 0);
      RoomToPop(c, b);
      FusionPopsBounded(c.plan, f);
    }
    EndKeepsPops(FusedPlan(c.plan, f), last);
    HeldFused(fpu, c, b, f);
    hide Alike, Refines, Held, Pair, EagerFused, Fused, FusedPlan, End, SafeFusion, Plan.Ended;
    HeldEnd(Fused(fpu, c, f, true), EagerFused(fpu, b, f), last);
    FusedRefines(fpu, c, b, f, true);
    EndRefines(Fused(fpu, c, f, true), EagerFused(fpu, b, f), last, true);
  }

  lemma ItemPlanIs(fpu: Fpu, c: Cached, item: Item, last: bool)
    ensures DeferItem(fpu, c, item, last).plan == ItemPlan(c.plan, item, last)
  {
    hide Deferred, Fused, FusedPlan, Plan.Step;
    match item
    case Single(op) => PlanIsStatic(fpu, c, op, last);
    case Both(f) => FusedPlanIs(fpu, c, f);
  }

  /** Every run without stack faults keeps the three in step. */
  lemma {:induction false} JointRun(fpu: Fpu, a: Arch, b: Arch, c: Cached, items: seq<Item>)
    requires Joint(a, b, c) && NoFault(fpu, a, items)
    ensures Joint(EagerRun(fpu, a, Flat(items)), ThroughItems(fpu, b, items), DeferItems(fpu, c, items))
    ensures DeferItems(fpu, c, items).plan == PlanItems(c.plan, items)
    decreases |items|
  {
    if items == [] {
    } else {
      var i, last := items[0], |items| == 1;
      FlatRun(fpu, a, items);
      ItemPlanIs(fpu, c, i, last);
      match i {
        case Single(op) => JointSingle(fpu, a, b, c, op, last);
        case Both(f) => JointBoth(fpu, a, b, c, f, last);
      }
      hide Joint, Eager, Deferred, Pair, EagerFused, Fused, End, SafeItem, ItemPlan, EagerRun, Flat;
      JointRun(fpu, EagerItem(fpu, a, i), ThroughItem(fpu, b, i), DeferItem(fpu, c, i, last), items[1..]);
    }
  }

  // ---------------------------------------------------------------- what is left at the end

  /** The last item writes everything, unless it is FNSTSW. */
  predicate Flushes(items: seq<Item>) {
    items != [] && items[|items| - 1] != Single(Fstsw)
  }

  lemma FusionKeepsPerm(p: Plan, f: Fusion)
    requires !p.permDirty ==> p.perm == IDENTITY
    ensures !FusedPlan(p, f).permDirty ==> FusedPlan(p, f).perm == IDENTITY
  {
  }

  lemma EndedClean(p: Plan)
    requires !p.permDirty ==> p.perm == IDENTITY
    ensures var e := p.Ended(true); e.perm == IDENTITY && !e.permDirty && e.pops <= 0 && e.pushes == 0
  {
  }

  lemma {:induction false} ItemsFlushed(p: Plan, items: seq<Item>)
    requires Flushes(items) && (!p.permDirty ==> p.perm == IDENTITY)
    ensures var e := PlanItems(p, items); e.perm == IDENTITY && !e.permDirty && e.pops <= 0 && e.pushes == 0
    decreases |items|
  {
    var i := items[0];
    match i {
      case Single(op) => BodyKeepsPerm(p, op); EndedClean(p.Body(op));
      case Both(f) => FusionKeepsPerm(p, f); EndedClean(FusedPlan(p, f));
    }
    hide Plan.Body, FusedPlan;
    if |items| > 1 {
      ItemsFlushed(ItemPlan(p, i, false), items[1..]);
    }
  }

  /** A register of an exchange that is still pending is filled, and so is the one it is exchanged with. */
  lemma MovedFilled(a: Arch, b: Arch, c: Cached, i: Depth)
    requires Joint(a, b, c) && c.plan.perm[i] != i
    ensures Filled(b.mem, i) && Filled(b.mem, c.plan.perm[i])
    ensures Get(a.mem, i) == Get(b.mem, i) && Get(a.mem, c.plan.perm[i]) == Get(b.mem, c.plan.perm[i])
  {
    assert c.plan.permDirty;
    var j := c.plan.perm[i];
    assert c.plan.perm[j] != j;
    hide Refines, Phys, InArc;
  }

  /** The pending exchanges matter in the instructions' registers as they do in the fused ones. */
  lemma SameExchanges(a: Arch, b: Arch, c: Cached)
    requires Joint(a, b, c)
    ensures (forall i: Depth :: Get(a.mem, c.plan.perm[i]) == Get(a.mem, i)) <==>
      (forall i: Depth :: Get(b.mem, c.plan.perm[i]) == Get(b.mem, i))
  {
    forall i: Depth
      ensures Get(a.mem, c.plan.perm[i]) == Get(a.mem, i) <==> Get(b.mem, c.plan.perm[i]) == Get(b.mem, i)
    {
      hide Joint, Get;
      if c.plan.perm[i] != i {
        MovedFilled(a, b, c, i);
      }
    }
    hide Joint, Get;
  }

  /** A pop whose tag was never written can be seen. */
  lemma PopsSeen(a: Arch, b: Arch, c: Cached)
    requires Joint(a, b, c) && c.plan.pops > 0
    ensures !Alike(a, Leave(c))
  {
    var k := Dec(c.top);
    LastInArc(c.top, c.plan.pops);
    assert c.mem.tags[k] != EMPTY;
    NoArc(k, c.top);
    assert b.mem.tags[k] == EMPTY;
    hide Phys, InArc, Dec, Read, Get;
  }

  lemma LastInArc(t: Depth, n: nat)
    requires 0 < n
    ensures InArc(Dec(t), t - n, n)
  {
    assert n < 8 ==> (Dec(t) - (t - n)) % 8 == n - 1;
  }

  /** The exchanges that are pending are seen where they move different values. */
  lemma ExchangesSeen(a: Arch, b: Arch, c: Cached)
    requires Joint(a, b, c) && c.plan.pops <= 0 && c.plan.pushes == 0 && Alike(a, Leave(c))
    ensures forall i: Depth :: Get(b.mem, c.plan.perm[i]) == Get(b.mem, i)
  {
    assert c.mem.sw == a.mem.sw && b.mem.sw == a.mem.sw && c.top == b.mem.sw.top;
    forall i: Depth
      ensures Get(b.mem, c.plan.perm[i]) == Get(b.mem, i)
    {
      if c.plan.perm[i] != i {
        var j := c.plan.perm[i];
        MovedFilled(a, b, c, i);
        assert c.plan.permDirty;
        assert Read(c, i) == Get(b.mem, i);
        assert Filled(a.mem, j) by { hide Refines; }
        assert c.mem.st[Phys(c.top, j)] == a.mem.st[Phys(a.mem.sw.top, j)];
        hide Refines, Alike, Held, Phys;
      }
    }
    hide Joint, Alike, Get;
  }

  lemma LeftExact(a: Arch, b: Arch, c: Cached)
    requires Joint(a, b, c) && c.plan.pushes == 0
    ensures var p := c.plan;
      Alike(a, Leave(c)) <==>
        && p.lag == 0 && p.axLag == 0 && p.pops <= 0
        && forall i: Depth :: Get(a.mem, p.perm[i]) == Get(a.mem, i)
  {
    SameExchanges(a, b, c);
    FinalStatus(c, b);
    if c.plan.pops > 0 {
      hide Refines, Held, Get, Alike;
      PopsSeen(a, b, c);
    } else {
      FinalTags(c, b);
      assert forall k: Depth :: !LostPop(k, c.plan, b.mem.sw.top);
      FinalRegisters(c, b);
      hide Refines, Held, LostPop, Get;
      if Alike(a, Leave(c)) {
        ExchangesSeen(a, b, c);
      }
    }
  }

  lemma {:induction false} NothingPushed(p: Plan, items: seq<Item>)
    requires p.pushes == 0 || items != []
    ensures PlanItems(p, items).pushes == 0
    decreases |items|
  {
    if items != [] {
      LastPushes(p, items[0]);
      hide ItemPlan;
      NothingPushed(ItemPlan(p, items[0], |items| == 1), items[1..]);
    }
  }

  lemma LastPushes(p: Plan, item: Item)
    ensures ItemPlan(p, item, true).pushes == 0
  {
    hide Plan.AfterPush, Plan.AfterPop, Plan.AfterPop2, Plan.Swapped, FusedPlan;
  }

  /**
   A run translated with fusions, from every state from which its instructions cause no stack fault:
   the program cannot tell the result from that of the instructions one by one, exactly when no lag
   of TOP is left at the end and none was there at the last FNSTSW, no pop is still pending, and the
   exchanges still pending move equal values.
   */
  lemma FusedRunExact(fpu: Fpu, a: Arch, items: seq<Item>)
    requires NoFault(fpu, a, items)
    ensures var p, e := PlanItems(FRESH, items), EagerRun(fpu, a, Flat(items));
      Alike(e, Leave(DeferItems(fpu, Enter(a), items))) <==>
        && p.lag == 0 && p.axLag == 0 && p.pops <= 0
        && forall i: Depth :: Get(e.mem, p.perm[i]) == Get(e.mem, i)
  {
    EnterRefines(a, true);
    NothingHeld(Enter(a), a);
    NothingPushed(FRESH, items);
    hide Refines, Held, EagerRun, Flat, NoFault, DeferItems, PlanItems, ThroughItems, Get;
    JointRun(fpu, a, a, Enter(a), items);
    LeftExact(EagerRun(fpu, a, Flat(items)), ThroughItems(fpu, a, items), DeferItems(fpu, Enter(a), items));
  }

  /** At a last item that is not FNSTSW only the lag can be left. */
  lemma FlushedRunExact(fpu: Fpu, a: Arch, items: seq<Item>)
    requires Flushes(items) && NoFault(fpu, a, items)
    ensures var p := PlanItems(FRESH, items);
      Alike(EagerRun(fpu, a, Flat(items)), Leave(DeferItems(fpu, Enter(a), items))) <==> p.lag == 0 && p.axLag == 0
  {
    ItemsFlushed(FRESH, items);
    hide Alike, EagerRun, Flat, NoFault, DeferItems, PlanItems, Get;
    FusedRunExact(fpu, a, items);
  }

  /** Items that never write TOP while pushes are pending. */
  predicate LeavesTop(item: Item) {
    match item
    case Single(op) => !op.Fldcw?
    case Both(f) => !f.FxchFstp? && !f.FcomFstsw?
  }

  lemma FusionStaysInStep(p: Plan, f: Fusion)
    requires InStep(p) && !f.FxchFstp? && !f.FcomFstsw?
    ensures InStep(FusedPlan(p, f))
  {
  }

  lemma {:induction false} ItemsStayInStep(p: Plan, items: seq<Item>)
    requires InStep(p) && Flushes(items) && forall i :: 0 <= i < |items| ==> LeavesTop(items[i])
    ensures var e := PlanItems(p, items); e.lag == 0 && e.axLag == 0
    decreases |items|
  {
    var i := items[0];
    match i {
      case Single(op) => BodyStaysInStep(p, op);
      case Both(f) => FusionStaysInStep(p, f);
    }
    hide Plan.Body, FusedPlan;
    if |items| > 1 {
      ItemsStayInStep(ItemPlan(p, i, false), items[1..]);
    }
  }

  /** Runs with neither FLDCW nor the two fusions that store TOP: no program without stack faults sees a difference. */
  lemma FusedRunPlain(fpu: Fpu, a: Arch, items: seq<Item>)
    requires Flushes(items) && NoFault(fpu, a, items) && forall i :: 0 <= i < |items| ==> LeavesTop(items[i])
    ensures Alike(EagerRun(fpu, a, Flat(items)), Leave(DeferItems(fpu, Enter(a), items)))
  {
    hide Alike, EagerRun, Flat, NoFault, DeferItems, PlanItems, LeavesTop;
    ItemsStayInStep(FRESH, items);
    FlushedRunExact(fpu, a, items);
  }

  // ---------------------------------------------------------------- a run that is not right

  /** FLD, FCOM with FNSTSW, FLD, FSTP, FSTP: the fused comparison stores TOP between two pushes. */
  const COMPARED: seq<Item> :=
    [Single(Fldz), Both(FcomFstsw(0, false)), Single(Fldz), Single(Fstp(0)), Single(Fstp(0))]

  lemma PlanStep(p: Plan, i: Item, items: seq<Item>)
    ensures PlanItems(p, [i] + items) == PlanItems(ItemPlan(p, i, |items| == 0), items)
  {
    hide ItemPlan;
    assert ([i] + items)[1..] == items;
  }

  lemma PendingLag()
    ensures PlanItems(Pending(false, 0, 7), []).lag == 7
  {
  }

  /** Nothing but pushes pending. */
  function Pending(dirty: bool, pushes: nat, lag: Depth): Plan {
    Plan(dirty, pushes, 0, IDENTITY, false, lag, 0)
  }

  lemma PushPlans()
    ensures ItemPlan(FRESH, Single(Fldz), false) == Pending(true, 1, 1)
    ensures ItemPlan(Pending(false, 1, 0), Single(Fldz), false) == Pending(true, 2, 1)
  {
  }

  lemma OtherPlans()
    ensures ItemPlan(Pending(true, 1, 1), Both(FcomFstsw(0, false)), false) == Pending(false, 1, 0)
    ensures ItemPlan(Pending(true, 2, 1), Single(Fstp(0)), false) == Pending(true, 1, 0)
    ensures ItemPlan(Pending(true, 1, 0), Single(Fstp(0)), true) == Pending(false, 0, 7)
  {
  }

  lemma ComparedLag()
    ensures PlanItems(FRESH, COMPARED).lag == 7
  {
    var f, g, h := Single(Fldz), Both(FcomFstsw(0, false)), Single(Fstp(0));
    var p1, p2, p3, p4 := Pending(true, 1, 1), Pending(false, 1, 0), Pending(true, 2, 1), Pending(true, 1, 0);
    PushPlans();
    OtherPlans();
    hide ItemPlan, Pending;
    PendingLag();
    PlanStep(FRESH, f, [g, f, h, h]);
    PlanStep(p1, g, [f, h, h]);
    PlanStep(p2, f, [h, h]);
    PlanStep(p3, h, [h]);
    PlanStep(p4, h, []);
    assert COMPARED == [f] + [g, f, h, h] && [g, f, h, h] == [g] + [f, h, h] && [f, h, h] == [f] + [h, h];
    assert [h, h] == [h] + [h] && [h] == [h] + [];
  }

  lemma SafeStep(fpu: Fpu, a: Arch, i: Item, items: seq<Item>)
    requires SafeItem(fpu, a, i) && NoFault(fpu, EagerItem(fpu, a, i), items)
    ensures NoFault(fpu, a, [i] + items)
  {
    hide SafeItem, EagerItem;
    assert ([i] + items)[0] == i && ([i] + items)[1..] == items;
  }

  /** FLDZ fills a register; the two FSTP ST(0) find both registers filled. */
  lemma TwoPops(fpu: Fpu, a: Arch)
    requires Filled(a.mem, 0) && Filled(a.mem, 1)
    ensures NoFault(fpu, a, [Single(Fstp(0)), Single(Fstp(0))])
  {
    var i := Single(Fstp(0));
    var b := EagerItem(fpu, a, i);
    assert SafeItem(fpu, a, i) && SafeItem(fpu, b, i);
    hide SafeItem, EagerItem;
    SafeStep(fpu, b, i, []);
    SafeStep(fpu, a, i, [i] + []);
    assert [i] + ([i] + []) == [i, i];
  }

  lemma FldzFills(m: X87)
    ensures var p := Put(Push(m), 0, POSITIVE_ZERO);
      Filled(p, 0) && (Filled(m, 0) ==> Filled(p, 1)) && p.sw.top == Dec(m.sw.top)
      && p.tags[Dec(Dec(m.sw.top))] == m.tags[Dec(Dec(m.sw.top))]
  {
    DownAndUp(m.sw.top);
    TwoDown(m.sw.top);
    hide Phys, Dec, Inc;
  }

  lemma TwoDown(t: Depth)
    ensures Dec(Dec(t)) != Dec(t)
  {
  }

  lemma CompareKeeps(fpu: Fpu, a: Arch)
    ensures var m := Pair(fpu, a, FcomFstsw(0, false)).mem; m.tags == a.mem.tags && m.sw.top == a.mem.sw.top
  {
    hide EncodeSw;
  }

  lemma RoomForTwo(fpu: Fpu, a: Arch)
    requires var t := a.mem.sw.top; a.mem.tags[Dec(t)] == EMPTY && a.mem.tags[Dec(Dec(t))] == EMPTY
    ensures NoFault(fpu, a, COMPARED)
  {
    var f, g, h := Single(Fldz), Both(FcomFstsw(0, false)), Single(Fstp(0));
    var b := EagerItem(fpu, a, f);
    var c := EagerItem(fpu, b, g);
    var d := EagerItem(fpu, c, f);
    FldzFills(a.mem);
    CompareKeeps(fpu, b);
    FldzFills(c.mem);
    assert SafeItem(fpu, a, f) && SafeItem(fpu, b, g) && SafeItem(fpu, c, f);
    hide SafeItem, EagerItem;
    TwoPops(fpu, d);
    SafeStep(fpu, c, f, [h, h]);
    SafeStep(fpu, b, g, [f] + [h, h]);
    SafeStep(fpu, a, f, [g] + ([f] + [h, h]));
    assert [f] + ([g] + ([f] + [h, h])) == COMPARED;
  }

  /** From every state with room for two pushes a program can tell: TOP in memory is wrong. */
  lemma ComparisonInBatch(fpu: Fpu, a: Arch)
    requires var t := a.mem.sw.top; a.mem.tags[Dec(t)] == EMPTY && a.mem.tags[Dec(Dec(t))] == EMPTY
    ensures NoFault(fpu, a, COMPARED)
    ensures !Alike(EagerRun(fpu, a, Flat(COMPARED)), Leave(DeferItems(fpu, Enter(a), COMPARED)))
  {
    ComparedLag();
    RoomForTwo(fpu, a);
    hide Alike, EagerRun, Flat, NoFault, DeferItems, PlanItems;
    FlushedRunExact(fpu, a, COMPARED);
  }
}
