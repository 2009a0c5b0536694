/**
 The fusions of two x87 instructions (TranslatorX87Fusion.cpp), register forms: what the fused
 translation means, and how far that is the meaning of the two instructions.
 */
module X87Fused {
  import opened Words
  import opened X87Model
  import opened X87Deferred
  import opened X87Refinement
  import opened X87Translator
  import opened X87Ops

  /** What a load pushes. */
  datatype Source = Register(i: Depth) | Zero | One

  datatype Fusion =
    | FldArithp(src: Source, fn: Fn, reversed: bool)
    | FldFstp(src: Source)
    | FxchArithp(fn: Fn, reversed: bool)
    | FxchFstp
    | FcomFstsw(i: Depth, pop: bool)
    | FcomppFstsw
    | FstpFld(dst: Depth, src: Source)

  function LoadOp(src: Source): Op {
    match src
    case Register(i) => Fld(i)
    case Zero => Fldz
    case One => Fld1
  }

  function First(f: Fusion): Op {
    match f
    case FldArithp(src, _, _) => LoadOp(src)
    case FldFstp(src) => LoadOp(src)
    case FxchArithp(_, _) => Fxch(1)
    case FxchFstp => Fxch(1)
    case FcomFstsw(i, pop) => Fcom(i, pop)
    case FcomppFstsw => Fcompp
    case FstpFld(dst, _) => Fstp(dst)
  }

  function Second(f: Fusion): Op {
    match f
    case FldArithp(_, fn, reversed) => ArithPop(fn, reversed, 1)
    case FldFstp(_) => Fstp(1)
    case FxchArithp(fn, reversed) => ArithPop(fn, reversed, 1)
    case FxchFstp => Fstp(1)
    case FcomFstsw(_, _) => Fstsw
    case FcomppFstsw => Fstsw
    case FstpFld(_, src) => LoadOp(src)
  }

  /** The exchange is absorbed by swapping the operands; those of FADDP and FMULP are left as they are. */
  function Turned(fn: Fn, reversed: bool): bool {
    if fn.Add? || fn.Mul? then reversed else !reversed
  }

  /** With TOP unchanged, ST(i) after the pop is ST(i + 1). */
  function OneDeeper(src: Source): Source {
    if src.Register? then Register((src.i + 1) % 8) else src
  }

  // ---------------------------------------------------------------- what the fused code does

  /** Pending pushes stay pending, with TOP, so that a later pop can still cancel them. */
  function NetFlush(c: Cached): Cached {
    if c.plan.pushes > 0 && c.plan.dirty then c else FlushTop(c)
  }

  function Value(c: Cached, src: Source): Word {
    match src
    case Register(i) => Read(c, i)
    case Zero => POSITIVE_ZERO
    case One => POSITIVE_ONE
  }

  /** FNSTSW takes TOP from the register if there was a pop. */
  function StatusAfter(c: Cached, popped: bool): Cached {
    if popped
    then c.(ax := EncodeSw(c.mem.sw.(top := c.top)), plan := c.plan.(axLag := 0))
    else c.(ax := EncodeSw(c.mem.sw), plan := c.plan.(axLag := c.plan.lag))
  }

  function Compared(fpu: Fpu, c: Cached, i: Depth): Cached {
    WithCc(FlushTop(c), fpu.compare(Read(c, 0), Read(c, i)))
  }

  /** Before x87_end; `cached` inside a run. */
  function Fused(fpu: Fpu, c: Cached, f: Fusion, cached: bool): Cached {
    match f
    case FldArithp(src, fn, reversed) =>
      var n := NetFlush(c);
      Write(n, 0, Combine(fpu, fn, reversed, Read(n, 0), Value(n, src)))
    case FldFstp(src) =>
      var n := NetFlush(c);
      Write(n, 0, Value(n, src))
    case FxchArithp(fn, reversed) =>
      Popped(Write(c, 1, Combine(fpu, fn, Turned(fn, reversed), Read(c, 1), Read(c, 0))), cached)
    case FxchFstp => Popped(FlushTop(c), cached)
    case FcomFstsw(i, pop) => StatusAfter(PoppedIf(Compared(fpu, c, i), pop, cached), pop)
    case FcomppFstsw => StatusAfter(PoppedTwice(Compared(fpu, c, 1), cached), true)
    case FstpFld(dst, src) =>
      var n := NetFlush(c);
      var w := if dst == 0 then n else Write(n, dst, Read(n, 0));
      Write(w, 0, Value(w, OneDeeper(src)))
  }

  /** TOP is read again, whatever is pending. */
  function Reread(c: Cached): Cached {
    c.(top := c.mem.sw.top)
  }

  /** A pop that is written through, although pushes, pops and exchanges may be pending. */
  function LentPop(c: Cached): Cached {
    Through(c, X87Model.Pop(c.mem)).(plan := c.plan.(dirty := false))
  }

  /**
   FXCH with a popping operation when FXCH has the last tick of its run: the tick is lent to the
   operation, which then runs as outside a run, with the bookkeeping of the run still there.
   */
  function LentFused(fpu: Fpu, c: Cached, fn: Fn, reversed: bool): Cached {
    var n := Reread(c);
    End(LentPop(Write(n, 1, Combine(fpu, fn, Turned(fn, reversed), Read(n, 1), Read(n, 0)))), true)
  }

  /** The bookkeeping of a fusion. */
  function FusedPlan(p: Plan, f: Fusion): Plan {
    match f
    case FxchArithp(_, _) => p.AfterPop()
    case FxchFstp => p.TopFlushed().AfterPop()
    case FcomFstsw(_, pop) =>
      var q := if pop then p.TopFlushed().AfterPop() else p.TopFlushed();
      q.(axLag := if pop then 0 else q.lag)
    case FcomppFstsw => p.TopFlushed().AfterPop2().(axLag := 0)
    case _ => if p.pushes > 0 && p.dirty then p else p.TopFlushed()
  }

  lemma FusedPlanIs(fpu: Fpu, c: Cached, f: Fusion)
    ensures Fused(fpu, c, f, true).plan == FusedPlan(c.plan, f)
  {
    hide Read, Combine, SetCc, EncodeSw, DeferPop, DeferPop2, Plan.AfterPop, Plan.AfterPop2, Plan.TopFlushed;
  }

  // ---------------------------------------------------------------- the same, written through

  function ValueOf(m: X87, src: Source): Word {
    match src
    case Register(i) => Get(m, i)
    case Zero => POSITIVE_ZERO
    case One => POSITIVE_ONE
  }

  function ComparedTo(fpu: Fpu, m: X87, i: Depth): X87 {
    m.(sw := SetCc(m.sw, fpu.compare(Get(m, 0), Get(m, i))))
  }

  function WithStatus(a: Arch, m: X87): Arch {
    a.(mem := m, ax := EncodeSw(m.sw))
  }

  function EagerFused(fpu: Fpu, a: Arch, f: Fusion): Arch {
    var m := a.mem;
    match f
    case FldArithp(src, fn, reversed) => a.(mem := Put(m, 0, Combine(fpu, fn, reversed, Get(m, 0), ValueOf(m, src))))
    case FldFstp(src) => a.(mem := Put(m, 0, ValueOf(m, src)))
    case FxchArithp(fn, reversed) => a.(mem := Pop(Put(m, 1, Combine(fpu, fn, Turned(fn, reversed), Get(m, 1), Get(m, 0)))))
    case FxchFstp => a.(mem := Pop(m))
    case FcomFstsw(i, pop) => WithStatus(a, PopIf(ComparedTo(fpu, m, i), pop))
    case FcomppFstsw => WithStatus(a, Pop(Pop(ComparedTo(fpu, m, 1))))
    case FstpFld(dst, src) =>
      var w := if dst == 0 then m else Put(m, dst, Get(m, 0));
      a.(mem := Put(w, 0, ValueOf(w, OneDeeper(src))))
  }

  function Pair(fpu: Fpu, a: Arch, f: Fusion): Arch {
    Eager(fpu, Eager(fpu, a, First(f)), Second(f))
  }

  /** What the pair pushes. */
  function Loaded(m: X87, src: Source): Word {
    match src case Register(i) => Get(m, i) case Zero => 0 case One => 0x3FF0_0000_0000_0000
  }

  /** FLD v with FADDP, FSUBP, FSUBRP and so on: ST(0) becomes x op v, or v op x; with FSTP ST(1) it becomes v. */
  lemma LoadPairs(fpu: Fpu, a: Arch, src: Source, fn: Fn)
    ensures var x, v := Get(a.mem, 0), Loaded(a.mem, src);
      && Get(Pair(fpu, a, FldArithp(src, fn, false)).mem, 0) == fpu.binary(fn, x, v)
      && Get(Pair(fpu, a, FldArithp(src, fn, true)).mem, 0) == fpu.binary(fn, v, x)
      && Get(Pair(fpu, a, FldFstp(src)).mem, 0) == v
  {
    DownAndUp(a.mem.sw.top);
    FirstTwo(a.mem.sw.top);
    FirstTwo(Dec(a.mem.sw.top));
    hide Phys, Inc, Dec;
  }

  /** FXCH with FADDP, FSUBP, FSUBRP and so on: what is left is x op y, or y op x; with FSTP ST(1) it is y. */
  lemma ExchangePairs(fpu: Fpu, a: Arch, fn: Fn)
    ensures var x, y := Get(a.mem, 0), Get(a.mem, 1);
      && Get(Pair(fpu, a, FxchArithp(fn, false)).mem, 0) == fpu.binary(fn, x, y)
      && Get(Pair(fpu, a, FxchArithp(fn, true)).mem, 0) == fpu.binary(fn, y, x)
      && Get(Pair(fpu, a, FxchFstp).mem, 0) == y
  {
    FirstTwo(a.mem.sw.top);
    FirstTwo(Inc(a.mem.sw.top));
    hide Phys, Inc;
  }

  // ---------------------------------------------------------------- the fused code refines that

  lemma NetRefines(c: Cached, a: Arch, tags: bool)
    requires Refines(c, a, tags)
    ensures Refines(NetFlush(c), a, tags)
  {
    hide Refines, FlushTop;
    FlushTopRefines(c, a, tags);
  }

  lemma ValueRefines(c: Cached, a: Arch, src: Source, tags: bool)
    requires Refines(c, a, tags)
    ensures Value(c, src) == ValueOf(a.mem, src)
  {
    SameReads(c, a, tags);
    hide Refines, Read, Get;
  }

  lemma AxKnown(c: Cached, a: Arch, v: Half, tags: bool)
    requires Refines(c, a, tags)
    ensures Refines(c.(ax := v, plan := c.plan.(axLag := 0)), a.(ax := v), tags)
  {
    hide EncodeSw;
    var d := c.(ax := v, plan := c.plan.(axLag := 0));
    forall k: Depth ensures Read(d, k) == Read(c, k) {}
  }

  lemma StatusAfterRefines(c: Cached, a: Arch, popped: bool, tags: bool)
    requires Refines(c, a, tags)
    ensures Refines(StatusAfter(c, popped), a.(ax := EncodeSw(a.mem.sw)), tags)
  {
    assert c.mem.sw.(top := c.top) == a.mem.sw && c.plan.lag == (c.mem.sw.top - c.top) % 8;
    hide Refines;
    if popped {
      AxKnown(c, a, EncodeSw(a.mem.sw), tags);
    } else {
      StatusBits(c, a);
      WithAx(c, a, EncodeSw(c.mem.sw), EncodeSw(a.mem.sw), tags);
    }
  }

  lemma ComparedRefines(fpu: Fpu, c: Cached, a: Arch, i: Depth, tags: bool)
    requires Refines(c, a, tags)
    ensures Refines(Compared(fpu, c, i), a.(mem := ComparedTo(fpu, a.mem, i)), tags)
    ensures Compared(fpu, c, i).plan.pops == c.plan.pops
  {
    SameReads(c, a, tags);
    FlushTopRefines(c, a, tags);
    hide Refines, Read, Get, SetCc;
    CcRefines(FlushTop(c), a, fpu.compare(Get(a.mem, 0), Get(a.mem, i)), tags);
  }

  lemma StatusFusionRefines(fpu: Fpu, c: Cached, a: Arch, f: Fusion, tags: bool)
    requires Refines(c, a, tags) && (tags ==> c.plan.pops < 127) && (f.FcomFstsw? || f.FcomppFstsw?)
    ensures Refines(Fused(fpu, c, f, true), EagerFused(fpu, a, f), tags)
  {
    hide Refines, DeferPop, DeferPop2, Pop, EncodeSw, Compared, ComparedTo;
    if f.FcomFstsw? {
      ComparedRefines(fpu, c, a, f.i, tags);
      var b := a.(mem := ComparedTo(fpu, a.mem, f.i));
      PopIfRefines(Compared(fpu, c, f.i), b, f.pop, tags);
      StatusAfterRefines(PoppedIf(Compared(fpu, c, f.i), f.pop, true), b.(mem := PopIf(b.mem, f.pop)), f.pop, tags);
    } else {
      ComparedRefines(fpu, c, a, 1, tags);
      var b := a.(mem := ComparedTo(fpu, a.mem, 1));
      Pop2Refines(Compared(fpu, c, 1), b, tags);
      StatusAfterRefines(PoppedTwice(Compared(fpu, c, 1), true), b.(mem := Pop(Pop(b.mem))), true, tags);
    }
  }

  lemma ExchangeFusionRefines(fpu: Fpu, c: Cached, a: Arch, f: Fusion, tags: bool)
    requires Refines(c, a, tags) && (tags ==> c.plan.pops < 127) && (f.FxchArithp? || f.FxchFstp?)
    ensures Refines(Fused(fpu, c, f, true), EagerFused(fpu, a, f), tags)
  {
    SameReads(c, a, tags);
    FlushTopRefines(c, a, tags);
    assert FlushTop(c).plan.pops == c.plan.pops;
    hide Refines, DeferPop, Pop, Read, Get, Write, Put, Combine, FlushTop;
    if f.FxchArithp? {
      WritePopRefines(c, a, 1, Combine(fpu, f.fn, Turned(f.fn, f.reversed), Read(c, 1), Read(c, 0)), tags);
    } else {
      PopRefines(FlushTop(c), a, tags);
    }
  }

  /** Inside a run the fused code does, with everything deferred, what EagerFused says. */
  lemma FusedRefines(fpu: Fpu, c: Cached, a: Arch, f: Fusion, tags: bool)
    requires Refines(c, a, tags) && (tags ==> c.plan.pops < 127)
    ensures Refines(Fused(fpu, c, f, true), EagerFused(fpu, a, f), tags)
  {
    if f.FcomFstsw? || f.FcomppFstsw? {
      StatusFusionRefines(fpu, c, a, f, tags);
      return;
    }
    if f.FxchArithp? || f.FxchFstp? {
      ExchangeFusionRefines(fpu, c, a, f, tags);
      return;
    }
    NetRefines(c, a, tags);
    var n := NetFlush(c);
    SameReads(n, a, tags);
    ValueRefines(n, a, f.src, tags);
    hide Refines, NetFlush, Read, Get, Write, Put, Combine, Value, ValueOf;
    match f
    case FldArithp(src, fn, reversed) => WriteRefines(n, a, 0, Combine(fpu, fn, reversed, Read(n, 0), Value(n, src)), tags);
    case FldFstp(src) => WriteRefines(n, a, 0, Value(n, src), tags);
    case FstpFld(dst, src) =>
      var w, b := n, a;
      if dst != 0 {
        WriteRefines(n, a, dst, Read(n, 0), tags);
        w, b := Write(n, dst, Read(n, 0)), a.(mem := Put(a.mem, dst, Get(a.mem, 0)));
      }
      ValueRefines(w, b, OneDeeper(src), tags);
      WriteRefines(w, b, 0, Value(w, OneDeeper(src)), tags);
  }

  // ---------------------------------------------------------------- one fusion against its two instructions

  /** What the fused form leaves out cannot be seen: the register it does not write holds that value already. */
  predicate Unseen(m: X87, f: Fusion) {
    var d := Dec(m.sw.top);
    match f
    case FldArithp(src, _, _) => m.tags[d] == EMPTY && m.st[d] == ValueOf(m, src)
    case FldFstp(src) => m.tags[d] == EMPTY && m.st[d] == ValueOf(m, src)
    case FxchArithp(_, _) => Get(m, 0) == Get(m, 1)
    case FxchFstp => Get(m, 0) == Get(m, 1)
    case FcomFstsw(_, _) => true
    case FcomppFstsw => true
    case FstpFld(_, _) => m.tags[m.sw.top] == VALID
  }

  lemma LoadIs(fpu: Fpu, a: Arch, src: Source)
    ensures Eager(fpu, a, LoadOp(src)) == a.(mem := Put(Push(a.mem), 0, ValueOf(a.mem, src)))
  {
    hide Put, Push, Get;
  }

  /** The register that FLD pushes onto and the next instruction pops. */
  lemma PushedThenPopped(m: X87, v: Word, w: Word)
    ensures var d, p := Dec(m.sw.top), Put(Push(m), 0, v);
      && Get(p, 0) == v && Get(p, 1) == Get(m, 0)
      && Pop(Put(p, 1, w)) == Put(m, 0, w).(st := Put(m, 0, w).st[d := v], tags := m.tags[d := EMPTY])
  {
    DownAndUp(m.sw.top);
    hide Inc, Dec, Phys;
  }

  lemma DownAndUp(t: Depth)
    ensures Inc(Dec(t)) == t && Phys(Dec(t), 0) == Dec(t) && Phys(Dec(t), 1) == t && Phys(t, 0) == t && Dec(t) != t
  {
  }

  lemma LoadFusionExact(fpu: Fpu, a: Arch, f: Fusion)
    requires f.FldArithp? || f.FldFstp?
    ensures var d, p, e := Dec(a.mem.sw.top), Pair(fpu, a, f), EagerFused(fpu, a, f);
      && p == e.(mem := e.mem.(st := e.mem.st[d := ValueOf(a.mem, f.src)], tags := e.mem.tags[d := EMPTY]))
      && (p == e <==> Unseen(a.mem, f))
  {
    LoadIs(fpu, a, f.src);
    var v := ValueOf(a.mem, f.src);
    var w := if f.FldArithp? then Combine(fpu, f.fn, f.reversed, Get(a.mem, 0), v) else v;
    PushedThenPopped(a.mem, v, w);
    OtherSlot(a.mem, w);
    hide Combine, Push, Pop, Put, Get, ValueOf, LoadOp;
  }

  lemma OtherSlot(m: X87, w: Word)
    ensures var d, e := Dec(m.sw.top), Put(m, 0, w); e.st[d] == m.st[d] && e.tags == m.tags
  {
  }

  lemma ExchangedThenPopped(m: X87, w: Word)
    ensures var s, t := Swap(m, 1), m.sw.top;
      && Get(s, 0) == Get(m, 1) && Get(s, 1) == Get(m, 0)
      && Pop(Put(s, 1, w)) == Pop(Put(m, 1, w)).(st := Pop(Put(m, 1, w)).st[t := Get(m, 1)])
      && Pop(Put(m, 1, w)).st[t] == Get(m, 0) && Put(m, 1, Get(m, 1)) == m
  {
    FirstTwo(m.sw.top);
    hide Phys, Inc;
  }

  lemma FirstTwo(t: Depth)
    ensures Phys(t, 0) == t && Phys(t, 1) == Inc(t) && Inc(t) != t
  {
  }

  /** Does the operand order of FADDP or FMULP matter? */
  predicate Commutes(fpu: Fpu, fn: Fn, x: Word, y: Word) {
    fn.Add? || fn.Mul? ==> fpu.binary(fn, x, y) == fpu.binary(fn, y, x)
  }

  predicate FusionCommutes(fpu: Fpu, m: X87, f: Fusion) {
    f.FxchArithp? ==> Commutes(fpu, f.fn, Get(m, 0), Get(m, 1))
  }

  lemma ExchangeFusionExact(fpu: Fpu, a: Arch, f: Fusion)
    requires f.FxchArithp? || f.FxchFstp?
    ensures var t, p, e := a.mem.sw.top, Pair(fpu, a, f), EagerFused(fpu, a, f);
      && (FusionCommutes(fpu, a.mem, f) ==> p == e.(mem := e.mem.(st := e.mem.st[t := Get(a.mem, 1)])))
      && (p == e <==> Unseen(a.mem, f))
  {
    var m := a.mem;
    var w := if f.FxchArithp? then Combine(fpu, f.fn, f.reversed, Get(m, 0), Get(m, 1)) else Get(m, 1);
    ExchangedThenPopped(m, w);
    var s := Swap(m, 1);
    assert Pair(fpu, a, f).mem == Pop(Put(s, 1, w));
    if f.FxchArithp? {
      var u := Combine(fpu, f.fn, Turned(f.fn, f.reversed), Get(m, 1), Get(m, 0));
      ExchangedThenPopped(m, u);
      assert EagerFused(fpu, a, f).mem == Pop(Put(m, 1, u));
      assert FusionCommutes(fpu, m, f) ==> u == w;
    }
    hide Swap, Put, Pop, Get, Combine;
  }

  lemma StatusFusionExact(fpu: Fpu, a: Arch, f: Fusion)
    requires f.FcomFstsw? || f.FcomppFstsw?
    ensures Pair(fpu, a, f) == EagerFused(fpu, a, f)
  {
    hide SetCc, EncodeSw, Pop, Get;
  }

  lemma PopThenPush(m: X87)
    ensures Push(Pop(m)) == m.(tags := m.tags[m.sw.top := VALID])
  {
    assert Dec(Inc(m.sw.top)) == m.sw.top;
    hide Dec, Inc;
    assert m.tags[m.sw.top := EMPTY][m.sw.top := VALID] == m.tags[m.sw.top := VALID];
  }

  lemma OneUp(t: Depth, i: Depth)
    ensures Phys(Inc(t), i) == Phys(t, (i + 1) % 8)
  {
  }

  lemma AbovePopped(m: X87, src: Source)
    ensures ValueOf(Pop(m), src) == ValueOf(m, OneDeeper(src))
  {
    if src.Register? {
      OneUp(m.sw.top, src.i);
      hide Phys, Inc;
    }
  }

  lemma PoppedThenPushed(m: X87, dst: Depth, src: Source)
    ensures var w, u := if dst == 0 then m else Put(m, dst, Get(m, 0)), Put(m, dst, Get(m, 0));
      && w == u
      && ValueOf(Pop(w), src) == ValueOf(w, OneDeeper(src))
      && Put(Push(Pop(w)), 0, ValueOf(Pop(w), src)) ==
         Put(w, 0, ValueOf(w, OneDeeper(src))).(tags := w.tags[m.sw.top := VALID])
  {
    assert dst == 0 ==> m.st[m.sw.top := Get(m, 0)] == m.st;
    var u := Put(m, dst, Get(m, 0));
    PopThenPush(u);
    AbovePopped(u, src);
    hide Get, ValueOf, OneDeeper, Push, Pop;
  }

  lemma StoreFusionExact(fpu: Fpu, a: Arch, f: Fusion)
    requires f.FstpFld?
    ensures var p, e := Pair(fpu, a, f), EagerFused(fpu, a, f);
      && p == e.(mem := e.mem.(tags := e.mem.tags[a.mem.sw.top := VALID]))
      && (p == e <==> Unseen(a.mem, f))
  {
    var m := a.mem;
    PoppedThenPushed(m, f.dst, f.src);
    var w := Put(m, f.dst, Get(m, 0));
    LoadIs(fpu, a.(mem := Pop(w)), f.src);
    assert w.tags == m.tags && EagerFused(fpu, a, f).mem.tags == m.tags;
    hide Put, Pop, Push, Get, ValueOf, LoadOp;
  }

  /** A fusion has the meaning of its two instructions exactly when Unseen holds. */
  lemma FusionExact(fpu: Fpu, a: Arch, f: Fusion)
    ensures Pair(fpu, a, f) == EagerFused(fpu, a, f) <==> Unseen(a.mem, f)
  {
    hide Pair, EagerFused;
    match f
    case FldArithp(_, _, _) => LoadFusionExact(fpu, a, f);
    case FldFstp(_) => LoadFusionExact(fpu, a, f);
    case FxchArithp(_, _) => ExchangeFusionExact(fpu, a, f);
    case FxchFstp => ExchangeFusionExact(fpu, a, f);
    case FstpFld(_, _) => StoreFusionExact(fpu, a, f);
    case _ => StatusFusionExact(fpu, a, f);
  }
}
