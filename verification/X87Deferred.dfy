/**
 The deferring translator.  Inside a run of x87 instructions the translator keeps TOP in a
 register and postpones three kinds of memory traffic: the TOP field of the status word, the
 tag updates of pushes and pops, and the exchanges of FXCH (as a permutation of depths).
 `Plan` is the translation-time part of that state (struct X87Cache); `Cached` adds the memory
 and the TOP register the emitted code works on.
 */
module X87Deferred {
  import opened Words
  import opened X87Model

  type Perm = s: seq<Depth> | |s| == 8 && forall i, j :: 0 <= i < j < 8 ==> s[i] != s[j]
    witness [0, 1, 2, 3, 4, 5, 6, 7]

  const IDENTITY: Perm := [0, 1, 2, 3, 4, 5, 6, 7]

  /** deferred_pop_count is an int8_t. */
  function Int8(v: int): int {
    (v + 128) % 256 - 128
  }

  /**
   What the translator knows at translation time.  `lag` is how far the TOP field in memory is
   ahead of the TOP register, modulo 8; the translator does not track it, but it is determined
   by the instructions alone.  `axLag` is the lag at the last FSTSW.
   */
  datatype Plan = Plan(
    dirty: bool, pushes: nat, pops: int, perm: Perm, permDirty: bool, lag: Depth, axLag: Depth)
  {
    function Depth(d: X87Model.Depth): X87Model.Depth {
      if permDirty then perm[d] else d
    }

    function TopFlushed(): Plan {
      if dirty then this.(dirty := false, lag := 0) else this
    }

    function PopsFlushed(): Plan {
      if pops > 0 then this.(pops := 0) else this
    }

    function PushesFlushed(): Plan {
      if pushes > 0 then this.(pushes := 0) else this
    }

    function PermFlushed(): Plan {
      if permDirty then this.(perm := IDENTITY, permDirty := false) else this
    }

    function Swapped(i: X87Model.Depth): Plan {
      this.(perm := perm[0 := perm[i]][i := perm[0]], permDirty := true)
    }

    function Moved(delta: int): Plan {
      this.(lag := (lag - delta) % 8)
    }

    /** A push starts a batch: TOP is stored first, so that memory holds the TOP before the batch. */
    function BeforePush(): Plan {
      var p := PopsFlushed();
      var q := if p.pushes >= 8 then p.PushesFlushed() else p;
      (if q.pushes == 0 then q.TopFlushed() else q).PermFlushed()
    }

    function AfterPush(): Plan {
      var b := BeforePush();
      b.Moved(-1).(dirty := true, pushes := b.pushes + 1)
    }

    /** A pop cancels the youngest deferred push, if there is one; otherwise it is deferred itself. */
    function AfterPop(): Plan {
      var m := PermFlushed().Moved(1);
      if pushes == 0 then m.(pops := Int8(pops + 1), dirty := true)
      else if dirty then m.(pushes := pushes - 1, dirty := pushes != 1)
      else m.(pushes := pushes - 1, lag := 0)
    }

    function AfterPop2(): Plan {
      PopsFlushed().PushesFlushed().PermFlushed().Moved(2).(dirty := true)
    }

    function AfterStatus(): Plan {
      var f := TopFlushed().PushesFlushed();
      f.(axLag := f.lag)
    }

    function Ended(last: bool): Plan {
      if last then PermFlushed().PopsFlushed().PushesFlushed().TopFlushed() else this
    }

    /** The bookkeeping of one instruction; it needs no guest data. */
    function Body(op: Op): Plan {
      match op
      case Fldz => AfterPush()
      case Fld1 => AfterPush()
      case Fld(_) => AfterPush()
      case ArithPop(_, _, _) => AfterPop()
      case Fstp(_) => AfterPop()
      case Fxch(i) => if i == 0 then this else Swapped(i)
      case Fcom(_, pop) => if pop then AfterPop() else this
      case Fcomi(_, pop) => if pop then AfterPop() else this
      case Fcompp => AfterPop2()
      case Ftst => PopsFlushed().PushesFlushed().TopFlushed()
      case Fcmov(_, _) => PopsFlushed().PushesFlushed().TopFlushed()
      case Fstsw => AfterStatus()
      case Fldcw(_) => TopFlushed()
      case _ => this
    }

    function Step(op: Op, last: bool): Plan {
      if op.Fstsw? then Body(op) else Body(op).Ended(last)
    }
  }

  const FRESH: Plan := Plan(false, 0, 0, IDENTITY, false, 0, 0)

  datatype Cached = Cached(mem: X87, top: Depth, plan: Plan, flags: Flags, ax: Half)

  /** Entering a run: TOP is loaded from memory and nothing is deferred. */
  function Enter(a: Arch): Cached {
    Cached(a.mem, a.mem.sw.top, FRESH, a.flags, a.ax)
  }

  /** What is in memory and in the guest registers, with everything still deferred ignored. */
  function Leave(c: Cached): Arch {
    Arch(c.mem, c.flags, c.ax)
  }

  // ---------------------------------------------------------------- flushes

  function FlushTop(c: Cached): (r: Cached)
    ensures r == c.(mem := c.mem.(sw := r.mem.sw), plan := c.plan.TopFlushed())
  {
    if c.plan.dirty
    then c.(mem := c.mem.(sw := c.mem.sw.(top := c.top)), plan := c.plan.TopFlushed())
    else c
  }

  function FlushPops(c: Cached): (r: Cached)
    ensures r == c.(mem := c.mem.(tags := r.mem.tags), plan := c.plan.PopsFlushed())
  {
    if c.plan.pops > 0
    then c.(mem := c.mem.(tags := SetTags(c.mem.tags, c.top - c.plan.pops, c.plan.pops, EMPTY)),
            plan := c.plan.PopsFlushed())
    else c
  }

  function FlushPushes(c: Cached): (r: Cached)
    ensures r == c.(mem := c.mem.(tags := r.mem.tags), plan := c.plan.PushesFlushed())
  {
    if c.plan.pushes > 0
    then c.(mem := c.mem.(tags := SetTags(c.mem.tags, c.top, c.plan.pushes, VALID)),
            plan := c.plan.PushesFlushed())
    else c
  }

  function PermutedAt(st: Slots, top: Depth, perm: Perm, k: Depth): Word {
    st[Phys(top, perm[(k - top) % 8])]
  }

  /** Each ST(i) receives old ST(perm[i]). */
  function Permuted(st: Slots, top: Depth, perm: Perm): Slots {
    seq(8, k requires 0 <= k < 8 => PermutedAt(st, top, perm, k))
  }

  function FlushPerm(c: Cached): (r: Cached)
    ensures r == c.(mem := c.mem.(st := r.mem.st), plan := c.plan.PermFlushed())
  {
    if c.plan.permDirty
    then c.(mem := c.mem.(st := Permuted(c.mem.st, c.top, c.plan.perm)), plan := c.plan.PermFlushed())
    else c
  }

  function FlushTags(c: Cached): (r: Cached)
    ensures r == c.(mem := c.mem.(tags := r.mem.tags), plan := c.plan.PopsFlushed().PushesFlushed())
  {
    FlushPushes(FlushPops(c))
  }

  // ---------------------------------------------------------------- deferring push and pop

  function BeforePush(c: Cached): Cached {
    var c1 := FlushPops(c);
    var c2 := if c1.plan.pushes >= 8 then FlushPushes(c1) else c1;
    FlushPerm(if c2.plan.pushes == 0 then FlushTop(c2) else c2)
  }

  function DeferPush(c: Cached): (r: Cached)
    ensures r.plan == c.plan.AfterPush()
  {
    BeforePush(c).(top := Dec(c.top), plan := c.plan.AfterPush())
  }

  /** Cancelling a push whose TOP was stored since writes the new TOP through. */
  function DeferPop(c: Cached): (r: Cached)
    ensures r.plan == c.plan.AfterPop()
  {
    var m := FlushPerm(c).(top := Inc(c.top), plan := c.plan.AfterPop());
    if c.plan.pushes > 0 && !c.plan.dirty then m.(mem := m.mem.(sw := m.mem.sw.(top := m.top))) else m
  }

  /** FCOMPP: tags are written at once, only TOP stays deferred. */
  function DeferPop2(c: Cached): (r: Cached)
    ensures r.plan == c.plan.AfterPop2()
  {
    var b := FlushPerm(FlushTags(c));
    b.(top := Phys(c.top, 2), plan := c.plan.AfterPop2(),
       mem := b.mem.(tags := SetTags(b.mem.tags, c.top, 2, EMPTY)))
  }

  /** x87_end: the last instruction of a run flushes everything. */
  function End(c: Cached, last: bool): (r: Cached)
    ensures r.plan == c.plan.Ended(last)
  {
    if last then FlushTop(FlushPushes(FlushPops(FlushPerm(c)))) else c
  }

  // ---------------------------------------------------------------- one instruction

  function Read(c: Cached, d: Depth): Word {
    c.mem.st[Phys(c.top, c.plan.Depth(d))]
  }

  function Write(c: Cached, d: Depth, v: Word): Cached {
    c.(mem := c.mem.(st := c.mem.st[Phys(c.top, c.plan.Depth(d)) := v]))
  }

  function WithCc(c: Cached, o: Order): Cached {
    c.(mem := c.mem.(sw := SetCc(c.mem.sw, o)))
  }

  function DeferPopIf(c: Cached, pop: bool): Cached {
    if pop then DeferPop(c) else c
  }

  /** FSTSW writes TOP and the push tags itself, and does not go through x87_end. */
  function ReadStatus(c: Cached): (r: Cached)
    ensures r.plan == c.plan.AfterStatus()
  {
    var f := FlushPushes(FlushTop(c));
    f.(ax := EncodeSw(f.mem.sw), plan := c.plan.AfterStatus())
  }

  function Body(fpu: Fpu, c: Cached, op: Op): Cached {
    match op
    case Fldz => Write(DeferPush(c), 0, POSITIVE_ZERO)
    case Fld1 => Write(DeferPush(c), 0, POSITIVE_ONE)
    case Fld(i) => Write(DeferPush(c), 0, Read(c, i))
    case Arith(fn, rev, d, s) => Write(c, d, Combine(fpu, fn, rev, Read(c, d), Read(c, s)))
    case ArithPop(fn, rev, d) => DeferPop(Write(c, d, Combine(fpu, fn, rev, Read(c, d), Read(c, 0))))
    case Unary(u) => Write(c, 0, fpu.unary(u, Read(c, 0)))
    case Fst(i) => Write(c, i, Read(c, 0))
    case Fstp(i) => DeferPop(Write(c, i, Read(c, 0)))
    case Fxch(i) => if i == 0 then c else c.(plan := c.plan.Swapped(i))
    case Fcom(i, pop) => DeferPopIf(WithCc(c, fpu.compare(Read(c, 0), Read(c, i))), pop)
    case Fcompp => DeferPop2(WithCc(c, fpu.compare(Read(c, 0), Read(c, 1))))
    case Ftst =>
      var f := FlushTop(FlushTags(c));
      WithCc(f, fpu.compare(Read(f, 0), POSITIVE_ZERO))
    case Fcomi(i, pop) => DeferPopIf(c.(flags := FcomiFlags(fpu.compare(Read(c, 0), Read(c, i)))), pop)
    case Fcmov(cond, i) =>
      var f := FlushTop(FlushTags(c));
      if CondHolds(cond, c.flags) then Write(f, 0, Read(f, i)) else f
    case Fstsw => ReadStatus(c)
    case Fldcw(v) =>
      var f := FlushTop(c);
      f.(mem := f.mem.(cw := v))
    case Fnop => c
  }

  function Deferred(fpu: Fpu, c: Cached, op: Op, last: bool): Cached {
    var b := Body(fpu, c, op);
    if op.Fstsw? then b else End(b, last)
  }

  /** A whole run; the last instruction is the one that finds run_remaining == 1. */
  function DeferredRun(fpu: Fpu, c: Cached, ops: seq<Op>): Cached
    decreases |ops|
  {
    if ops == [] then c else DeferredRun(fpu, Deferred(fpu, c, ops[0], |ops| == 1), ops[1..])
  }
}
