/**
 The deferring translator against the undeferred one, over whole runs: what is always equal,
 and exactly when the rest is.
 */
module X87Refinement {
  import opened Words
  import opened X87Model
  import opened X87Deferred

  // ---------------------------------------------------------------- what the plan says

  function PlanRun(p: Plan, ops: seq<Op>): Plan
    decreases |ops|
  {
    if ops == [] then p else PlanRun(p.Step(ops[0], |ops| == 1), ops[1..])
  }

  /** Never more than 127 deferred pops, so that the int8_t counter does not wrap. */
  predicate PopsFit(p: Plan, ops: seq<Op>)
    decreases |ops|
  {
    ops == [] || (p.pops < 127 && PopsFit(p.Step(ops[0], |ops| == 1), ops[1..]))
  }

  /** The bookkeeping never depends on the guest's data. */
  lemma PlanIsStatic(fpu: Fpu, c: Cached, op: Op, last: bool)
    ensures Deferred(fpu, c, op, last).plan == c.plan.Step(op, last)
  {
    hide FlushTop, FlushPops, FlushPushes, FlushPerm, DeferPush, DeferPop, DeferPop2, ReadStatus, End;
    hide SetCc, Combine, CondHolds;
    hide Plan.AfterPush, Plan.AfterPop, Plan.AfterPop2, Plan.AfterStatus, Plan.Ended, Plan.TopFlushed,
      Plan.PopsFlushed, Plan.PushesFlushed;
  }

  predicate Pushes(op: Op) {
    op.Fldz? || op.Fld1? || op.Fld?
  }

  /** Every push of the run finds its register tagged empty (no x87 stack overflow). */
  ghost predicate NoOverflow(fpu: Fpu, a: Arch, ops: seq<Op>)
    decreases |ops|
  {
    ops == [] ||
    ((Pushes(ops[0]) ==> a.mem.tags[Dec(a.mem.sw.top)] == EMPTY) &&
     NoOverflow(fpu, Eager(fpu, a, ops[0]), ops[1..]))
  }

  // ---------------------------------------------------------------- the relation

  ghost predicate TagsAgree(c: Cached, a: Arch) {
    forall k: Depth ::
      && a.mem.tags[k] == (if InArc(k, c.top, c.plan.pushes) then VALID
                           else if InArc(k, c.top - c.plan.pops, c.plan.pops) then EMPTY
                           else c.mem.tags[k])
      && (InArc(k, c.top, c.plan.pushes) ==> c.mem.tags[k] == EMPTY)
  }

  /** The tag words agree once everything deferred is written. */
  ghost predicate TagsFollow(c: Cached, a: Arch) {
    c.plan.pops >= 0 && (c.plan.pushes == 0 || c.plan.pops == 0) && TagsAgree(c, a)
  }

  /** Everything else agrees in any case; `tags` says whether the tag words do. */
  ghost predicate Refines(c: Cached, a: Arch, tags: bool) {
    && (tags ==> TagsFollow(c, a))
    && c.plan.pushes <= 8
    && (!c.plan.permDirty ==> c.plan.perm == IDENTITY)
    && c.mem.cw == a.mem.cw
    && c.flags == a.flags
    && c.mem.sw.(top := c.top) == a.mem.sw
    && c.plan.lag == (c.mem.sw.top - c.top) % 8
    && (c.ax == a.ax <==> c.plan.axLag == 0)
    && (forall d: Depth :: Read(c, d) == Get(a.mem, d))
  }

  // ---------------------------------------------------------------- flushing changes nothing

  lemma FlushTopRefines(c: Cached, a: Arch, tags: bool)
    requires Refines(c, a, tags)
    ensures Refines(FlushTop(c), a, tags)
  {
  }

  lemma FlushPopsRefines(c: Cached, a: Arch, tags: bool)
    requires Refines(c, a, tags)
    ensures Refines(FlushPops(c), a, tags) && (tags ==> FlushPops(c).plan.pops == 0)
  {
  }

  lemma FlushPushesRefines(c: Cached, a: Arch, tags: bool)
    requires Refines(c, a, tags)
    ensures Refines(FlushPushes(c), a, tags) && FlushPushes(c).plan.pushes == 0
  {
  }

  lemma FlushPermRefines(c: Cached, a: Arch, tags: bool)
    requires Refines(c, a, tags)
    ensures Refines(FlushPerm(c), a, tags) && FlushPerm(c).plan.perm == IDENTITY
    ensures FlushPerm(c).mem.st == a.mem.st
  {
    var f := FlushPerm(c);
    forall k: Depth
      ensures f.mem.st[k] == a.mem.st[k]
    {
      var d: Depth := (k - c.top) % 8;
      assert Phys(c.top, d) == k;
      assert Read(c, d) == Get(a.mem, d);
    }
    assert f.mem.st == a.mem.st;
  }

  // ---------------------------------------------------------------- stack moves

  lemma ReadyToPush(c: Cached, a: Arch, tags: bool)
    requires Refines(c, a, tags) && (tags ==> a.mem.tags[Dec(c.top)] == EMPTY)
    ensures var b := BeforePush(c);
      && Refines(b, a, tags)
      && b.plan == c.plan.BeforePush()
      && b.top == c.top
      && (tags ==> b.plan.pops == 0 && b.plan.pushes == c.plan.pushes)
      && b.plan.pushes < 8
      && b.plan.perm == IDENTITY
      && b.mem.st == a.mem.st
  {
    assert InArc(Dec(c.top), c.top, 8);
    hide FlushPops, FlushPushes, FlushTop, FlushPerm, TagsAgree, Refines;
    FlushPopsRefines(c, a, tags);
    var c1 := FlushPops(c);
    FlushPushesRefines(c1, a, tags);
    var c2 := if c1.plan.pushes >= 8 then FlushPushes(c1) else c1;
    FlushTopRefines(c2, a, tags);
    FlushPermRefines(if c2.plan.pushes == 0 then FlushTop(c2) else c2, a, tags);
  }

  lemma ArcBelow(k: Depth, t: Depth, n: nat)
    requires n < 8
    ensures InArc(k, Dec(t), n + 1) <==> k == Dec(t) || InArc(k, t, n)
  {
  }

  lemma ArcAbove(k: Depth, t: Depth, n: nat)
    ensures InArc(k, Inc(t) - (n + 1), n + 1) <==> k == t || InArc(k, t - n, n)
  {
    assert Inc(t) - (n + 1) == t - n || Inc(t) - (n + 1) == t - n - 8;
  }

  /** With the same registers in memory, the same TOP and no permutation, every ST(d) agrees. */
  lemma SameSlots(c: Cached, a: Arch)
    requires c.plan.perm == IDENTITY && c.mem.st == a.mem.st && c.top == a.mem.sw.top
    ensures forall d: Depth :: Read(c, d) == Get(a.mem, d)
  {
    forall d: Depth
      ensures c.plan.Depth(d) == d
    {
    }
  }

  lemma PushTags(c: Cached, a: Arch)
    requires Refines(c, a, true) && a.mem.tags[Dec(c.top)] == EMPTY
    ensures TagsAgree(DeferPush(c), a.(mem := Push(a.mem)))
  {
    ReadyToPush(c, a, true);
    hide BeforePush, InArc;
    var b, p, q := BeforePush(c), DeferPush(c), a.(mem := Push(a.mem));
    forall k: Depth
      ensures InArc(k, p.top, p.plan.pushes) <==> k == p.top || InArc(k, b.top, b.plan.pushes)
      ensures !InArc(k, p.top - p.plan.pops, p.plan.pops) && !InArc(k, b.top - b.plan.pops, b.plan.pops)
    {
      ArcBelow(k, b.top, b.plan.pushes);
      NoArc(k, b.top);
      NoArc(k, p.top);
    }
    assert TagsAgree(b, a);
  }

  lemma NoArc(k: Depth, t: int)
    ensures !InArc(k, t, 0)
  {
  }

  lemma LagMoves(lag: Depth, m: Depth, t: Depth)
    requires lag == (m - t) % 8
    ensures (lag + 1) % 8 == (m - Dec(t)) % 8
    ensures (lag - 1) % 8 == (m - Inc(t)) % 8
    ensures (lag - 2) % 8 == (m - Phys(t, 2)) % 8
  {
    assert m - t == lag || m - t == lag - 8;
  }

  lemma PushRefines(c: Cached, a: Arch, tags: bool)
    requires Refines(c, a, tags) && (tags ==> a.mem.tags[Dec(c.top)] == EMPTY)
    ensures Refines(DeferPush(c), a.(mem := Push(a.mem)), tags)
  {
    ReadyToPush(c, a, tags);
    if tags { PushTags(c, a); }
    hide BeforePush, TagsAgree;
    hide Dec, Plan.BeforePush;
    var b, p, q := BeforePush(c), DeferPush(c), a.(mem := Push(a.mem));
    LagMoves(b.plan.lag, b.mem.sw.top, b.top);
    SameSlots(p, q);
  }

  /** A cancelled push leaves the tag it found, which is what the pop would have written. */
  lemma CancelTags(c: Cached, a: Arch)
    requires TagsAgree(c, a) && a.mem.sw.top == c.top
    requires 0 < c.plan.pushes <= 8 && c.plan.pops == 0
    ensures TagsAgree(DeferPop(c), a.(mem := Pop(a.mem)))
  {
    var p := DeferPop(c);
    hide FlushPerm;
    forall k: Depth
      ensures InArc(k, c.top, c.plan.pushes) <==> k == c.top || InArc(k, p.top, p.plan.pushes)
      ensures k == c.top ==> !InArc(k, p.top, p.plan.pushes)
      ensures !InArc(k, p.top - p.plan.pops, p.plan.pops) && !InArc(k, c.top - c.plan.pops, c.plan.pops)
    {
      ArcBelow(k, p.top, p.plan.pushes);
      NoArc(k, c.top);
      NoArc(k, p.top);
    }
    hide InArc, Inc, FlushPerm;
  }

  lemma DeferTags(c: Cached, a: Arch)
    requires TagsAgree(c, a) && a.mem.sw.top == c.top
    requires c.plan.pushes == 0 && 0 <= c.plan.pops < 127
    ensures TagsAgree(DeferPop(c), a.(mem := Pop(a.mem)))
  {
    var p := DeferPop(c);
    forall k: Depth
      ensures InArc(k, p.top - p.plan.pops, p.plan.pops) <==> k == c.top || InArc(k, c.top - c.plan.pops, c.plan.pops)
      ensures !InArc(k, p.top, p.plan.pushes) && !InArc(k, c.top, c.plan.pushes)
    {
      ArcAbove(k, c.top, c.plan.pops);
      NoArc(k, c.top);
      NoArc(k, p.top);
    }
    hide InArc, Inc, FlushPerm;
  }

  lemma PopRefines(c: Cached, a: Arch, tags: bool)
    requires Refines(c, a, tags) && (tags ==> c.plan.pops < 127)
    ensures Refines(DeferPop(c), a.(mem := Pop(a.mem)), tags)
  {
    FlushPermRefines(c, a, tags);
    if tags { if c.plan.pushes > 0 { CancelTags(c, a); } else { DeferTags(c, a); } }
    LagMoves(c.plan.lag, c.mem.sw.top, c.top);
    hide FlushPerm, TagsAgree, Inc;
    SameSlots(DeferPop(c), a.(mem := Pop(a.mem)));
  }

  lemma Pop2Tags(f: Cached, c: Cached, a: Arch)
    requires TagsAgree(f, a) && f.plan.pushes == 0 && f.plan.pops == 0 && f.top == c.top == a.mem.sw.top
    requires f == FlushTags(c)
    ensures TagsAgree(DeferPop2(c), a.(mem := Pop(Pop(a.mem))))
  {
    var p := DeferPop2(c);
    forall k: Depth
      ensures !InArc(k, p.top, 0) && !InArc(k, f.top, 0)
      ensures InArc(k, c.top, 2) <==> k == c.top || k == Inc(c.top)
    {
    }
    hide FlushTags, FlushPerm, InArc, Inc, Phys, Plan.AfterPop2;
    assert p.plan.pushes == 0 && p.plan.pops == 0;
    forall k: Depth
      ensures p.mem.tags[k] == Pop(Pop(a.mem)).tags[k]
    {
      assert f.mem.tags[k] == a.mem.tags[k];
    }
  }

  lemma Pop2Refines(c: Cached, a: Arch, tags: bool)
    requires Refines(c, a, tags)
    ensures Refines(DeferPop2(c), a.(mem := Pop(Pop(a.mem))), tags)
  {
    FlushPopsRefines(c, a, tags);
    FlushPushesRefines(FlushPops(c), a, tags);
    var f := FlushTags(c);
    FlushPermRefines(f, a, tags);
    LagMoves(f.plan.lag, f.mem.sw.top, f.top);
    if tags { Pop2Tags(f, c, a); }
    assert Inc(Inc(c.top)) == Phys(c.top, 2);
    hide FlushTags, FlushPerm, TagsAgree, Inc, Phys, SetTags;
    SameSlots(DeferPop2(c), a.(mem := Pop(Pop(a.mem))));
  }

  // ---------------------------------------------------------------- register contents

  lemma PhysInjective(t: Depth, d: Depth, e: Depth)
    requires d != e
    ensures Phys(t, d) != Phys(t, e)
  {
  }

  lemma WriteRefines(c: Cached, a: Arch, d: Depth, v: Word, tags: bool)
    requires Refines(c, a, tags)
    ensures Refines(Write(c, d, v), a.(mem := Put(a.mem, d, v)), tags)
  {
    var p, q := Write(c, d, v), a.(mem := Put(a.mem, d, v));
    hide Phys;
    forall e: Depth
      ensures Read(p, e) == Get(q.mem, e)
    {
      assert Read(c, e) == Get(a.mem, e);
      if e != d {
        PhysInjective(c.top, d, e);
        PhysInjective(c.top, c.plan.Depth(d), c.plan.Depth(e));
      }
    }
    assert tags ==> TagsAgree(c, a);
    assert tags ==> TagsAgree(p, q);
  }

  lemma CcRefines(c: Cached, a: Arch, o: Order, tags: bool)
    requires Refines(c, a, tags)
    ensures Refines(WithCc(c, o), a.(mem := a.mem.(sw := SetCc(a.mem.sw, o))), tags)
  {
    var p, q := WithCc(c, o), a.(mem := a.mem.(sw := SetCc(a.mem.sw, o)));
    assert forall d: Depth :: Read(p, d) == Read(c, d) && Get(q.mem, d) == Get(a.mem, d);
    assert tags ==> TagsAgree(c, a);
    assert tags ==> TagsAgree(p, q);
  }

  lemma SwapRefines(c: Cached, a: Arch, i: Depth, tags: bool)
    requires Refines(c, a, tags) && i != 0
    ensures Refines(c.(plan := c.plan.Swapped(i)), a.(mem := Swap(a.mem, i)), tags)
  {
    var p, q := c.(plan := c.plan.Swapped(i)), a.(mem := Swap(a.mem, i));
    forall d: Depth
      ensures Read(p, d) == Get(q.mem, d)
    {
      assert Read(c, d) == Get(a.mem, d) && Read(c, 0) == Get(a.mem, 0) && Read(c, i) == Get(a.mem, i);
      SwappedRead(c, i, d);
      SwappedGet(a.mem, i, d);
    }
    hide Read, Get, Swap;
    assert tags ==> TagsAgree(c, a);
    assert tags ==> TagsAgree(p, q);
    assert q == a.(mem := a.mem.(st := q.mem.st)) by { SwapKeeps(a.mem, i); }
  }

  lemma SwapKeeps(m: X87, i: Depth)
    ensures Swap(m, i) == m.(st := Swap(m, i).st)
  {
  }

  /** Reading through the swapped permutation. */
  lemma SwappedRead(c: Cached, i: Depth, d: Depth)
    requires (!c.plan.permDirty ==> c.plan.perm == IDENTITY) && i != 0
    ensures Read(c.(plan := c.plan.Swapped(i)), d) == Read(c, if d == 0 then i else if d == i then 0 else d)
  {
  }

  lemma SwappedGet(m: X87, i: Depth, d: Depth)
    requires i != 0
    ensures Get(Swap(m, i), d) == Get(m, if d == 0 then i else if d == i then 0 else d)
  {
    PhysInjective(m.sw.top, 0, i);
    if d != 0 { PhysInjective(m.sw.top, 0, d); }
    if d != i { PhysInjective(m.sw.top, i, d); }
    hide Phys;
  }

  /** The status word in memory is the real one exactly when TOP in memory is. */
  lemma StatusBits(f: Cached, a: Arch)
    requires f.mem.sw.(top := f.top) == a.mem.sw && f.plan.lag == (f.mem.sw.top - f.top) % 8
    ensures EncodeSw(f.mem.sw) == EncodeSw(a.mem.sw) <==> f.plan.lag == 0
  {
  }

  lemma WithAx(f: Cached, a: Arch, v: Half, w: Half, tags: bool)
    requires Refines(f, a, tags) && (v == w <==> f.plan.lag == 0)
    ensures Refines(f.(ax := v, plan := f.plan.(axLag := f.plan.lag)), a.(ax := w), tags)
  {
    var p, q := f.(ax := v, plan := f.plan.(axLag := f.plan.lag)), a.(ax := w);
    assert forall d: Depth :: Read(p, d) == Read(f, d) && Get(q.mem, d) == Get(a.mem, d);
    assert tags ==> TagsAgree(f, a);
    assert tags ==> TagsAgree(p, q);
  }

  lemma StatusRefines(c: Cached, a: Arch, tags: bool)
    requires Refines(c, a, tags)
    ensures Refines(ReadStatus(c), a.(ax := EncodeSw(a.mem.sw)), tags)
  {
    hide FlushTop, FlushPushes, EncodeSw, TagsAgree, Read, Get;
    FlushTopRefines(c, a, tags);
    FlushPushesRefines(FlushTop(c), a, tags);
    var f := FlushPushes(FlushTop(c));
    StatusBits(f, a);
    WithAx(f, a, EncodeSw(f.mem.sw), EncodeSw(a.mem.sw), tags);
    hide Refines;
  }

  lemma EndRefines(c: Cached, a: Arch, last: bool, tags: bool)
    requires Refines(c, a, tags)
    ensures Refines(End(c, last), a, tags)
  {
    hide Refines, FlushTop, FlushPops, FlushPushes, FlushPerm;
    FlushPermRefines(c, a, tags);
    FlushPopsRefines(FlushPerm(c), a, tags);
    FlushPushesRefines(FlushPops(FlushPerm(c)), a, tags);
    FlushTopRefines(FlushPushes(FlushPops(FlushPerm(c))), a, tags);
  }

  // ---------------------------------------------------------------- one instruction, whole runs

  lemma FlushAllRefines(c: Cached, a: Arch, tags: bool)
    requires Refines(c, a, tags)
    ensures Refines(FlushTop(FlushTags(c)), a, tags)
  {
    hide Refines, FlushTop, FlushPops, FlushPushes;
    FlushPopsRefines(c, a, tags);
    FlushPushesRefines(FlushPops(c), a, tags);
    FlushTopRefines(FlushTags(c), a, tags);
  }

  lemma SameFlags(c: Cached, a: Arch, f: Flags, w: Half, tags: bool)
    requires Refines(c, a, tags)
    ensures Refines(c.(flags := f), a.(flags := f), tags)
    ensures Refines(c.(mem := c.mem.(cw := w)), a.(mem := a.mem.(cw := w)), tags)
  {
    assert tags ==> TagsAgree(c, a);
    assert forall d: Depth :: Read(c, d) == Get(a.mem, d);
    var c1, a1 := c.(flags := f), a.(flags := f);
    assert tags ==> TagsAgree(c1, a1);
    assert forall d: Depth :: Read(c1, d) == Get(a1.mem, d);
    var c2, a2 := c.(mem := c.mem.(cw := w)), a.(mem := a.mem.(cw := w));
    assert tags ==> TagsAgree(c2, a2);
    assert forall d: Depth :: Read(c2, d) == Read(c, d) && Get(a2.mem, d) == Get(a.mem, d);
  }

  lemma SameReads(c: Cached, a: Arch, tags: bool)
    requires Refines(c, a, tags)
    ensures forall d: Depth :: Read(c, d) == Get(a.mem, d)
    ensures c.top == a.mem.sw.top && c.flags == a.flags
  {
  }

  predicate MovesOnly(op: Op) {
    op.Fldz? || op.Fld1? || op.Fld? || op.ArithPop? || op.Fstp? || op.Fcom? || op.Fcompp? || op.Fcomi?
  }

  lemma MoveRefines(fpu: Fpu, c: Cached, a: Arch, op: Op, tags: bool)
    requires Refines(c, a, tags) && (tags ==> c.plan.pops < 127) && MovesOnly(op)
    requires tags && Pushes(op) ==> a.mem.tags[Dec(a.mem.sw.top)] == EMPTY
    ensures Refines(Body(fpu, c, op), Eager(fpu, a, op), tags)
  {
    SameReads(c, a, tags);
    hide Refines, DeferPush, DeferPop, DeferPop2, Read, Get;
    hide Push, Pop, Put, SetCc, Write, WithCc, Combine, Dec, FcomiFlags, DeferPopIf, PopIf;
    hide Plan.AfterPush, Plan.AfterPop, Plan.AfterPop2;
    match op
    case Fldz => PushRefines(c, a, tags); WriteRefines(DeferPush(c), a.(mem := Push(a.mem)), 0, POSITIVE_ZERO, tags);
    case Fld1 => PushRefines(c, a, tags); WriteRefines(DeferPush(c), a.(mem := Push(a.mem)), 0, POSITIVE_ONE, tags);
    case Fld(i) => PushRefines(c, a, tags); WriteRefines(DeferPush(c), a.(mem := Push(a.mem)), 0, Read(c, i), tags);
    case ArithPop(fn, rev, d) => WritePopRefines(c, a, d, Combine(fpu, fn, rev, Read(c, d), Read(c, 0)), tags);
    case Fstp(i) => WritePopRefines(c, a, i, Read(c, 0), tags);
    case Fcom(i, pop) => CompareRefines(c, a, fpu.compare(Read(c, 0), Read(c, i)), pop, tags);
    case Fcompp =>
      var o := fpu.compare(Read(c, 0), Read(c, 1));
      CcRefines(c, a, o, tags);
      Pop2Refines(WithCc(c, o), a.(mem := a.mem.(sw := SetCc(a.mem.sw, o))), tags);
    case Fcomi(i, pop) =>
      var f := FcomiFlags(fpu.compare(Read(c, 0), Read(c, i)));
      SameFlags(c, a, f, 0, tags);
      PopIfRefines(c.(flags := f), a.(flags := f), pop, tags);
  }

  lemma BodyRefines(fpu: Fpu, c: Cached, a: Arch, op: Op, tags: bool)
    requires Refines(c, a, tags) && (tags ==> c.plan.pops < 127)
    requires tags && Pushes(op) ==> a.mem.tags[Dec(a.mem.sw.top)] == EMPTY
    ensures Refines(Body(fpu, c, op), Eager(fpu, a, op), tags)
  {
    if MovesOnly(op) {
      MoveRefines(fpu, c, a, op, tags);
      return;
    }
    SameReads(c, a, tags);
    hide Refines, FlushTop, FlushTags, DeferPush, DeferPop, DeferPop2, ReadStatus, Read, Get;
    hide Push, Pop, Put, Swap, SetCc, Write, WithCc, Combine, Dec, CondHolds, FcomiFlags, EncodeSw, DeferPopIf, PopIf;
    hide Plan.AfterStatus, Plan.TopFlushed, Plan.PopsFlushed, Plan.PushesFlushed, Plan.Swapped;
    match op
    case Arith(fn, rev, d, s) => WriteRefines(c, a, d, Combine(fpu, fn, rev, Read(c, d), Read(c, s)), tags);
    case Unary(u) => WriteRefines(c, a, 0, fpu.unary(u, Read(c, 0)), tags);
    case Fst(i) => WriteRefines(c, a, i, Read(c, 0), tags);
    case Fxch(i) => if i != 0 { SwapRefines(c, a, i, tags); } else { SwapZero(a.mem); }
    case Ftst =>
      FlushAllRefines(c, a, tags);
      SameReads(FlushTop(FlushTags(c)), a, tags);
      CcRefines(FlushTop(FlushTags(c)), a, fpu.compare(Get(a.mem, 0), POSITIVE_ZERO), tags);
    case Fcmov(cond, i) =>
      FlushAllRefines(c, a, tags);
      var f := FlushTop(FlushTags(c));
      SameReads(f, a, tags);
      WriteRefines(f, a, 0, Read(f, i), tags);
    case Fstsw => StatusRefines(c, a, tags);
    case Fldcw(w) => FlushTopRefines(c, a, tags); SameFlags(FlushTop(c), a, a.flags, w, tags);
    case _ =>
  }

  lemma WritePopRefines(c: Cached, a: Arch, d: Depth, v: Word, tags: bool)
    requires Refines(c, a, tags) && (tags ==> c.plan.pops < 127)
    ensures Refines(DeferPop(Write(c, d, v)), a.(mem := Pop(Put(a.mem, d, v))), tags)
  {
    WriteRefines(c, a, d, v, tags);
    WriteKeepsPlan(c, d, v);
    hide Refines, DeferPop, Pop, Put, Write;
    PopRefines(Write(c, d, v), a.(mem := Put(a.mem, d, v)), tags);
  }

  lemma WriteKeepsPlan(c: Cached, d: Depth, v: Word)
    ensures Write(c, d, v).plan == c.plan
  {
  }

  lemma SwapZero(m: X87)
    ensures Swap(m, 0) == m
  {
  }

  lemma PopIfRefines(c: Cached, a: Arch, pop: bool, tags: bool)
    requires Refines(c, a, tags) && (tags ==> c.plan.pops < 127)
    ensures Refines(DeferPopIf(c, pop), a.(mem := PopIf(a.mem, pop)), tags)
  {
    hide Refines, DeferPop, Pop;
    if pop { PopRefines(c, a, tags); }
  }

  lemma CompareRefines(c: Cached, a: Arch, o: Order, pop: bool, tags: bool)
    requires Refines(c, a, tags) && (tags ==> c.plan.pops < 127)
    ensures Refines(DeferPopIf(WithCc(c, o), pop), a.(mem := PopIf(a.mem.(sw := SetCc(a.mem.sw, o)), pop)), tags)
  {
    CcRefines(c, a, o, tags);
    assert WithCc(c, o).plan == c.plan;
    hide Refines, WithCc;
    PopIfRefines(WithCc(c, o), a.(mem := a.mem.(sw := SetCc(a.mem.sw, o))), pop, tags);
  }

  lemma {:induction false} RunRefines(fpu: Fpu, c: Cached, a: Arch, ops: seq<Op>, tags: bool)
    requires Refines(c, a, tags) && (tags ==> NoOverflow(fpu, a, ops) && PopsFit(c.plan, ops))
    ensures Refines(DeferredRun(fpu, c, ops), EagerRun(fpu, a, ops), tags)
    ensures DeferredRun(fpu, c, ops).plan == PlanRun(c.plan, ops)
    decreases |ops|
  {
    if ops != [] {
      hide Refines, Body, Eager, Plan.Body, Plan.Ended, End;
      var last := |ops| == 1;
      BodyRefines(fpu, c, a, ops[0], tags);
      EndRefines(Body(fpu, c, ops[0]), Eager(fpu, a, ops[0]), last, tags);
      PlanIsStatic(fpu, c, ops[0], last);
      RunRefines(fpu, Deferred(fpu, c, ops[0], last), Eager(fpu, a, ops[0]), ops[1..], tags);
    }
  }

  // ---------------------------------------------------------------- the main results

  /** The registers whose tag updates are still deferred when the run is over. */
  predicate LostPop(k: Depth, p: Plan, top: Depth) {
    InArc(k, top - p.pops, p.pops)
  }

  /**
   Every run, from every state, for every floating-point unit: the control word and the flags
   always agree; the status word agrees exactly when the bookkeeping ends with no lag, AX exactly
   when it had none at the last FSTSW, and the eight registers exactly when the exchange that was
   never written swaps equal values.
   */
  lemma RunExact(fpu: Fpu, a: Arch, ops: seq<Op>)
    ensures var d, e, p := Leave(DeferredRun(fpu, Enter(a), ops)), EagerRun(fpu, a, ops), PlanRun(FRESH, ops);
      && d.mem.cw == e.mem.cw
      && d.flags == e.flags
      && (d.mem.sw == e.mem.sw <==> p.lag == 0)
      && (d.ax == e.ax <==> p.axLag == 0)
      && (d.mem.st == e.mem.st <==> forall i: Depth :: Get(e.mem, p.perm[i]) == Get(e.mem, i))
  {
    var c := Enter(a);
    EnterRefines(a, false);
    RunRefines(fpu, c, a, ops, false);
    var f, e := DeferredRun(fpu, c, ops), EagerRun(fpu, a, ops);
    FinalRegisters(f, e);
    FinalStatus(f, e);
    hide *;
  }

  /**
   Without stack overflow, and with at most 127 pops pending, the tag words agree exactly when
   the pops whose update was never written hit registers already marked empty; X87Tags.TagsExact
   is the general statement.
   */
  lemma LostPopsOnly(fpu: Fpu, a: Arch, ops: seq<Op>)
    requires NoOverflow(fpu, a, ops) && PopsFit(FRESH, ops)
    ensures var d, e, p := Leave(DeferredRun(fpu, Enter(a), ops)), EagerRun(fpu, a, ops), PlanRun(FRESH, ops);
      d.mem.tags == e.mem.tags <==> forall k: Depth :: LostPop(k, p, e.mem.sw.top) ==> d.mem.tags[k] == EMPTY
  {
    var c := Enter(a);
    EnterRefines(a, true);
    RunRefines(fpu, c, a, ops, true);
    var f, e := DeferredRun(fpu, c, ops), EagerRun(fpu, a, ops);
    NoPendingPush(FRESH, ops);
    FinalTags(f, e);
    hide *;
  }

  /** A run never ends with a push still deferred. */
  lemma {:induction false} NoPendingPush(p: Plan, ops: seq<Op>)
    requires p.pushes == 0 || ops != []
    ensures PlanRun(p, ops).pushes == 0
    decreases |ops|
  {
    if ops != [] {
      hide Plan.AfterPush, Plan.AfterPop, Plan.AfterPop2, Plan.Swapped;
      NoPendingPush(p.Step(ops[0], |ops| == 1), ops[1..]);
    }
  }

  lemma FinalStatus(f: Cached, e: Arch)
    requires Refines(f, e, false)
    ensures f.mem.cw == e.mem.cw && f.flags == e.flags
    ensures f.mem.sw == e.mem.sw <==> f.plan.lag == 0
    ensures f.ax == e.ax <==> f.plan.axLag == 0
  {
    hide TagsAgree, Read, Get;
    assert f.mem.sw.top == f.top <==> f.plan.lag == 0;
  }

  lemma EnterRefines(a: Arch, tags: bool)
    ensures Refines(Enter(a), a, tags)
  {
    SameSlots(Enter(a), a);
    forall k: Depth
      ensures !InArc(k, a.mem.sw.top, 0)
    {
      NoArc(k, a.mem.sw.top);
    }
  }

  lemma FinalTags(f: Cached, e: Arch)
    requires Refines(f, e, true)
    requires f.plan.pushes == 0
    ensures f.mem.tags == e.mem.tags <==> forall k: Depth :: LostPop(k, f.plan, e.mem.sw.top) ==> f.mem.tags[k] == EMPTY
  {
    forall k: Depth
      ensures !InArc(k, f.top, 0)
    {
      NoArc(k, f.top);
    }
    hide InArc;
    assert TagsAgree(f, e);
    if forall k: Depth :: LostPop(k, f.plan, f.top) ==> f.mem.tags[k] == EMPTY {
      assert forall k: Depth :: f.mem.tags[k] == e.mem.tags[k];
      assert f.mem.tags == e.mem.tags;
    }
  }

  lemma PhysOnto(t: Depth, k: Depth)
    ensures Phys(t, (k - t) % 8) == k
  {
  }

  lemma FinalRegisters(f: Cached, e: Arch)
    requires Refines(f, e, false)
    ensures f.mem.st == e.mem.st <==> forall i: Depth :: Get(e.mem, f.plan.perm[i]) == Get(e.mem, i)
  {
    var perm, top := f.plan.perm, f.top;
    assert forall i: Depth :: f.plan.Depth(i) == perm[i];
    assert forall i: Depth :: Read(f, i) == Get(e.mem, i);
    hide TagsAgree, InArc, Phys;
    if forall i: Depth :: Get(e.mem, perm[i]) == Get(e.mem, i) {
      forall k: Depth
        ensures f.mem.st[k] == e.mem.st[k]
      {
        var i := PermInverse(perm, (k - top) % 8);
        PhysOnto(top, k);
        assert Get(e.mem, perm[i]) == Get(e.mem, i) == Read(f, i);
      }
      assert f.mem.st == e.mem.st;
    }
    if f.mem.st == e.mem.st {
      forall i: Depth
        ensures Get(e.mem, perm[i]) == Get(e.mem, i)
      {
        assert Read(f, i) == Get(e.mem, i);
      }
    }
  }

  lemma SubsetIsSmaller(s: set<Depth>, t: set<Depth>)
    requires s <= t
    ensures |s| <= |t|
  {
    if s != {} {
      var x :| x in s;
      SubsetIsSmaller(s - {x}, t - {x});
    }
  }

  lemma ImageOf(perm: Perm, n: nat) returns (s: set<Depth>)
    requires n <= 8
    ensures |s| == n && forall d :: d in s <==> exists i :: 0 <= i < n && perm[i] == d
  {
    s := {};
    if n > 0 {
      var r := ImageOf(perm, n - 1);
      s := r + {perm[n - 1]};
      assert perm[n - 1] !in r;
    }
  }

  /** A permutation of eight depths reaches every depth. */
  lemma PermInverse(perm: Perm, d: Depth) returns (i: Depth)
    ensures perm[i] == d
  {
    var s := ImageOf(perm, 8);
    if d !in s {
      SubsetIsSmaller(s, {0, 1, 2, 3, 4, 5, 6, 7} - {d});
    }
    i :| 0 <= i < 8 && perm[i] == d;
  }
}
