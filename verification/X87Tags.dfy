/**
 The tag word after any run, computed from the instructions and the entry TOP alone: which
 registers a run writes the tags of, and with what, deferred and undeferred.  Stack overflow,
 wrapped counters and updates that were never written are all included.
 */
module X87Tags {
  import opened Words
  import opened X87Model
  import opened X87Deferred
  import opened X87Refinement

  /** What a run has done to the tag of one physical register. */
  datatype Mark = Kept | Written(tag: Tag)

  type Marks = s: seq<Mark> | |s| == 8 witness [Kept, Kept, Kept, Kept, Kept, Kept, Kept, Kept]

  const UNTOUCHED: Marks := [Kept, Kept, Kept, Kept, Kept, Kept, Kept, Kept]

  /** TOP as it moves, and the tags written so far. */
  datatype Ring = Ring(top: Depth, marks: Marks)

  function Value(m: Mark, t: Tag): Tag {
    if m.Kept? then t else m.tag
  }

  function Apply(w: Marks, tags: Tags): Tags {
    seq(8, k requires 0 <= k < 8 => Value(w[k], tags[k]))
  }

  function Arc(w: Marks, first: int, count: int, v: Tag): Marks {
    seq(8, k requires 0 <= k < 8 => if InArc(k, first, count) then Written(v) else w[k])
  }

  // ---------------------------------------------------------------- undeferred

  function PushMark(g: Ring): Ring {
    Ring(Dec(g.top), g.marks[Dec(g.top) := Written(VALID)])
  }

  function PopMark(g: Ring): Ring {
    Ring(Inc(g.top), g.marks[g.top := Written(EMPTY)])
  }

  function EagerMark(g: Ring, op: Op): Ring {
    match op
    case Fldz => PushMark(g)
    case Fld1 => PushMark(g)
    case Fld(_) => PushMark(g)
    case ArithPop(_, _, _) => PopMark(g)
    case Fstp(_) => PopMark(g)
    case Fcom(_, pop) => if pop then PopMark(g) else g
    case Fcomi(_, pop) => if pop then PopMark(g) else g
    case Fcompp => PopMark(PopMark(g))
    case _ => g
  }

  function EagerMarks(g: Ring, ops: seq<Op>): Ring
    decreases |ops|
  {
    if ops == [] then g else EagerMarks(EagerMark(g, ops[0]), ops[1..])
  }

  // ---------------------------------------------------------------- deferred

  function PopsWritten(p: Plan, g: Ring): Ring {
    if p.pops > 0 then g.(marks := Arc(g.marks, g.top - p.pops, p.pops, EMPTY)) else g
  }

  function PushesWritten(p: Plan, g: Ring): Ring {
    if p.pushes > 0 then g.(marks := Arc(g.marks, g.top, p.pushes, VALID)) else g
  }

  function TagsWritten(p: Plan, g: Ring): Ring {
    PushesWritten(p, PopsWritten(p, g))
  }

  function DeferPushMark(p: Plan, g: Ring): Ring {
    var w := if p.pushes >= 8 then TagsWritten(p, g) else PopsWritten(p, g);
    w.(top := Dec(g.top))
  }

  function DeferPopMark(g: Ring): Ring {
    g.(top := Inc(g.top))
  }

  function DeferPop2Mark(p: Plan, g: Ring): Ring {
    var w := TagsWritten(p, g);
    Ring(Phys(g.top, 2), Arc(w.marks, g.top, 2, EMPTY))
  }

  function DeferMark(p: Plan, g: Ring, op: Op): Ring {
    match op
    case Fldz => DeferPushMark(p, g)
    case Fld1 => DeferPushMark(p, g)
    case Fld(_) => DeferPushMark(p, g)
    case ArithPop(_, _, _) => DeferPopMark(g)
    case Fstp(_) => DeferPopMark(g)
    case Fcom(_, pop) => if pop then DeferPopMark(g) else g
    case Fcomi(_, pop) => if pop then DeferPopMark(g) else g
    case Fcompp => DeferPop2Mark(p, g)
    case Ftst => TagsWritten(p, g)
    case Fcmov(_, _) => TagsWritten(p, g)
    case Fstsw => PushesWritten(p, g)
    case _ => g
  }

  /** The last instruction writes what is pending, unless it is FSTSW. */
  function StepMark(p: Plan, g: Ring, op: Op, last: bool): Ring {
    var w := DeferMark(p, g, op);
    if last && !op.Fstsw? then TagsWritten(p.Body(op), w) else w
  }

  function DeferMarks(p: Plan, g: Ring, ops: seq<Op>): Ring
    decreases |ops|
  {
    if ops == [] then g else DeferMarks(p.Step(ops[0], |ops| == 1), StepMark(p, g, ops[0], |ops| == 1), ops[1..])
  }

  // ---------------------------------------------------------------- marks follow the tag word

  lemma ArcApplied(w: Marks, tags: Tags, first: int, count: int, v: Tag)
    ensures Apply(Arc(w, first, count, v), tags) == SetTags(Apply(w, tags), first, count, v)
  {
    hide InArc;
  }

  lemma OneApplied(w: Marks, tags: Tags, k: Depth, v: Tag)
    ensures Apply(w[k := Written(v)], tags) == Apply(w, tags)[k := v]
  {
  }

  /** The state's tag word and TOP are those of g, starting from `tags`. */
  predicate Follows(c: Cached, g: Ring, tags: Tags) {
    c.top == g.top && c.mem.tags == Apply(g.marks, tags)
  }

  lemma FlushesFollow(c: Cached, g: Ring, tags: Tags)
    requires Follows(c, g, tags)
    ensures Follows(FlushPops(c), PopsWritten(c.plan, g), tags)
    ensures Follows(FlushPushes(c), PushesWritten(c.plan, g), tags)
  {
    ArcApplied(g.marks, tags, g.top - c.plan.pops, c.plan.pops, EMPTY);
    ArcApplied(g.marks, tags, g.top, c.plan.pushes, VALID);
    hide Apply, Arc, SetTags;
  }

  lemma BothFollow(c: Cached, g: Ring, tags: Tags)
    requires Follows(c, g, tags)
    ensures Follows(FlushTags(c), TagsWritten(c.plan, g), tags)
  {
    FlushesFollow(c, g, tags);
    var f := FlushPops(c);
    assert f.plan.pushes == c.plan.pushes;
    FlushesFollow(f, PopsWritten(c.plan, g), tags);
    assert PushesWritten(f.plan, PopsWritten(c.plan, g)) == TagsWritten(c.plan, g);
    hide FlushPops, FlushPushes, PopsWritten, PushesWritten, Follows;
  }

  lemma Unrelated(c: Cached)
    ensures FlushTop(c).mem.tags == c.mem.tags && FlushTop(c).top == c.top
    ensures FlushPerm(c).mem.tags == c.mem.tags && FlushPerm(c).top == c.top
    ensures FlushTop(c).plan.pops == c.plan.pops && FlushTop(c).plan.pushes == c.plan.pushes
    ensures FlushPerm(c).plan.pops == c.plan.pops && FlushPerm(c).plan.pushes == c.plan.pushes
  {
  }

  lemma PushFollows(c: Cached, g: Ring, tags: Tags)
    requires Follows(c, g, tags)
    ensures Follows(DeferPush(c), DeferPushMark(c.plan, g), tags)
  {
    FlushesFollow(c, g, tags);
    BothFollow(c, g, tags);
    var c1 := FlushPops(c);
    assert c1.plan.pushes == c.plan.pushes;
    var c2 := if c1.plan.pushes >= 8 then FlushPushes(c1) else c1;
    Unrelated(c2);
    Unrelated(FlushTop(c2));
    hide FlushPops, FlushPushes, FlushTop, FlushPerm, PopsWritten, PushesWritten, Apply;
  }

  lemma PopFollows(c: Cached, g: Ring, tags: Tags)
    requires Follows(c, g, tags)
    ensures Follows(DeferPop(c), DeferPopMark(g), tags)
  {
    Unrelated(c);
    hide FlushPerm, Apply;
  }

  lemma Pop2Follows(c: Cached, g: Ring, tags: Tags)
    requires Follows(c, g, tags)
    ensures Follows(DeferPop2(c), DeferPop2Mark(c.plan, g), tags)
  {
    BothFollow(c, g, tags);
    Unrelated(FlushTags(c));
    ArcApplied(TagsWritten(c.plan, g).marks, tags, g.top, 2, EMPTY);
    hide FlushTags, FlushPerm, TagsWritten, Apply, Arc, SetTags;
  }

  lemma SameTags(c: Cached, d: Cached, g: Ring, tags: Tags)
    requires Follows(c, g, tags) && d.mem.tags == c.mem.tags && d.top == c.top
    ensures Follows(d, g, tags)
  {
  }

  lemma BodyFollows(fpu: Fpu, c: Cached, op: Op, g: Ring, tags: Tags)
    requires Follows(c, g, tags)
    ensures Follows(Body(fpu, c, op), DeferMark(c.plan, g, op), tags)
  {
    hide Follows, Write, WithCc, DeferPush, DeferPop, DeferPop2, FlushTop, FlushTags, FlushPushes, Read, Combine, CondHolds, FcomiFlags, EncodeSw;
    hide DeferPushMark, DeferPopMark, DeferPop2Mark, TagsWritten, PushesWritten;
    match op
    case Fldz => PushFollows(c, g, tags); WriteFollows(DeferPush(c), 0, POSITIVE_ZERO, DeferPushMark(c.plan, g), tags);
    case Fld1 => PushFollows(c, g, tags); WriteFollows(DeferPush(c), 0, POSITIVE_ONE, DeferPushMark(c.plan, g), tags);
    case Fld(i) => PushFollows(c, g, tags); WriteFollows(DeferPush(c), 0, Read(c, i), DeferPushMark(c.plan, g), tags);
    case Arith(fn, rev, d, s) => WriteFollows(c, d, Combine(fpu, fn, rev, Read(c, d), Read(c, s)), g, tags);
    case ArithPop(fn, rev, d) =>
      var v := Combine(fpu, fn, rev, Read(c, d), Read(c, 0));
      WriteFollows(c, d, v, g, tags);
      PopFollows(Write(c, d, v), g, tags);
    case Unary(u) => WriteFollows(c, 0, fpu.unary(u, Read(c, 0)), g, tags);
    case Fst(i) => WriteFollows(c, i, Read(c, 0), g, tags);
    case Fstp(i) => WriteFollows(c, i, Read(c, 0), g, tags); PopFollows(Write(c, i, Read(c, 0)), g, tags);
    case Fxch(i) => SameTags(c, Body(fpu, c, op), g, tags);
    case Fcom(i, pop) =>
      var o := fpu.compare(Read(c, 0), Read(c, i));
      CcFollows(c, o, g, tags);
      PopFollows(WithCc(c, o), g, tags);
    case Fcompp =>
      var o := fpu.compare(Read(c, 0), Read(c, 1));
      CcFollows(c, o, g, tags);
      Pop2Follows(WithCc(c, o), g, tags);
      CcPlan(c, o);
    case Ftst => AllFlushed(c, g, tags); var f := FlushTop(FlushTags(c)); CcFollows(f, fpu.compare(Read(f, 0), POSITIVE_ZERO), TagsWritten(c.plan, g), tags);
    case Fcomi(i, pop) =>
      var d := c.(flags := FcomiFlags(fpu.compare(Read(c, 0), Read(c, i))));
      SameTags(c, d, g, tags);
      PopFollows(d, g, tags);
    case Fcmov(cond, i) => AllFlushed(c, g, tags); var f := FlushTop(FlushTags(c)); WriteFollows(f, 0, Read(f, i), TagsWritten(c.plan, g), tags);
    case Fstsw => StatusFollows(c, g, tags);
    case Fldcw(v) => ControlFollows(c, v, g, tags);
    case Fnop =>
  }

  lemma WriteFollows(c: Cached, d: Depth, v: Word, g: Ring, tags: Tags)
    requires Follows(c, g, tags)
    ensures Follows(Write(c, d, v), g, tags)
  {
  }

  lemma CcFollows(c: Cached, o: Order, g: Ring, tags: Tags)
    requires Follows(c, g, tags)
    ensures Follows(WithCc(c, o), g, tags)
  {
  }

  lemma CcPlan(c: Cached, o: Order)
    ensures WithCc(c, o).plan == c.plan
  {
  }

  lemma AllFlushed(c: Cached, g: Ring, tags: Tags)
    requires Follows(c, g, tags)
    ensures Follows(FlushTop(FlushTags(c)), TagsWritten(c.plan, g), tags)
  {
    BothFollow(c, g, tags);
    Unrelated(FlushTags(c));
    hide FlushTop, FlushTags, TagsWritten, Apply;
  }

  lemma StatusFollows(c: Cached, g: Ring, tags: Tags)
    requires Follows(c, g, tags)
    ensures Follows(ReadStatus(c), PushesWritten(c.plan, g), tags)
  {
    Unrelated(c);
    FlushesFollow(FlushTop(c), g, tags);
    hide FlushTop, FlushPushes, Apply, EncodeSw, Arc;
  }

  lemma ControlFollows(c: Cached, v: Half, g: Ring, tags: Tags)
    requires Follows(c, g, tags)
    ensures var f := FlushTop(c); Follows(f.(mem := f.mem.(cw := v)), g, tags)
  {
    Unrelated(c);
    hide FlushTop, Apply;
  }

  lemma EndFollows(c: Cached, g: Ring, tags: Tags)
    requires Follows(c, g, tags)
    ensures Follows(End(c, true), TagsWritten(c.plan, g), tags)
  {
    Unrelated(c);
    var f := FlushPerm(c);
    SameTags(c, f, g, tags);
    BothFollow(f, g, tags);
    Unrelated(FlushTags(f));
    assert TagsWritten(f.plan, g) == TagsWritten(c.plan, g);
    hide FlushTop, FlushPops, FlushPushes, FlushPerm, TagsWritten, Apply;
  }

  /** The marks of a run, applied to the tags it started from, are its tag word. */
  lemma {:induction false} RunFollows(fpu: Fpu, c: Cached, ops: seq<Op>, g: Ring, tags: Tags)
    requires Follows(c, g, tags)
    ensures Follows(DeferredRun(fpu, c, ops), DeferMarks(c.plan, g, ops), tags)
    decreases |ops|
  {
    if ops != [] {
      hide Follows, Body, DeferMark, End, TagsWritten, Plan.Body, Plan.Ended;
      var op, last := ops[0], |ops| == 1;
      BodyFollows(fpu, c, op, g, tags);
      BodyPlan(fpu, c, op);
      if last && !op.Fstsw? {
        EndFollows(Body(fpu, c, op), DeferMark(c.plan, g, op), tags);
      } else if !op.Fstsw? {
        EndNot(Body(fpu, c, op));
      }
      PlanIsStatic(fpu, c, op, last);
      RunFollows(fpu, Deferred(fpu, c, op, last), ops[1..], StepMark(c.plan, g, op, last), tags);
    }
  }

  lemma EndNot(c: Cached)
    ensures End(c, false) == c
  {
  }

  lemma BodyPlan(fpu: Fpu, c: Cached, op: Op)
    ensures Body(fpu, c, op).plan == c.plan.Body(op)
  {
    PlanIsStatic(fpu, c, op, false);
    EndNot(Body(fpu, c, op));
    hide Body, End, Plan.Body;
  }

  lemma EagerFollows(fpu: Fpu, a: Arch, op: Op, g: Ring, tags: Tags)
    requires a.mem.sw.top == g.top && a.mem.tags == Apply(g.marks, tags)
    ensures var b, h := Eager(fpu, a, op), EagerMark(g, op); b.mem.sw.top == h.top && b.mem.tags == Apply(h.marks, tags)
  {
    OneApplied(g.marks, tags, Dec(g.top), VALID);
    OneApplied(g.marks, tags, g.top, EMPTY);
    OneApplied(g.marks[g.top := Written(EMPTY)], tags, Inc(g.top), EMPTY);
    hide Apply, Dec, Inc, Combine, Get, CondHolds, FcomiFlags, EncodeSw;
  }

  lemma {:induction false} EagerRunFollows(fpu: Fpu, a: Arch, ops: seq<Op>, g: Ring, tags: Tags)
    requires a.mem.sw.top == g.top && a.mem.tags == Apply(g.marks, tags)
    ensures EagerRun(fpu, a, ops).mem.tags == Apply(EagerMarks(g, ops).marks, tags)
    decreases |ops|
  {
    if ops != [] {
      hide Eager, EagerMark, Apply;
      EagerFollows(fpu, a, ops[0], g, tags);
      EagerRunFollows(fpu, Eager(fpu, a, ops[0]), ops[1..], EagerMark(g, ops[0]), tags);
    }
  }

  // ---------------------------------------------------------------- the main result

  /** Equal writes, or one write of what is there already. */
  predicate SameMark(m: Mark, n: Mark, t: Tag) {
    m == n || (m.Kept? && n == Written(t)) || (n.Kept? && m == Written(t))
  }

  /** Do the deferred and the undeferred run write the same tags, entered with TOP and these tags? */
  predicate TagsRight(ops: seq<Op>, top: Depth, tags: Tags) {
    var d, e := DeferMarks(FRESH, Ring(top, UNTOUCHED), ops).marks, EagerMarks(Ring(top, UNTOUCHED), ops).marks;
    forall k: Depth :: SameMark(d[k], e[k], tags[k])
  }

  lemma MarksAgree(d: Marks, e: Marks, tags: Tags)
    ensures Apply(d, tags) == Apply(e, tags) <==> forall k: Depth :: SameMark(d[k], e[k], tags[k])
  {
    var x, y := Apply(d, tags), Apply(e, tags);
    forall k: Depth
      ensures x[k] == y[k] <==> SameMark(d[k], e[k], tags[k])
    {
    }
    if forall k: Depth :: SameMark(d[k], e[k], tags[k]) {
      assert forall k: Depth :: x[k] == y[k];
      assert x == y;
    }
  }

  lemma NoMarks(tags: Tags)
    ensures Apply(UNTOUCHED, tags) == tags
  {
  }

  /** For every run from every state, the tag words agree exactly when the instructions say so. */
  lemma TagsExact(fpu: Fpu, a: Arch, ops: seq<Op>)
    ensures DeferredRun(fpu, Enter(a), ops).mem.tags == EagerRun(fpu, a, ops).mem.tags
      <==> TagsRight(ops, a.mem.sw.top, a.mem.tags)
  {
    var tags, g := a.mem.tags, Ring(a.mem.sw.top, UNTOUCHED);
    NoMarks(tags);
    RunFollows(fpu, Enter(a), ops, g, tags);
    EagerRunFollows(fpu, a, ops, g, tags);
    MarksAgree(DeferMarks(FRESH, g, ops).marks, EagerMarks(g, ops).marks, tags);
    hide DeferredRun, EagerRun, DeferMarks, EagerMarks, Apply, SameMark;
  }
}
