/**
 Consequences of X87Refinement.RunExact: which runs are always translated correctly, and the
 runs that are not.  The last part explains why cancelling a deferred push against a pop is
 allowed at all.
 */
module X87Runs {
  import opened Words
  import opened X87Model
  import opened X87Deferred
  import opened X87Refinement
  import opened X87Tags

  // ---------------------------------------------------------------- runs that are always right

  /** Without FLDCW, memory is only ever behind by the pushes of the current batch. */
  predicate InStep(p: Plan) {
    && (!p.permDirty ==> p.perm == IDENTITY)
    && (!p.dirty ==> p.lag == 0 && p.pushes == 0)
    && (0 < p.pushes <= 8 ==> p.lag == p.pushes % 8)
    && p.pushes <= 8
    && p.axLag == 0
  }

  lemma PushStaysInStep(p: Plan)
    requires InStep(p)
    ensures InStep(p.AfterPush())
  {
    var b := p.BeforePush();
    assert b.pushes == (if p.pushes >= 8 then 0 else p.pushes);
    assert b.lag == b.pushes % 8;
  }

  lemma BodyStaysInStep(p: Plan, op: Op)
    requires InStep(p) && !op.Fldcw?
    ensures InStep(p.Body(op))
  {
    if Pushes(op) {
      PushStaysInStep(p);
    }
    hide Plan.AfterPush;
  }

  lemma {:induction false} RunStaysInStep(p: Plan, ops: seq<Op>)
    requires InStep(p) && ops != [] && !ops[|ops| - 1].Fstsw?
    requires forall i :: 0 <= i < |ops| ==> !ops[i].Fldcw?
    ensures var e := PlanRun(p, ops); e.lag == 0 && e.axLag == 0 && e.perm == IDENTITY && e.pops <= 0
    decreases |ops|
  {
    hide Plan.Body;
    BodyStaysInStep(p, ops[0]);
    if |ops| > 1 {
      RunStaysInStep(p.Step(ops[0], false), ops[1..]);
    }
  }

  /**
   A run that contains no FLDCW and does not end in FSTSW leaves the registers, TOP and the rest
   of the status word, the control word, the flags and AX exactly as the undeferred translation
   does, from every state.
   */
  lemma PlainRunAgrees(fpu: Fpu, a: Arch, ops: seq<Op>)
    requires ops != [] && !ops[|ops| - 1].Fstsw?
    requires forall i :: 0 <= i < |ops| ==> !ops[i].Fldcw?
    ensures var d, e := Leave(DeferredRun(fpu, Enter(a), ops)), EagerRun(fpu, a, ops);
      d == e.(mem := e.mem.(tags := d.mem.tags))
  {
    RunStaysInStep(FRESH, ops);
    hide DeferredRun, EagerRun, PlanRun;
    RunExact(fpu, a, ops);
  }

  /** The tag word of such a run, and with it everything, is right exactly when the instructions say so. */
  lemma PlainRunTags(fpu: Fpu, a: Arch, ops: seq<Op>)
    requires ops != [] && !ops[|ops| - 1].Fstsw?
    requires forall i :: 0 <= i < |ops| ==> !ops[i].Fldcw?
    ensures Leave(DeferredRun(fpu, Enter(a), ops)) == EagerRun(fpu, a, ops) <==> TagsRight(ops, a.mem.sw.top, a.mem.tags)
  {
    hide DeferredRun, EagerRun, TagsRight;
    PlainRunAgrees(fpu, a, ops);
    TagsExact(fpu, a, ops);
  }

  /** In particular it is right without stack overflow, unless the counter of pending pops wraps. */
  lemma NoOverflowIsRight(fpu: Fpu, a: Arch, ops: seq<Op>)
    requires ops != [] && !ops[|ops| - 1].Fstsw?
    requires NoOverflow(fpu, a, ops) && PopsFit(FRESH, ops)
    ensures TagsRight(ops, a.mem.sw.top, a.mem.tags)
  {
    EndsFlushed(FRESH, ops);
    var p, e := PlanRun(FRESH, ops), EagerRun(fpu, a, ops);
    assert forall k: Depth :: !LostPop(k, p, e.mem.sw.top);
    hide DeferredRun, EagerRun, PlanRun, LostPop, TagsRight;
    LostPopsOnly(fpu, a, ops);
    TagsExact(fpu, a, ops);
  }

  /** Any run that does not end in FSTSW agrees in everything exactly when no lag is left and the tags are right. */
  lemma FullAgreement(fpu: Fpu, a: Arch, ops: seq<Op>)
    requires ops != [] && !ops[|ops| - 1].Fstsw?
    ensures Leave(DeferredRun(fpu, Enter(a), ops)) == EagerRun(fpu, a, ops)
      <==> PlanRun(FRESH, ops).lag == 0 && PlanRun(FRESH, ops).axLag == 0 && TagsRight(ops, a.mem.sw.top, a.mem.tags)
  {
    EndsFlushed(FRESH, ops);
    hide DeferredRun, EagerRun, PlanRun, TagsRight;
    RunExact(fpu, a, ops);
    TagsExact(fpu, a, ops);
  }

  lemma BodyKeepsPerm(p: Plan, op: Op)
    requires !p.permDirty ==> p.perm == IDENTITY
    ensures !p.Body(op).permDirty ==> p.Body(op).perm == IDENTITY
  {
  }

  lemma {:induction false} EndsFlushed(p: Plan, ops: seq<Op>)
    requires ops != [] && !ops[|ops| - 1].Fstsw?
    requires !p.permDirty ==> p.perm == IDENTITY
    ensures var e := PlanRun(p, ops); e.perm == IDENTITY && !e.permDirty && e.pops <= 0
    decreases |ops|
  {
    BodyKeepsPerm(p, ops[0]);
    hide Plan.Body;
    if |ops| > 1 {
      EndsFlushed(p.Step(ops[0], false), ops[1..]);
    }
  }

  lemma {:induction false} RunFollowsPlan(fpu: Fpu, c: Cached, ops: seq<Op>)
    ensures DeferredRun(fpu, c, ops).plan == PlanRun(c.plan, ops)
    decreases |ops|
  {
    if ops != [] {
      hide Deferred, Plan.Step;
      PlanIsStatic(fpu, c, ops[0], |ops| == 1);
      RunFollowsPlan(fpu, Deferred(fpu, c, ops[0], |ops| == 1), ops[1..]);
    }
  }

  // ---------------------------------------------------------------- runs that are not

  lemma RunCons(fpu: Fpu, c: Cached, a: Arch, op: Op, ops: seq<Op>)
    ensures DeferredRun(fpu, c, [op] + ops) == DeferredRun(fpu, Deferred(fpu, c, op, ops == []), ops)
    ensures EagerRun(fpu, a, [op] + ops) == EagerRun(fpu, Eager(fpu, a, op), ops)
  {
    hide Deferred, Eager;
    assert ([op] + ops)[1..] == ops;
  }

  lemma RunCons5(fpu: Fpu, c: Cached, a: Arch, o: Op, p: Op, q: Op, r: Op, s: Op)
    ensures DeferredRun(fpu, c, [o, p, q, r, s])
      == Deferred(fpu, Deferred(fpu, Deferred(fpu, Deferred(fpu, Deferred(fpu, c, o, false), p, false), q, false), r, false), s, true)
    ensures EagerRun(fpu, a, [o, p, q, r, s]) == Eager(fpu, Eager(fpu, Eager(fpu, Eager(fpu, Eager(fpu, a, o), p), q), r), s)
  {
    hide Deferred, Eager;
    assert [o, p, q, r, s] == [o] + ([p] + ([q] + ([r] + ([s] + []))));
    hide *;
    RunCons(fpu, c, a, o, [p] + ([q] + ([r] + ([s] + []))));
    var c1, a1 := Deferred(fpu, c, o, false), Eager(fpu, a, o);
    RunCons(fpu, c1, a1, p, [q] + ([r] + ([s] + [])));
    var c2, a2 := Deferred(fpu, c1, p, false), Eager(fpu, a1, p);
    RunCons(fpu, c2, a2, q, [r] + ([s] + []));
    var c3, a3 := Deferred(fpu, c2, q, false), Eager(fpu, a2, q);
    RunCons(fpu, c3, a3, r, [s] + []);
    var c4, a4 := Deferred(fpu, c3, r, false), Eager(fpu, a3, r);
    RunCons(fpu, c4, a4, s, []);
    RunNil(fpu, Deferred(fpu, c4, s, true), Eager(fpu, a4, s));
  }

  lemma RunNil(fpu: Fpu, c: Cached, a: Arch)
    ensures DeferredRun(fpu, c, []) == c && EagerRun(fpu, a, []) == a
  {
  }

  /** After FLD; FLDCW the batch is open but memory already holds its TOP. */
  lemma FldFldcw(fpu: Fpu, a: Arch, cw: Half) returns (c: Cached, b: Arch)
    ensures c == Deferred(fpu, Deferred(fpu, Enter(a), Fldz, false), Fldcw(cw), false)
    ensures b == Eager(fpu, Eager(fpu, a, Fldz), Fldcw(cw))
    ensures c.plan == Plan(false, 1, 0, IDENTITY, false, 0, 0)
    ensures c.top == c.mem.sw.top == b.mem.sw.top == Dec(a.mem.sw.top)
  {
    c := Deferred(fpu, Enter(a), Fldz, false);
    assert c.plan == Plan(true, 1, 0, IDENTITY, false, 1, 0);
    c := Deferred(fpu, c, Fldcw(cw), false);
    b := Eager(fpu, Eager(fpu, a, Fldz), Fldcw(cw));
  }

  lemma FldFstp(fpu: Fpu, c: Cached, b: Arch) returns (d: Cached, e: Arch)
    requires c.plan == Plan(false, 1, 0, IDENTITY, false, 0, 0) && c.top == c.mem.sw.top == b.mem.sw.top
    ensures d == Deferred(fpu, Deferred(fpu, c, Fldz, false), Fstp(0), false)
    ensures e == Eager(fpu, Eager(fpu, b, Fldz), Fstp(0))
    ensures d.plan == Plan(true, 1, 0, IDENTITY, false, 0, 0)
    ensures d.mem.sw.top == c.top && e.mem.sw.top == b.mem.sw.top
  {
    d := Deferred(fpu, c, Fldz, false);
    assert d.plan == Plan(true, 2, 0, IDENTITY, false, 1, 0) && d.mem.sw.top == c.top;
    d := Deferred(fpu, d, Fstp(0), false);
    e := Eager(fpu, Eager(fpu, b, Fldz), Fstp(0));
  }

  lemma LastFstp(fpu: Fpu, d: Cached, e: Arch)
    requires d.plan == Plan(true, 1, 0, IDENTITY, false, 0, 0)
    ensures Deferred(fpu, d, Fstp(0), true).mem.sw.top == d.mem.sw.top
    ensures Eager(fpu, e, Fstp(0)).mem.sw.top == Inc(e.mem.sw.top)
  {
  }

  lemma IncDec(t: Depth)
    ensures Inc(Dec(t)) == t
  {
  }

  /** FLD; FLDCW; FLD; FSTP; FSTP: from any state, memory ends with the wrong TOP. */
  lemma FldcwInsideBatch(fpu: Fpu, a: Arch, cw: Half)
    ensures var ops := [Fldz, Fldcw(cw), Fldz, Fstp(0), Fstp(0)];
      && EagerRun(fpu, a, ops).mem.sw.top == a.mem.sw.top
      && DeferredRun(fpu, Enter(a), ops).mem.sw.top == Dec(a.mem.sw.top)
  {
    hide *;
    var c, b := FldFldcw(fpu, a, cw);
    var d, e := FldFstp(fpu, c, b);
    LastFstp(fpu, d, e);
    IncDec(a.mem.sw.top);
    RunCons5(fpu, Enter(a), a, Fldz, Fldcw(cw), Fldz, Fstp(0), Fstp(0));
  }

  /** FXCH ST(1); FSTSW: the exchange is lost. */
  lemma ExchangeBeforeStatus(fpu: Fpu, a: Arch)
    ensures var ops := [Fxch(1), Fstsw];
      && DeferredRun(fpu, Enter(a), ops).mem.st == a.mem.st
      && (Leave(DeferredRun(fpu, Enter(a), ops)) == EagerRun(fpu, a, ops) <==> Get(a.mem, 0) == Get(a.mem, 1))
  {
  }

  /** FCOMP; FSTSW: the popped register keeps its old tag. */
  lemma PopBeforeStatus(fpu: Fpu, a: Arch)
    ensures var ops := [Fcom(1, true), Fstsw];
      && DeferredRun(fpu, Enter(a), ops).mem.tags == a.mem.tags
      && (Leave(DeferredRun(fpu, Enter(a), ops)) == EagerRun(fpu, a, ops) <==> a.mem.tags[a.mem.sw.top] == EMPTY)
  {
  }

  function Pops(n: nat): (ops: seq<Op>)
    ensures |ops| == n
  {
    if n == 0 then [] else [Fstp(0)] + Pops(n - 1)
  }

  lemma PopsUnfold(n: nat)
    requires n > 0
    ensures Pops(n) == [Fstp(0)] + Pops(n - 1) && Pops(n)[0] == Fstp(0) && Pops(n)[1..] == Pops(n - 1)
  {
  }

  lemma NextInt8(j: int)
    ensures Int8(Int8(j) + 1) == Int8(j + 1)
  {
    var q := (j + 128) / 256;
    assert Int8(j) == j - 256 * q;
    ShiftInt8(j + 1, q);
  }

  lemma ShiftInt8(j: int, q: int)
    ensures Int8(j - 256 * q) == Int8(j)
  {
  }

  /** How many of n pending pops are written at the end, the counter being an int8_t. */
  function Counted(n: nat): nat {
    if Int8(n) > 0 then Int8(n) else 0
  }

  lemma PopStep(p: Plan, g: Ring, last: bool)
    requires p.pushes == 0 && !p.permDirty
    ensures var q := p.Body(Fstp(0));
      && q.pushes == 0 && !q.permDirty && q.pops == Int8(p.pops + 1) && DeferMark(p, g, Fstp(0)) == g.(top := Inc(g.top))
      && (!last ==> p.Step(Fstp(0), last) == q)
  {
  }

  /** j pops are pending and n more follow. */
  lemma {:induction false} DeferredPops(p: Plan, g: Ring, j: nat, n: nat)
    requires n > 0 && p.pushes == 0 && !p.permDirty && p.pops == Int8(j)
    ensures DeferMarks(p, g, Pops(n)).marks == Arc(g.marks, (g.top + n) % 8 - Counted(j + n), Counted(j + n), EMPTY)
    decreases n
  {
    PopsUnfold(n);
    NextInt8(j);
    PopStep(p, g, n == 1);
    hide Int8, Plan.Step, Plan.Body, DeferMark, InArc;
    if n == 1 {
      assert Arc(g.marks, Inc(g.top), 0, EMPTY) == g.marks by { NoArcs(Inc(g.top)); }
      EmptyRun(p.Step(Fstp(0), true), StepMark(p, g, Fstp(0), true));
    } else {
      DeferredPops(p.Step(Fstp(0), false), g.(top := Inc(g.top)), j + 1, n - 1);
      assert (Inc(g.top) + (n - 1)) % 8 == (g.top + n) % 8;
    }
  }

  lemma EmptyRun(p: Plan, g: Ring)
    ensures DeferMarks(p, g, Pops(0)) == g && EagerMarks(g, Pops(0)) == g
  {
  }

  lemma NoArcs(t: int)
    ensures forall k: Depth :: !InArc(k, t, 0)
  {
  }

  lemma {:induction false} EagerPops(g: Ring, n: nat)
    ensures EagerMarks(g, Pops(n)).marks == Arc(g.marks, g.top, n, EMPTY)
    decreases n
  {
    if n == 0 {
      NoArcs(g.top);
      EmptyRun(FRESH, g);
    } else {
      PopsUnfold(n);
      var h := PopMark(g);
      EagerPops(h, n - 1);
      forall k: Depth
        ensures InArc(k, g.top, n) <==> k == g.top || InArc(k, h.top, n - 1)
      {
        ArcFront(k, g.top, n);
      }
      hide InArc, Inc;
    }
  }

  lemma ArcFront(k: Depth, t: Depth, n: nat)
    requires n > 0
    ensures InArc(k, t, n) <==> k == t || InArc(k, Inc(t), n - 1)
  {
  }

  /**
   A run of n pops, for every n: all registers it pops should be empty, but only the last Counted(n)
   updates are written.
   */
  lemma PopRun(n: nat, top: Depth, tags: Tags)
    requires n > 0
    ensures TagsRight(Pops(n), top, tags) <==>
      forall k: Depth :: InArc(k, top, n) && !InArc(k, (top + n) % 8 - Counted(n), Counted(n)) ==> tags[k] == EMPTY
  {
    hide Int8, Pops, DeferMarks, EagerMarks, Arc, InArc, Counted;
    NoneCounted();
    DeferredPops(FRESH, Ring(top, UNTOUCHED), 0, n);
    EagerPops(Ring(top, UNTOUCHED), n);
    var f := (top + n) % 8 - Counted(n);
    forall k: Depth
      ensures InArc(k, f, Counted(n)) ==> InArc(k, top, n)
    {
      if InArc(k, f, Counted(n)) {
        CountedFits(k, top, n);
      }
    }
    SmallerArc(f, Counted(n), top, n, tags);
  }

  lemma NoneCounted()
    ensures Int8(0) == 0 && Counted(128) == 0
  {
  }

  /** Emptying part of an arc is right exactly when the rest of it was empty. */
  lemma SmallerArc(f: int, c: nat, t: int, n: nat, tags: Tags)
    requires forall k: Depth :: InArc(k, f, c) ==> InArc(k, t, n)
    ensures (forall k: Depth :: SameMark(Arc(UNTOUCHED, f, c, EMPTY)[k], Arc(UNTOUCHED, t, n, EMPTY)[k], tags[k])) <==>
      forall k: Depth :: InArc(k, t, n) && !InArc(k, f, c) ==> tags[k] == EMPTY
  {
    var d, e := Arc(UNTOUCHED, f, c, EMPTY), Arc(UNTOUCHED, t, n, EMPTY);
    forall k: Depth
      ensures SameMark(d[k], e[k], tags[k]) <==> (InArc(k, t, n) && !InArc(k, f, c) ==> tags[k] == EMPTY)
    {
      assert UNTOUCHED[k] == Kept;
    }
    hide InArc, Arc, SameMark;
  }

  lemma CountedFits(k: Depth, top: Depth, n: nat)
    requires InArc(k, (top + n) % 8 - Counted(n), Counted(n))
    ensures InArc(k, top, n)
  {
    assert Counted(n) <= n;
  }

  /** 128 pops: nothing is written, and all eight registers should be empty. */
  lemma PopCounterWraps(fpu: Fpu, a: Arch)
    ensures DeferredRun(fpu, Enter(a), Pops(128)).mem.tags == a.mem.tags
    ensures EagerRun(fpu, a, Pops(128)).mem.tags == [EMPTY, EMPTY, EMPTY, EMPTY, EMPTY, EMPTY, EMPTY, EMPTY]
  {
    hide Int8, Counted, Pops, DeferMarks, EagerMarks, Arc, DeferredRun, EagerRun;
    var t, g := a.mem.sw.top, Ring(a.mem.sw.top, UNTOUCHED);
    NoneCounted();
    DeferredPops(FRESH, g, 0, 128);
    EagerPops(g, 128);
    NoMarks(a.mem.tags);
    RunFollows(fpu, Enter(a), Pops(128), g, a.mem.tags);
    EagerRunFollows(fpu, a, Pops(128), g, a.mem.tags);
    ArcOfNone(a.mem.tags, (t as int + 128) % 8);
    ArcOfAll(a.mem.tags, t, 128);
    hide Apply;
  }

  lemma ArcOfNone(tags: Tags, t: int)
    ensures Apply(Arc(UNTOUCHED, t, 0, EMPTY), tags) == tags
  {
    NoArcs(t);
    hide InArc;
  }

  lemma ArcOfAll(tags: Tags, t: int, n: nat)
    requires n >= 8
    ensures Apply(Arc(UNTOUCHED, t, n, EMPTY), tags) == [EMPTY, EMPTY, EMPTY, EMPTY, EMPTY, EMPTY, EMPTY, EMPTY]
  {
    assert forall k: Depth :: InArc(k, t, n);
    hide InArc;
  }

  // ---------------------------------------------------------------- why cancelling is allowed

  /** A balanced sequence of pushes and pops: push, inner, pop, rest. */
  datatype Balanced = Nothing | Nest(inner: Balanced, rest: Balanced)

  function Play(w: Balanced, m: X87): X87
    decreases w
  {
    match w
    case Nothing => m
    case Nest(inner, rest) => Play(rest, Pop(Play(inner, Push(m))))
  }

  function Height(w: Balanced): nat {
    match w
    case Nothing => 0
    case Nest(inner, rest) => var h := 1 + Height(inner); if h > Height(rest) then h else Height(rest)
  }

  /** Played out, a balanced sequence only marks the registers it passed through as empty. */
  lemma {:induction false} BalancedEffect(w: Balanced, m: X87)
    ensures Play(w, m) == m.(tags := SetTags(m.tags, m.sw.top - Height(w), Height(w), EMPTY))
    decreases w
  {
    hide Push, Pop, SetTags, InArc;
    match w
    case Nothing =>
      forall k: Depth
        ensures !InArc(k, m.sw.top, 0)
      {
        NoArc(k, m.sw.top);
      }
      SetTagsIsNoop(m.tags, m.sw.top, 0);
    case Nest(inner, rest) =>
      BalancedEffect(inner, Push(m));
      var n := Pop(Play(inner, Push(m)));
      BalancedEffect(rest, n);
      NestTags(m, n, Height(inner), Height(rest));
  }

  lemma NestTags(m: X87, n: X87, h: nat, r: nat)
    requires n == Pop(Push(m).(tags := SetTags(Push(m).tags, Push(m).sw.top - h, h, EMPTY)))
    ensures n == m.(tags := n.tags)
    ensures var g := if h + 1 > r then h + 1 else r;
      SetTags(n.tags, m.sw.top - r, r, EMPTY) == SetTags(m.tags, m.sw.top - g, g, EMPTY)
  {
    var t, g := m.sw.top, if h + 1 > r then h + 1 else r;
    var x, y := SetTags(n.tags, t - r, r, EMPTY), SetTags(m.tags, t - g, g, EMPTY);
    hide InArc, Dec, Inc;
    IncDec(t);
    forall k: Depth
      ensures x[k] == y[k]
    {
      ArcBehind(k, t, h);
      ArcGrows(k, t, h + 1, g);
      ArcGrows(k, t, r, g);
    }
  }

  lemma ArcBehind(k: Depth, t: Depth, h: nat)
    ensures InArc(k, t - (h + 1), h + 1) <==> k == Dec(t) || InArc(k, Dec(t) - h, h)
  {
    assert Dec(t) - h == t - (h + 1) || Dec(t) - h == t - (h + 1) + 8;
  }

  lemma NextRemainder(x: int)
    ensures (x + 1) % 8 <= x % 8 + 1
  {
  }

  lemma {:induction false} ArcGrows(k: Depth, t: Depth, h: nat, g: nat)
    requires h <= g
    ensures InArc(k, t - h, h) ==> InArc(k, t - g, g)
    decreases g
  {
    if g > h {
      ArcGrows(k, t, h, g - 1);
      NextRemainder(k - (t - (g - 1)));
      assert k - (t - g) == k - (t - (g - 1)) + 1;
    }
  }

  lemma SetTagsIsNoop(tags: Tags, first: int, count: int)
    ensures SetTags(tags, first, count, EMPTY) == tags <==> forall k: Depth :: InArc(k, first, count) ==> tags[k] == EMPTY
  {
    var s := SetTags(tags, first, count, EMPTY);
    assert forall k: Depth :: s[k] == if InArc(k, first, count) then EMPTY else tags[k];
    hide InArc, SetTags;
    if forall k: Depth :: InArc(k, first, count) ==> tags[k] == EMPTY {
      assert s == tags;
    }
  }

  /**
   Cancelling every tag update of a balanced sequence is right exactly when all the registers
   it would pass through are already tagged empty.
   */
  lemma CancellingIsExact(w: Balanced, m: X87)
    ensures Play(w, m) == m <==> forall k: Depth :: InArc(k, m.sw.top - Height(w), Height(w)) ==> m.tags[k] == EMPTY
  {
    BalancedEffect(w, m);
    SetTagsIsNoop(m.tags, m.sw.top - Height(w), Height(w));
    hide *;
  }

  // ---------------------------------------------------------------- and what a deferred run makes of it

  /** The balanced sequence as instructions. */
  function OpsOf(w: Balanced): seq<Op>
    decreases w
  {
    match w
    case Nothing => []
    case Nest(inner, rest) => [Fldz] + OpsOf(inner) + ([Fstp(0)] + OpsOf(rest))
  }

  /** Bookkeeping and marks in the middle of a run: nothing ends here. */
  function Middle(p: Plan, g: Ring, ops: seq<Op>): (Plan, Ring)
    decreases |ops|
  {
    if ops == [] then (p, g) else Middle(p.Body(ops[0]), DeferMark(p, g, ops[0]), ops[1..])
  }

  lemma {:induction false} MiddleAppend(p: Plan, g: Ring, a: seq<Op>, b: seq<Op>)
    ensures Middle(p, g, a + b) == var (q, h) := Middle(p, g, a); Middle(q, h, b)
    decreases |a|
  {
    hide Plan.Body, DeferMark;
    if a == [] {
      assert a + b == b;
    } else {
      assert (a + b)[1..] == a[1..] + b;
      MiddleAppend(p.Body(a[0]), DeferMark(p, g, a[0]), a[1..], b);
    }
  }

  lemma MiddleOne(p: Plan, g: Ring, op: Op)
    ensures Middle(p, g, [op]) == (p.Body(op), DeferMark(p, g, op))
  {
    hide Plan.Body, DeferMark;
    assert [op][1..] == [];
    assert Middle(p.Body(op), DeferMark(p, g, op), []) == (p.Body(op), DeferMark(p, g, op));
  }

  /** A run is its middle and the final flush. */
  lemma {:induction false} RunIsMiddle(p: Plan, g: Ring, ops: seq<Op>)
    requires ops != [] && !ops[|ops| - 1].Fstsw?
    ensures DeferMarks(p, g, ops) == var (q, h) := Middle(p, g, ops); TagsWritten(q, h)
    decreases |ops|
  {
    hide Plan.Body, DeferMark, TagsWritten;
    var op := ops[0];
    if |ops| == 1 {
      assert ops[1..] == [];
      assert Middle(p.Body(op), DeferMark(p, g, op), []) == (p.Body(op), DeferMark(p, g, op));
    } else {
      assert p.Step(op, false) == p.Body(op);
      RunIsMiddle(p.Body(op), DeferMark(p, g, op), ops[1..]);
    }
  }

  lemma CancelStep(p: Plan, g: Ring)
    ensures p.pushes < 8 && p.pops == 0 ==>
      var q := p.Body(Fldz);
      q.pushes == p.pushes + 1 && q.pops == 0 && DeferMark(p, g, Fldz) == g.(top := Dec(g.top))
    ensures p.pushes > 0 ==>
      var q := p.Body(Fstp(0));
      q.pushes == p.pushes - 1 && q.pops == p.pops && DeferMark(p, g, Fstp(0)) == g.(top := Inc(g.top))
  {
  }

  /** A balanced sequence that fits into the batch is cancelled completely. */
  lemma {:induction false} Cancelled(w: Balanced, p: Plan, g: Ring)
    requires p.pushes + Height(w) <= 8 && p.pops == 0
    ensures var (q, h) := Middle(p, g, OpsOf(w)); q.pushes == p.pushes && q.pops == 0 && h == g
    decreases w
  {
    hide Plan.Body, DeferMark;
    match w
    case Nothing =>
    case Nest(inner, rest) =>
      var (p1, g1) := Middle(p, g, [Fldz]);
      MiddleOne(p, g, Fldz);
      CancelStep(p, g);
      Cancelled(inner, p1, g1);
      var (p2, g2) := Middle(p1, g1, OpsOf(inner));
      MiddleOne(p2, g2, Fstp(0));
      CancelStep(p2, g2);
      var (p3, g3) := Middle(p2, g2, [Fstp(0)]);
      IncDec(g.top);
      Cancelled(rest, p3, g3);
      MiddleAppend(p, g, [Fldz] + OpsOf(inner), [Fstp(0)] + OpsOf(rest));
      MiddleAppend(p, g, [Fldz], OpsOf(inner));
      MiddleAppend(p2, g2, [Fstp(0)], OpsOf(rest));
  }

  lemma OpsEnd(w: Balanced)
    requires w.Nest?
    ensures OpsOf(w) != [] && !OpsOf(w)[|OpsOf(w)| - 1].Fstsw?
    decreases w
  {
    if w.rest.Nest? {
      OpsEnd(w.rest);
    } else {
      assert OpsOf(w.rest) == [];
    }
  }

  // ---------------------------------------------------------------- undeferred

  lemma EagerPair(fpu: Fpu, a: Arch, p: Op, q: Op)
    ensures EagerRun(fpu, a, [p, q]) == Eager(fpu, Eager(fpu, a, p), q)
  {
    hide Eager;
    assert [p, q][1..] == [q] && [q][1..] == [];
    assert EagerRun(fpu, Eager(fpu, a, p), [q]) == EagerRun(fpu, Eager(fpu, Eager(fpu, a, p), q), []);
  }

  lemma {:induction false} EagerAppend(fpu: Fpu, a: Arch, x: seq<Op>, y: seq<Op>)
    ensures EagerRun(fpu, a, x + y) == EagerRun(fpu, EagerRun(fpu, a, x), y)
    decreases |x|
  {
    hide Eager;
    if x == [] {
      assert x + y == y;
    } else {
      assert (x + y)[1..] == x[1..] + y;
      EagerAppend(fpu, Eager(fpu, a, x[0]), x[1..], y);
    }
  }

  /** Status word and tags. */
  predicate SameStack(m: X87, n: X87) {
    m.sw == n.sw && m.tags == n.tags
  }

  lemma EagerPushPop(fpu: Fpu, a: Arch, m: X87)
    requires SameStack(a.mem, m)
    ensures SameStack(EagerRun(fpu, a, [Fldz]).mem, Push(m)) && SameStack(EagerRun(fpu, a, [Fstp(0)]).mem, Pop(m))
  {
    RunCons(fpu, Enter(a), a, Fldz, []);
    RunCons(fpu, Enter(a), a, Fstp(0), []);
    RunNil(fpu, Enter(a), Eager(fpu, a, Fldz));
    RunNil(fpu, Enter(a), Eager(fpu, a, Fstp(0)));
    assert [Fldz] + [] == [Fldz] && [Fstp(0)] + [] == [Fstp(0)];
    hide EagerRun, DeferredRun, Deferred;
  }

  lemma {:induction false} EagerBalanced(fpu: Fpu, a: Arch, w: Balanced, m: X87)
    requires SameStack(a.mem, m)
    ensures SameStack(EagerRun(fpu, a, OpsOf(w)).mem, Play(w, m))
    decreases w
  {
    match w
    case Nothing => RunNil(fpu, Enter(a), a);
    case Nest(inner, rest) =>
      hide EagerRun, Push, Pop, SameStack;
      EagerPushPop(fpu, a, m);
      var a1 := EagerRun(fpu, a, [Fldz]);
      EagerBalanced(fpu, a1, inner, Push(m));
      var a2 := EagerRun(fpu, a1, OpsOf(inner));
      EagerPushPop(fpu, a2, Play(inner, Push(m)));
      var a3 := EagerRun(fpu, a2, [Fstp(0)]);
      EagerBalanced(fpu, a3, rest, Pop(Play(inner, Push(m))));
      EagerAppend(fpu, a, [Fldz] + OpsOf(inner), [Fstp(0)] + OpsOf(rest));
      EagerAppend(fpu, a, [Fldz], OpsOf(inner));
      EagerAppend(fpu, a2, [Fstp(0)], OpsOf(rest));
  }

  /**
   A run of balanced pushes and pops that fits into one batch leaves the tag word in memory as it
   was.  That is what the instructions mean if and only if the registers they pass through were
   empty.
   */
  lemma CancelledRun(fpu: Fpu, a: Arch, w: Balanced)
    requires w.Nest? && Height(w) <= 8
    ensures var d, e := DeferredRun(fpu, Enter(a), OpsOf(w)), EagerRun(fpu, a, OpsOf(w));
      && d.mem.tags == a.mem.tags
      && (d.mem.tags == e.mem.tags <==>
            forall k: Depth :: InArc(k, a.mem.sw.top - Height(w), Height(w)) ==> a.mem.tags[k] == EMPTY)
  {
    hide DeferredRun, EagerRun, DeferMarks, OpsOf, Play, SetTags, Middle, Height, Apply;
    var g := Ring(a.mem.sw.top, UNTOUCHED);
    OpsEnd(w);
    Cancelled(w, FRESH, g);
    RunIsMiddle(FRESH, g, OpsOf(w));
    NoMarks(a.mem.tags);
    RunFollows(fpu, Enter(a), OpsOf(w), g, a.mem.tags);
    EagerBalanced(fpu, a, w, a.mem);
    BalancedEffect(w, a.mem);
    SetTagsIsNoop(a.mem.tags, a.mem.sw.top - Height(w), Height(w));
  }
}
