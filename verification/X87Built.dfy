/** A run while its list is built: tag word, slots, and values, instruction by instruction. */
module X87Built {
  import opened Words
  import opened X87Model
  import opened X87Refinement
  import opened I = X87IR
  import opened X87ConstArith
  import opened X87Fused
  import opened X87FusedRuns
  import opened X87Build
  import opened X87Denotes
  import X87Ops

  // ---------------------------------------------------------------- runs without stack faults

  predicate SafeRun(fpu: Fpu, a: Arch, ops: seq<X87Model.Op>)
    decreases |ops|
  {
    ops == [] || (Safe(a.mem, ops[0]) && SafeRun(fpu, Eager(fpu, a, ops[0]), ops[1..]))
  }

  /** How far an instruction moves TOP. */
  function Moves(op: X87Model.Op): int {
    match op
    case Fldz => -1
    case Fld1 => -1
    case Fld(_) => -1
    case ArithPop(_, _, _) => 1
    case Fstp(_) => 1
    case Fcom(_, pop) => if pop then 1 else 0
    case Fcomi(_, pop) => if pop then 1 else 0
    case Fcompp => 2
    case _ => 0
  }

  /** TOP stays, and the list does not get shorter. */
  predicate Longer(b: Draft, c: Draft) {
    c.delta == b.delta && |b.nodes| <= |c.nodes|
  }

  lemma ResolveDelta()
    ensures forall b: Draft, d: Depth :: Shape(b) ==> Longer(b, Resolve(b, d).b)
  {
  }

  lemma AddDelta()
    ensures forall b: Draft, n: Node :: Longer(b, AddNode(b, n).b)
  {
  }

  lemma ArithDelta(b: Draft, op: I.Op, rev: bool, d: Depth, f: Depth)
    requires Shape(b)
    ensures Longer(b, BuildArith(b, op, rev, d, f).b)
  {
    ResolveDelta();
    AddDelta();
    hide Resolve, AddNode;
  }

  lemma CompareDelta(b: Draft, i: Depth)
    requires Shape(b)
    ensures Longer(b, BuildFcom(b, i).b) && Longer(b, BuildFcomi(b, i).b)
  {
    ResolveDelta();
    AddDelta();
    hide Resolve, AddNode;
  }

  lemma SlotDelta(b: Draft, i: Depth, u: UnaryFn, cond: Cond)
    requires Shape(b)
    ensures Longer(b, BuildFst(b, i).b) && Longer(b, BuildUnary(b, u).b) && Longer(b, BuildFcmov(b, cond, i).b)
    ensures Longer(b, BuildFxch(b, i).b) && Longer(b, BuildFtst(b).b)
  {
    ResolveDelta();
    AddDelta();
    hide Resolve, AddNode;
  }

  lemma BuildDelta(b: Draft, op: X87Model.Op)
    requires Shape(b)
    ensures var r := BuildOp(b, op); r.b.delta == (b.delta + if r.ok then Moves(op) else 0) && |b.nodes| <= |r.b.nodes|
  {
    ResolveDelta();
    AddDelta();
    hide Resolve, AddNode, BuildArith, BuildFcom, BuildFcomi, BuildFst, BuildUnary, BuildFcmov, BuildFxch, BuildFtst;
    match op
    case Arith(fn, rev, d, f) => ArithDelta(b, BinaryOf(fn), rev, d, f);
    case ArithPop(fn, rev, d) => ArithDelta(b, BinaryOf(fn), rev, d, 0);
    case Unary(u) => SlotDelta(b, 0, u, Eq);
    case Fst(i) => SlotDelta(b, i, Chs, Eq);
    case Fstp(i) => SlotDelta(b, i, Chs, Eq);
    case Fxch(i) => SlotDelta(b, i, Chs, Eq);
    case Fcom(i, _) => CompareDelta(b, i);
    case Fcompp => CompareDelta(b, 1);
    case Fcomi(i, _) => CompareDelta(b, i);
    case Ftst => SlotDelta(b, 0, Chs, Eq);
    case Fcmov(cond, i) => SlotDelta(b, i, Chs, cond);
    case _ =>
  }

  // ---------------------------------------------------------------- the tag word

  /**
   The tag word as the lowering writes it: the registers popped below the entry TOP become empty, those
   pushed above it valid.
   */
  function TagsAfter(tags: Tags, top: Depth, delta: int): Tags {
    if delta > 0 then SetTags(tags, top - delta, delta, EMPTY)
    else if delta < 0 then SetTags(tags, top, -delta, VALID)
    else tags
  }

  /** What is known of register k. */
  predicate TagAt(tags: Tags, delta: int, e: X87, k: Depth) {
    && (e.tags[k] == EMPTY <==>
          if InArc(k, e.sw.top - delta, delta) then true
          else if InArc(k, e.sw.top, -delta) then false
          else tags[k] == EMPTY)
    && (InArc(k, e.sw.top - delta, delta) ==> tags[k] != EMPTY)
    && (InArc(k, e.sw.top, -delta) ==> tags[k] == EMPTY)
  }

  /** Without stack faults, TOP moves over filled registers upwards and over empty ones downwards. */
  ghost predicate TagsMove(tags: Tags, delta: int, e: X87) {
    -8 <= delta <= 8 && forall k: Depth :: TagAt(tags, delta, e, k)
  }

  lemma FewPops(tags: Tags, delta: int, e: X87)
    requires TagsMove(tags, delta, e) && e.tags[e.sw.top] != EMPTY
    ensures delta < 8
  {
    assert InArc(e.sw.top, e.sw.top - 8, 8);
    assert TagAt(tags, delta, e, e.sw.top);
  }

  lemma FewPushes(tags: Tags, delta: int, e: X87)
    requires TagsMove(tags, delta, e) && e.tags[Dec(e.sw.top)] == EMPTY
    ensures delta > -8
  {
    assert InArc(Dec(e.sw.top), e.sw.top, 8);
    assert !InArc(Dec(e.sw.top), e.sw.top + 8, -8);
    assert TagAt(tags, delta, e, Dec(e.sw.top));
  }

  lemma NoArcBelow(k: Depth, t: int, n: int)
    requires n <= 0
    ensures !InArc(k, t, n)
  {
  }

  lemma InnerArc(t: Depth, n: nat)
    requires n < 8
    ensures !InArc(t, Inc(t), n) && !InArc(t, t - n, n) && !InArc(Dec(t), t, n)
  {
  }

  /** The arcs of registers that were popped, and pushed, before and after a pop at t. */
  predicate PopArcs(k: Depth, t: Depth, delta: int) {
    && (delta >= 0 ==> (InArc(k, Inc(t) - (delta + 1), delta + 1) <==> k == t || InArc(k, t - delta, delta)))
    && (delta < 0 ==> (InArc(k, t, -delta) <==> k == t || InArc(k, Inc(t), -delta - 1)))
    && (delta >= 0 ==> !InArc(k, t, -delta) && !InArc(k, Inc(t), -delta - 1))
    && (delta < 0 ==> !InArc(k, t - delta, delta) && !InArc(k, Inc(t) - (delta + 1), delta + 1))
  }

  lemma PopArcsHold(k: Depth, t: Depth, delta: int)
    requires -8 <= delta < 8
    ensures PopArcs(k, t, delta)
  {
    if delta >= 0 {
      ArcAbove(k, t, delta);
      NoArcBelow(k, t, -delta);
      NoArcBelow(k, Inc(t), -delta - 1);
    } else {
      DownAndUpAgain(t);
      ArcBelow(k, Inc(t), -delta - 1);
      NoArcBelow(k, t - delta, delta);
      NoArcBelow(k, Inc(t) - (delta + 1), delta + 1);
    }
    hide InArc, Inc;
  }

  lemma DownAndUpAgain(t: Depth)
    ensures Dec(Inc(t)) == t
  {
  }

  lemma PopTagAt(tags: Tags, delta: int, e: X87, k: Depth)
    requires TagAt(tags, delta, e, k) && TagAt(tags, delta, e, e.sw.top) && -8 <= delta < 8 && e.tags[e.sw.top] != EMPTY
    ensures TagAt(tags, delta + 1, Pop(e), k)
  {
    PopArcsHold(k, e.sw.top, delta);
    if delta >= 0 {
      InnerArc(e.sw.top, delta);
      NoArcBelow(e.sw.top, e.sw.top, -delta);
    } else {
      InnerArc(e.sw.top, -delta - 1);
      PopArcsHold(e.sw.top, e.sw.top, delta);
    }
    hide InArc, Inc;
  }

  lemma PopTags(tags: Tags, delta: int, e: X87)
    requires TagsMove(tags, delta, e) && e.tags[e.sw.top] != EMPTY
    ensures TagsMove(tags, delta + 1, Pop(e))
  {
    FewPops(tags, delta, e);
    hide TagAt, Pop;
    var n := delta + 1;
    forall k: Depth
      ensures TagAt(tags, n, Pop(e), k)
    {
      assert TagAt(tags, delta, e, e.sw.top);
      PopTagAt(tags, delta, e, k);
    }
  }

  /** And with a push onto u, the other way round. */
  lemma PushTagAt(tags: Tags, delta: int, e: X87, k: Depth, f: X87)
    requires TagAt(tags, delta, e, k) && TagAt(tags, delta, e, Dec(e.sw.top)) && -8 < delta <= 8 && e.tags[Dec(e.sw.top)] == EMPTY
    requires f.sw.top == Dec(e.sw.top) && f.tags == e.tags[Dec(e.sw.top) := VALID]
    ensures TagAt(tags, delta - 1, f, k)
  {
    hide InArc, Inc, Dec, Phys;
    var u := Dec(e.sw.top);
    DownAndUp(e.sw.top);
    PopArcsHold(k, u, delta - 1);
    PopArcsHold(u, u, delta - 1);
    if delta <= 0 {
      InnerArc(e.sw.top, -delta);
      NoArcBelow(u, e.sw.top - delta, delta);
    } else {
      InnerArc(u, delta - 1);
    }
  }

  lemma PushTags(tags: Tags, delta: int, e: X87, v: Word)
    requires TagsMove(tags, delta, e) && e.tags[Dec(e.sw.top)] == EMPTY
    ensures TagsMove(tags, delta - 1, Put(Push(e), 0, v))
  {
    FewPushes(tags, delta, e);
    var f := Put(Push(e), 0, v);
    assert f.sw.top == Dec(e.sw.top) && f.tags == e.tags[Dec(e.sw.top) := VALID];
    hide TagAt, Put, Push, Dec;
    var n := delta - 1;
    forall k: Depth
      ensures TagAt(tags, n, f, k)
    {
      assert TagAt(tags, delta, e, Dec(e.sw.top));
      PushTagAt(tags, delta, e, k, f);
    }
  }

  lemma SameTagsMove(tags: Tags, delta: int, e: X87, f: X87)
    requires TagsMove(tags, delta, e) && f.tags == e.tags && f.sw.top == e.sw.top
    ensures TagsMove(tags, delta, f)
  {
    forall k: Depth ensures TagAt(tags, delta, e, k) == TagAt(tags, delta, f, k) {}
    hide TagAt;
  }

  lemma PopIfTags(tags: Tags, delta: int, e: X87, pop: bool)
    requires TagsMove(tags, delta, e) && (pop ==> Filled(e, 0))
    ensures TagsMove(tags, delta + if pop then 1 else 0, PopIf(e, pop))
  {
    ZeroDepth(e);
    hide TagsMove, Pop, Phys;
    if pop { PopTags(tags, delta, e); }
  }

  lemma ZeroDepth(m: X87)
    ensures Filled(m, 0) <==> m.tags[m.sw.top] != EMPTY
  {
  }

  lemma SecondPop(e: X87)
    requires Filled(e, 1)
    ensures Filled(Pop(e), 0)
  {
    FirstTwo(e.sw.top);
    assert Phys(Inc(e.sw.top), 0) == Inc(e.sw.top);
    hide Phys, Inc;
  }

  predicate MovesTop(op: X87Model.Op) {
    Pushes(op) || op.ArithPop? || op.Fstp? || op.Fcom? || op.Fcomi? || op.Fcompp?
  }

  lemma StaysPut(fpu: Fpu, e: Arch, op: X87Model.Op)
    requires !MovesTop(op)
    ensures var f := Eager(fpu, e, op); f.mem.tags == e.mem.tags && f.mem.sw.top == e.mem.sw.top && Moves(op) == 0
  {
    hide Combine, CondHolds, EncodeSw, Phys;
  }

  lemma EagerTags(fpu: Fpu, tags: Tags, delta: int, e: Arch, op: X87Model.Op)
    requires TagsMove(tags, delta, e.mem) && Safe(e.mem, op)
    ensures TagsMove(tags, delta + Moves(op), Eager(fpu, e, op).mem)
  {
    var m, f := e.mem, Eager(fpu, e, op).mem;
    if !MovesTop(op) {
      StaysPut(fpu, e, op);
      hide Eager;
      SameTagsMove(tags, delta, m, f);
      return;
    }
    ZeroDepth(m);
    hide TagsMove, Combine, Get, SetCc, FcomiFlags, Phys;
    match op
    case Fldz => PushTags(tags, delta, m, POSITIVE_ZERO);
    case Fld1 => PushTags(tags, delta, m, POSITIVE_ONE);
    case Fld(i) => PushTags(tags, delta, m, Get(m, i));
    case ArithPop(fn, rev, d) =>
      var n := Put(m, d, Combine(fpu, fn, rev, Get(m, d), Get(m, 0)));
      SameTagsMove(tags, delta, m, n);
      PopTags(tags, delta, n);
    case Fstp(d) =>
      var n := Put(m, d, Get(m, 0));
      SameTagsMove(tags, delta, m, n);
      PopTags(tags, delta, n);
    case Fcom(i, pop) => ComparedTags(tags, delta, m, fpu.compare(Get(m, 0), Get(m, i)), pop);
    case Fcompp =>
      var o := fpu.compare(Get(m, 0), Get(m, 1));
      ComparedTags(tags, delta, m, o, true);
      var n := Pop(m.(sw := SetCc(m.sw, o)));
      SecondStays(m, o);
      PopTags(tags, delta + 1, n);
    case Fcomi(_, pop) => PopIfTags(tags, delta, m, pop);
  }

  lemma ComparedTags(tags: Tags, delta: int, m: X87, o: Order, pop: bool)
    requires TagsMove(tags, delta, m) && Filled(m, 0)
    ensures TagsMove(tags, delta + if pop then 1 else 0, PopIf(m.(sw := SetCc(m.sw, o)), pop))
  {
    var n := m.(sw := SetCc(m.sw, o));
    SameTagsMove(tags, delta, m, n);
    assert Filled(n, 0) == Filled(m, 0);
    hide TagsMove, Filled, PopIf, SetCc;
    PopIfTags(tags, delta, n, pop);
  }

  lemma SecondStays(m: X87, o: Order)
    requires Filled(m, 1)
    ensures var n := Pop(m.(sw := SetCc(m.sw, o))); n.tags[n.sw.top] != EMPTY
  {
    var n := m.(sw := SetCc(m.sw, o));
    assert Filled(n, 1);
    SecondPop(n);
    ZeroDepth(Pop(n));
    hide Filled, Pop, SetCc;
  }

  // ---------------------------------------------------------------- slots that hold no node

  function Wrap(x: int): Depth { x % 8 }

  predicate Unread(slot: int) {
    -8 <= slot < 0
  }

  /** Not read yet, and not where it was at entry. */
  predicate Displaced(b: Draft, d: Depth)
    requires Shape(b)
  {
    Unread(b.slots[d]) && -(b.slots[d] + 1) != Wrap(d + b.delta)
  }

  /** What was popped is empty, what was exchanged is not. */
  ghost predicate SlotTags(b: Draft, e: X87)
    requires Shape(b)
  {
    forall d: Depth :: (b.slots[d] < -8 ==> !Filled(e, d)) && (Displaced(b, d) ==> Filled(e, d))
  }

  /** Slots are as they were, or hold a node. */
  predicate SameOrRead(b: Draft, c: Draft)
    requires Shape(b) && Shape(c)
  {
    c.delta == b.delta && forall d: Depth :: c.slots[d] == b.slots[d] || c.slots[d] >= 0
  }

  lemma ResolveSlots(b: Draft, d: Depth)
    requires Shape(b)
    ensures SameOrRead(b, Resolve(b, d).b) && (b.slots[d] >= -8 ==> Resolve(b, d).b.slots[d] >= -8)
    ensures Resolve(b, d).id >= -1
  {
  }

  lemma SlotsKept(b: Draft, c: Draft, e: X87, f: X87)
    requires Shape(b) && Shape(c) && SlotTags(b, e) && SameOrRead(b, c) && f.tags == e.tags && f.sw.top == e.sw.top
    ensures SlotTags(c, f)
  {
  }

  lemma SlotsPush(b: Draft, id: int, e: X87, v: Word)
    requires Shape(b) && SlotTags(b, e) && id >= 0
    ensures SlotTags(PushNode(b, id), Put(Push(e), 0, v))
  {
    var c, f := PushNode(b, id), Put(Push(e), 0, v);
    hide Wrap;
    forall d: Depth
      ensures (c.slots[d] < -8 ==> !Filled(f, d)) && (Displaced(c, d) ==> Filled(f, d))
    {
      if d > 0 {
        assert c.slots[d] == b.slots[d - 1] && d - 1 + b.delta == d + c.delta;
        PushedDepth(e.sw.top, d);
        assert Displaced(c, d) == Displaced(b, d - 1);
        hide Phys, Dec;
      }
    }
  }

  lemma PoppedFilled(e: X87, d: Depth)
    ensures Filled(Pop(e), d) <==> d < 7 && Filled(e, d + 1)
  {
    if d < 7 {
      PoppedDepth(e.sw.top, d);
      OtherDepth(e.sw.top, 0, d + 1);
      assert Phys(e.sw.top, 0) == e.sw.top;
    } else {
      AllTheWay(e.sw.top);
    }
    hide Phys, Inc;
  }

  lemma SlotsPop(b: Draft, e: X87)
    requires Shape(b) && SlotTags(b, e)
    ensures SlotTags(PopNode(b), Pop(e))
  {
    var c, f := PopNode(b), Pop(e);
    hide Wrap;
    forall d: Depth
      ensures (c.slots[d] < -8 ==> !Filled(f, d)) && (Displaced(c, d) ==> Filled(f, d))
    {
      PoppedFilled(e, d);
      hide Filled, Pop;
      if d < 7 {
        assert c.slots[d] == b.slots[d + 1] && d + 1 + b.delta == d + c.delta;
        assert Displaced(c, d) == Displaced(b, d + 1);
      }
    }
  }

  lemma SlotsPopIf(b: Draft, pop: bool, e: X87)
    requires Shape(b) && SlotTags(b, e)
    ensures SlotTags(PopNodeIf(b, pop), PopIf(e, pop))
  {
    hide SlotTags, PopNode, Pop;
    if pop { SlotsPop(b, e); }
  }

  lemma PlaceSlots(b: Draft, n: Node, d: Depth)
    requires Shape(b)
    ensures SameOrRead(b, Place(b, n, d).b)
  {
  }

  lemma SlotsTrans(b: Draft, c: Draft, d: Draft)
    requires Shape(b) && Shape(c) && Shape(d) && SameOrRead(b, c) && SameOrRead(c, d)
    ensures SameOrRead(b, d)
  {
  }

  lemma ArithSlots(b: Draft, op: I.Op, rev: bool, d: Depth, f: Depth)
    requires Shape(b)
    ensures SameOrRead(b, BuildArith(b, op, rev, d, f).b)
  {
    var x := Resolve(b, d);
    var y := Resolve(x.b, f);
    var n := if rev then Simple(op, y.id, x.id, -1, 0) else Simple(op, x.id, y.id, -1, 0);
    ResolveSlots(b, d);
    ResolveSlots(x.b, f);
    hide Resolve, SameOrRead, Place;
    SlotsTrans(b, x.b, y.b);
    PlaceSlots(y.b, n, d);
    SlotsTrans(b, y.b, Place(y.b, n, d).b);
  }

  lemma FcmovSlots(b: Draft, cond: Cond, i: Depth)
    requires Shape(b)
    ensures SameOrRead(b, BuildFcmov(b, cond, i).b)
  {
    var x := Resolve(b, 0);
    var y := Resolve(x.b, i);
    var n := Simple(FCSel, x.id, y.id, -1, X87Ops.ArmCond(cond));
    ResolveSlots(b, 0);
    ResolveSlots(x.b, i);
    SlotsTrans(b, x.b, y.b);
    PlaceSlots(y.b, n, 0);
    SlotsTrans(b, y.b, Place(y.b, n, 0).b);
    SlotsSelf(b);
    hide Resolve, SameOrRead, Place;
  }

  lemma SlotsSelf(b: Draft)
    requires Shape(b)
    ensures SameOrRead(b, b)
  {
  }

  lemma ComparesSlots(b: Draft, i: Depth)
    requires Shape(b)
    ensures SameOrRead(b, BuildFcom(b, i).b) && SameOrRead(b, BuildFcomi(b, i).b)
  {
    var x := Resolve(b, 0);
    var y := Resolve(x.b, i);
    ResolveSlots(b, 0);
    ResolveSlots(x.b, i);
    SlotsTrans(b, x.b, y.b);
    hide Resolve;
  }

  lemma FtstSlots(b: Draft)
    requires Shape(b)
    ensures SameOrRead(b, BuildFtst(b).b)
  {
    ResolveSlots(b, 0);
    hide Resolve;
  }

  lemma FstSlots(b: Draft, i: Depth)
    requires Shape(b)
    ensures SameOrRead(b, BuildFst(b, i).b)
  {
    ResolveSlots(b, 0);
    hide Resolve;
  }

  lemma UnarySlots(b: Draft, u: UnaryFn)
    requires Formed(b)
    ensures SameOrRead(b, BuildUnary(b, u).b)
  {
    var g := Resolve(b, 0);
    ResolveSlots(b, 0);
    if g.id >= 0 {
      if u.Chs? && g.id < |g.b.nodes| && g.b.nodes[g.id].op.FNeg? {
        NegationBefore(b, g.id);
        hide Resolve, Formed;
      } else {
        var n := Simple(UnaryOf(u), g.id, -1, -1, 0);
        PlaceSlots(g.b, n, 0);
        hide Resolve, SameOrRead, Place, Formed;
        SlotsTrans(b, g.b, Place(g.b, n, 0).b);
      }
    }
  }

  lemma NegationBefore(b: Draft, id: int)
    requires Formed(b) && id >= 0
    ensures var c := Resolve(b, 0).b; id < |c.nodes| && c.nodes[id].op.FNeg? ==> c.nodes[id].in0 >= 0
  {
    if id < |b.nodes| {
      assert GoodNode(b.nodes, id);
    }
  }

  lemma FxchSlots(b: Draft, i: Depth, e: X87)
    requires Shape(b) && SlotTags(b, e) && Filled(e, 0) && Filled(e, i) && i != 0
    ensures SlotTags(BuildFxch(b, i).b, Swap(e, i))
  {
    var c := Resolve(b, 0).b;
    var d := Resolve(c, i).b;
    ResolveSlots(b, 0);
    ResolveSlots(c, i);
    SlotsTrans(b, c, d);
    assert d.slots[0] >= -8 && d.slots[i] >= -8;
    assert Swap(e, i).tags == e.tags && Swap(e, i).sw == e.sw;
    hide Resolve, Swap, Filled;
    SameFilled(e, Swap(e, i));
  }

  lemma SameFilled(e: X87, f: X87)
    requires f.tags == e.tags && f.sw.top == e.sw.top
    ensures forall d: Depth :: Filled(f, d) == Filled(e, d)
  {
  }

  /** Building an instruction that causes no stack fault keeps slots and tags together. */
  lemma SlotsStep(fpu: Fpu, b: Draft, e: Arch, op: X87Model.Op)
    requires Formed(b) && SlotTags(b, e.mem) && Safe(e.mem, op) && BuildOp(b, op).ok
    ensures SlotTags(BuildOp(b, op).b, Eager(fpu, e, op).mem)
  {
    var m, r, f := e.mem, BuildOp(b, op).b, Eager(fpu, e, op).mem;
    if !MovesTop(op) && !op.Fxch? {
      QuietSlots(b, op);
      StaysPut(fpu, e, op);
      hide BuildOp, Eager, SlotTags, SameOrRead, Formed;
      SlotsKept(b, r, m, f);
    } else if op.Fxch? {
      FxchSlots(b, op.src, m);
      hide SlotTags, BuildFxch, Swap, Formed;
    } else {
      MoveSlots(fpu, b, e, op);
    }
  }

  lemma QuietSlots(b: Draft, op: X87Model.Op)
    requires Formed(b) && !MovesTop(op) && !op.Fxch?
    ensures SameOrRead(b, BuildOp(b, op).b)
  {
    SlotsSelf(b);
    hide Formed, BuildArith, BuildUnary, BuildFst, BuildFtst, BuildFcmov;
    match op
    case Arith(fn, rev, d, f) => hide SameOrRead; ArithSlots(b, BinaryOf(fn), rev, d, f);
    case Unary(u) => hide SameOrRead; UnarySlots(b, u);
    case Fst(i) => hide SameOrRead; FstSlots(b, i);
    case Ftst => hide SameOrRead; FtstSlots(b);
    case Fcmov(cond, i) => hide SameOrRead; FcmovSlots(b, cond, i);
    case _ =>
  }

  lemma MoveSlots(fpu: Fpu, b: Draft, e: Arch, op: X87Model.Op)
    requires Shape(b) && SlotTags(b, e.mem) && MovesTop(op) && BuildOp(b, op).ok
    ensures SlotTags(BuildOp(b, op).b, Eager(fpu, e, op).mem)
  {
    var m := e.mem;
    hide SameOrRead, SlotTags, Combine, Get, Put, Push, Pop, PopIf, SetCc, FcomiFlags, PushNode, PopNode, PopNodeIf;
    hide BuildArith, BuildFst, BuildFcom, BuildFcomi;
    match op
    case Fldz => LoadSlots(b, m, 0, POSITIVE_ZERO);
    case Fld1 => LoadSlots(b, m, 0, POSITIVE_ONE);
    case Fld(i) => LoadSlots(b, m, i, Get(m, i));
    case ArithPop(fn, rev, d) =>
      var v := Combine(fpu, fn, rev, Get(m, d), Get(m, 0));
      var c := BuildArith(b, BinaryOf(fn), rev, d, 0).b;
      ArithSlots(b, BinaryOf(fn), rev, d, 0);
      PutKeeps(m, d, v);
      SlotsKept(b, c, m, Put(m, d, v));
      SlotsPop(c, Put(m, d, v));
      PopOnce(c);
    case Fstp(i) =>
      var c := BuildFst(b, i).b;
      FstSlots(b, i);
      PutKeeps(m, i, Get(m, 0));
      SlotsKept(b, c, m, Put(m, i, Get(m, 0)));
      SlotsPop(c, Put(m, i, Get(m, 0)));
      PopOnce(c);
    case Fcom(i, pop) => ComparedSlots(b, i, m, fpu.compare(Get(m, 0), Get(m, i)), pop);
    case Fcompp =>
      var o := fpu.compare(Get(m, 0), Get(m, 1));
      ComparedSlots(b, 1, m, o, true);
      var n := m.(sw := SetCc(m.sw, o));
      PopOnce(BuildFcom(b, 1).b);
      PopOnce(PopNode(BuildFcom(b, 1).b));
      PopsOnce(n);
      SlotsPop(PopNode(BuildFcom(b, 1).b), Pop(n));
    case Fcomi(i, pop) =>
      ComparesSlots(b, i);
      SlotsKept(b, BuildFcomi(b, i).b, m, m);
      SlotsPopIf(BuildFcomi(b, i).b, pop, m);
  }

  lemma PopOnce(b: Draft)
    requires Shape(b)
    ensures PopNodeIf(b, true) == PopNode(b)
  {
  }

  lemma PopsOnce(m: X87)
    ensures PopIf(m, true) == Pop(m)
  {
  }

  lemma PutKeeps(m: X87, d: Depth, v: Word)
    ensures Put(m, d, v).tags == m.tags && Put(m, d, v).sw == m.sw
  {
  }

  lemma ComparedSlots(b: Draft, i: Depth, m: X87, o: Order, pop: bool)
    requires Shape(b) && SlotTags(b, m)
    ensures SlotTags(PopNodeIf(BuildFcom(b, i).b, pop), PopIf(m.(sw := SetCc(m.sw, o)), pop))
  {
    var n := m.(sw := SetCc(m.sw, o));
    ComparesSlots(b, i);
    assert n.tags == m.tags && n.sw.top == m.sw.top;
    hide SlotTags, SameOrRead, BuildFcom, SetCc;
    SlotsKept(b, BuildFcom(b, i).b, m, n);
    SlotsPopIf(BuildFcom(b, i).b, pop, n);
  }

  /** The three loads. */
  lemma LoadSlots(b: Draft, m: X87, i: Depth, v: Word)
    requires Shape(b) && SlotTags(b, m)
    ensures BuildFldz(b).ok ==> SlotTags(BuildFldz(b).b, Put(Push(m), 0, v))
    ensures BuildFld1(b).ok ==> SlotTags(BuildFld1(b).b, Put(Push(m), 0, v))
    ensures BuildFld(b, i).ok ==> SlotTags(BuildFld(b, i).b, Put(Push(m), 0, v))
  {
    var z, o, g := BuildConst(b, ConstZero, b.zero), BuildConst(b, ConstOne, b.one), Resolve(b, i);
    ResolveSlots(b, i);
    SlotsSelf(b);
    assert z.b.slots == b.slots && o.b.slots == b.slots;
    assert SameOrRead(b, z.b.(zero := z.id)) && SameOrRead(b, o.b.(one := o.id));
    hide SlotTags, SameOrRead, PushNode, Put, Push, Resolve, BuildConst;
    SlotsKept(b, z.b.(zero := z.id), m, m);
    SlotsKept(b, o.b.(one := o.id), m, m);
    SlotsKept(b, g.b, m, m);
    if z.id >= 0 { SlotsPush(z.b.(zero := z.id), z.id, m, v); }
    if o.id >= 0 { SlotsPush(o.b.(one := o.id), o.id, m, v); }
    if g.id >= 0 { SlotsPush(g.b, g.id, m, v); }
  }

  /** What does not build changes neither TOP nor what is gone. */
  lemma FailedSlots(b: Draft, op: X87Model.Op)
    requires Formed(b) && !BuildOp(b, op).ok
    ensures SameOrRead(b, BuildOp(b, op).b)
  {
    if !MovesTop(op) && !op.Fxch? {
      QuietSlots(b, op);
      return;
    }
    SlotsSelf(b);
    assert Shape(b);
    hide Formed, SameOrRead, BuildArith, BuildFst, BuildFcom, BuildFcomi, Resolve;
    match op
    case Fld(i) => ResolveSlots(b, i);
    case ArithPop(fn, rev, d) => ArithSlots(b, BinaryOf(fn), rev, d, 0);
    case Fstp(i) => FstSlots(b, i);
    case Fcom(i, _) => ComparesSlots(b, i);
    case Fcompp => ComparesSlots(b, 1);
    case Fcomi(i, _) => ComparesSlots(b, i);
    case _ =>
  }

  // ---------------------------------------------------------------- when exchanges are read

  /** Unless the list is full, what was not read is where it was at entry. */
  predicate Aligned(b: Draft)
    requires Shape(b)
  {
    |b.nodes| == MAX_NODES || forall d: Depth :: !Displaced(b, d)
  }

  lemma AlignedPush(b: Draft, id: int)
    requires Shape(b) && Aligned(b) && id >= 0
    ensures Aligned(PushNode(b, id))
  {
    var c := PushNode(b, id);
    hide Wrap;
    forall d: Depth
      ensures d > 0 ==> Displaced(c, d) == Displaced(b, d - 1)
    {
      if d > 0 { assert c.slots[d] == b.slots[d - 1] && d - 1 + b.delta == d + c.delta; }
    }
  }

  lemma AlignedPop(b: Draft)
    requires Shape(b) && Aligned(b)
    ensures Aligned(PopNode(b))
  {
    var c := PopNode(b);
    hide Wrap;
    forall d: Depth
      ensures if d < 7 then Displaced(c, d) == Displaced(b, d + 1) else !Displaced(c, d)
    {
      if d < 7 { assert c.slots[d] == b.slots[d + 1] && d + 1 + b.delta == d + c.delta; }
    }
  }

  lemma AlignedKept(b: Draft, c: Draft)
    requires Shape(b) && Shape(c) && Aligned(b) && SameOrRead(b, c) && |b.nodes| <= |c.nodes|
    ensures Aligned(c)
  {
    hide Wrap;
    forall d: Depth ensures Displaced(c, d) ==> Displaced(b, d) {}
  }

  lemma AlignedFxch(b: Draft, i: Depth)
    requires Shape(b) && Aligned(b)
    ensures Aligned(BuildFxch(b, i).b)
  {
    if i != 0 {
      var c := Resolve(b, 0).b;
      var f := Resolve(c, i).b;
      ResolveReads(b, 0);
      ResolveReads(c, i);
      ResolveSlots(b, 0);
      ResolveSlots(c, i);
      ResolveDelta();
      hide Resolve, Wrap;
      AlignedKept(b, c);
      AlignedKept(c, f);
      var g := BuildFxch(b, i).b;
      assert |f.nodes| < MAX_NODES ==> !Unread(f.slots[0]) && !Unread(f.slots[i]);
      forall d: Depth
        ensures |f.nodes| < MAX_NODES ==> (Displaced(g, d) ==> Displaced(f, d))
      {
      }
    }
  }

  lemma ResolveReads(b: Draft, d: Depth)
    requires Shape(b)
    ensures var c := Resolve(b, d).b; |c.nodes| == MAX_NODES || !Unread(c.slots[d])
  {
  }

  lemma AlignedStep(b: Draft, op: X87Model.Op)
    requires Formed(b) && Aligned(b)
    ensures Aligned(BuildOp(b, op).b)
  {
    var r := BuildOp(b, op);
    BuildDelta(b, op);
    if !MovesTop(op) && !op.Fxch? {
      QuietSlots(b, op);
      hide BuildOp, Formed, Aligned, SameOrRead;
      AlignedKept(b, r.b);
    } else if !r.ok {
      FailedSlots(b, op);
      hide BuildOp, Formed, Aligned, SameOrRead;
      AlignedKept(b, r.b);
    } else if op.Fxch? {
      AlignedFxch(b, op.src);
      hide BuildFxch, Formed, Aligned;
    } else {
      AlignedMove(b, op);
    }
  }

  lemma AlignedPopIf(b: Draft, c: Draft, pop: bool)
    requires Shape(b) && Shape(c) && Aligned(b) && SameOrRead(b, c) && |b.nodes| <= |c.nodes|
    ensures Aligned(PopNodeIf(c, pop))
  {
    hide Aligned, SameOrRead, PopNode;
    AlignedKept(b, c);
    if pop { AlignedPop(c); }
  }

  lemma AlignedLoad(b: Draft, i: Depth)
    requires Shape(b) && Aligned(b)
    ensures BuildFldz(b).ok ==> Aligned(BuildFldz(b).b)
    ensures BuildFld1(b).ok ==> Aligned(BuildFld1(b).b)
    ensures BuildFld(b, i).ok ==> Aligned(BuildFld(b, i).b)
  {
    var z, o, g := BuildConst(b, ConstZero, b.zero), BuildConst(b, ConstOne, b.one), Resolve(b, i);
    ResolveSlots(b, i);
    ResolveDelta();
    SlotsSelf(b);
    assert z.b.slots == b.slots && o.b.slots == b.slots && Longer(b, z.b) && Longer(b, o.b);
    assert SameOrRead(b, z.b.(zero := z.id)) && SameOrRead(b, o.b.(one := o.id));
    hide Aligned, SameOrRead, PushNode, Resolve, BuildConst;
    AlignedKept(b, z.b.(zero := z.id));
    AlignedKept(b, o.b.(one := o.id));
    AlignedKept(b, g.b);
    if z.id >= 0 { AlignedPush(z.b.(zero := z.id), z.id); }
    if o.id >= 0 { AlignedPush(o.b.(one := o.id), o.id); }
    if g.id >= 0 { AlignedPush(g.b, g.id); }
  }

  lemma AlignedMove(b: Draft, op: X87Model.Op)
    requires Shape(b) && Aligned(b) && MovesTop(op) && BuildOp(b, op).ok
    ensures Aligned(BuildOp(b, op).b)
  {
    hide SameOrRead, Aligned, PopNodeIf, BuildArith, BuildFst, BuildFcom, BuildFcomi, BuildFldz, BuildFld1, BuildFld;
    match op
    case Fldz => AlignedLoad(b, 0);
    case Fld1 => AlignedLoad(b, 0);
    case Fld(i) => AlignedLoad(b, i);
    case ArithPop(fn, rev, d) =>
      ArithSlots(b, BinaryOf(fn), rev, d, 0);
      ArithDelta(b, BinaryOf(fn), rev, d, 0);
      AlignedPopIf(b, BuildArith(b, BinaryOf(fn), rev, d, 0).b, true);
    case Fstp(i) =>
      FstSlots(b, i);
      SlotDelta(b, i, Chs, Eq);
      AlignedPopIf(b, BuildFst(b, i).b, true);
    case Fcom(i, pop) =>
      ComparesSlots(b, i);
      CompareDelta(b, i);
      AlignedPopIf(b, BuildFcom(b, i).b, pop);
    case Fcompp =>
      ComparesSlots(b, 1);
      CompareDelta(b, 1);
      var c := PopNodeIf(BuildFcom(b, 1).b, true);
      AlignedPopIf(b, BuildFcom(b, 1).b, true);
      SlotsSelf(c);
      AlignedPopIf(c, c, true);
    case Fcomi(i, pop) =>
      ComparesSlots(b, i);
      CompareDelta(b, i);
      AlignedPopIf(b, BuildFcomi(b, i).b, pop);
  }

  // ---------------------------------------------------------------- a run

  /** The list so far, and the machine the instructions so far lead to. */
  ghost predicate Tracks(s: Machine, a: Arch, b: Draft, e: Arch) {
    Shape(b) && Aligned(b) && Denotes(s, a, b, e) && TagsMove(a.mem.tags, b.delta, e.mem) && SlotTags(b, e.mem)
  }

  lemma FreshTracks(s: Machine, a: Arch)
    ensures Tracks(s, a, FRESH_DRAFT, a)
  {
    FreshDenotes(s, a);
    NoTags(a.mem);
    hide Denotes, TagsMove;
  }

  lemma NoTags(m: X87)
    ensures TagsMove(m.tags, 0, m)
  {
    forall k: Depth
      ensures TagAt(m.tags, 0, m, k)
    {
      NoArcBelow(k, m.sw.top, 0);
      hide InArc;
    }
    hide TagAt;
  }

  lemma StepKeeps(s: Machine, fpu: Fpu, a: Arch, b: Draft, op: X87Model.Op, e: Arch)
    requires Tracks(s, a, b, e) && Implements(s, fpu, a.mem) && NegatesTwice(fpu)
    requires Safe(e.mem, op) && BuildOp(b, op).ok
    ensures Tracks(s, a, BuildOp(b, op).b, Eager(fpu, e, op))
  {
    hide Denotes, TagsMove, SlotTags, Aligned, Eager, BuildOp, Safe, Implements, NegatesTwice, Moves, Formed;
    SmallDelta(s, a, b, e);
    OpDenotes(s, fpu, a, b, op, e);
    EagerTags(fpu, a.mem.tags, b.delta, e, op);
    BuildDelta(b, op);
    SlotsStep(fpu, b, e, op);
    AlignedStep(b, op);
  }

  lemma SmallDelta(s: Machine, a: Arch, b: Draft, e: Arch)
    requires Tracks(s, a, b, e)
    ensures -8 <= b.delta <= 8 && Formed(b) && Shape(b)
  {
    hide Formed, Means, TagAt, SlotTags, Aligned;
  }

  lemma FailedKeeps(s: Machine, fpu: Fpu, a: Arch, b: Draft, op: X87Model.Op, e: Arch)
    requires Tracks(s, a, b, e) && Implements(s, fpu, a.mem) && NegatesTwice(fpu) && !BuildOp(b, op).ok
    ensures Tracks(s, a, BuildOp(b, op).b, e)
  {
    hide Denotes, TagsMove, SlotTags, Aligned, SameOrRead, Eager, BuildOp, Implements, NegatesTwice, Moves, Formed;
    SmallDelta(s, a, b, e);
    OpDenotes(s, fpu, a, b, op, e);
    BuildDelta(b, op);
    FailedSlots(b, op);
    AlignedStep(b, op);
    SlotsKept(b, BuildOp(b, op).b, e.mem, e.mem);
  }

  /** Any run: the list built means the instructions taken. */
  lemma {:induction false} RunTracks(s: Machine, fpu: Fpu, a: Arch, b: Draft, ops: seq<X87Model.Op>, e: Arch)
    requires Tracks(s, a, b, e) && Implements(s, fpu, a.mem) && NegatesTwice(fpu)
    requires SafeRun(fpu, e, ops[..BuildRun(b, ops).1])
    ensures var (c, k) := BuildRun(b, ops); Tracks(s, a, c, EagerRun(fpu, e, ops[..k]))
    decreases |ops|
  {
    SmallDelta(s, a, b, e);
    hide Tracks, Implements, NegatesTwice, Safe, BuildOp, Eager, Formed;
    if ops != [] {
      var op, r := ops[0], BuildOp(b, ops[0]);
      if r.ok {
        var k := BuildRun(r.b, ops[1..]).1;
        assert ops[..k + 1][0] == op && ops[..k + 1][1..] == ops[1..][..k];
        StepKeeps(s, fpu, a, b, op, e);
        RunTracks(s, fpu, a, r.b, ops[1..], Eager(fpu, e, op));
      } else {
        FailedKeeps(s, fpu, a, b, op, e);
      }
    }
  }
}
