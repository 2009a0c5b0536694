/**
 A run of x87 instructions through the front of the whole-run compiler: built, optimized, and its
 results written back where the lowering writes them.
 */
module X87Compiled {
  import opened Words
  import opened X87Model
  import opened I = X87IR
  import opened X87Rules
  import opened X87Optimize
  import opened X87ConstArith
  import opened X87Passes
  import opened X87FusedRuns
  import opened X87Build
  import opened X87Denotes
  import opened X87Built
  import opened X87Lower

  // ---------------------------------------------------------------- writing back

  /** Register k: the value in its slot, unless no node was ever put there. */
  function Stored(st: Slots, slots: seq<Slot>, top: Depth, k: Depth): Word
    requires |slots| == 8
  {
    var slot := slots[Wrap(k - top)];
    if slot.Computed? then slot.value else st[k]
  }

  function WrittenSlots(st: Slots, slots: seq<Slot>, top: Depth): (r: Slots)
    requires |slots| == 8
    ensures forall k: Depth :: r[k] == Stored(st, slots, top, k)
  {
    seq(8, k requires 0 <= k < 8 => Stored(st, slots, top, k))
  }

  function AxOf(guest: seq<int>): Half {
    if |guest| > 0 && 0 <= guest[0] < 0x1_0000 then guest[0] else 0
  }

  /** What the end of the code leaves: registers, TOP and tags relative to the final TOP. */
  function WrittenBack(a: Arch, o: I.Outcome, delta: int): Arch
    requires |o.slots| == 8
  {
    var sw := StatusAt(a.mem.sw, o.codes, delta);
    Arch(X87(o.world.control, sw, TagsAfter(a.mem.tags, sw.top, delta), WrittenSlots(a.mem.st, o.slots, sw.top)),
         o.world.flags, AxOf(o.world.guest))
  }

  /** The list run from a. */
  function OutcomeOf(s: Machine, a: Arch, p: Ir): I.Outcome {
    Meaning(s, p, CcBits(a.mem.sw), World(map[], [a.ax as int], a.flags, a.mem.cw))
  }

  /** Slots that are not read keep in memory what they held. */
  predicate KeepsUnread(m: X87, b: Draft)
    requires Shape(b)
  {
    forall d: Depth :: KeptAt(m, b, d)
  }

  predicate KeptAt(m: X87, b: Draft, d: Depth)
    requires Shape(b)
  {
    Unread(b.slots[d]) ==> Get(m, -(b.slots[d] + 1)) == Get(m, Wrap(d + b.delta))
  }

  lemma WrittenTags(tags: Tags, delta: int, e: X87, k: Depth)
    requires TagAt(tags, delta, e, k) && -8 <= delta <= 8
    ensures TagsAfter(tags, e.sw.top, delta)[k] == EMPTY <==> e.tags[k] == EMPTY
  {
    if delta <= 0 { NoArcBelow(k, e.sw.top - delta, delta); }
    if delta >= 0 { NoArcBelow(k, e.sw.top, -delta); }
    hide InArc;
  }

  /** Depths and registers, at entry and at the end. */
  lemma DepthsMatch(t: Depth, top: Depth, delta: int, d: Depth, k: Depth)
    requires top == (t + delta) % 8
    ensures Phys(t, Wrap(d + delta)) == Phys(top, d)
    ensures k == Phys(top, d) <==> d == Wrap(k - top)
  {
    DepthOf(top, d, k);
    AddMod8(d + delta, t);
    AddMod8(t + delta, d);
    assert Phys(t, Wrap(d + delta)) == (t + (d + delta) % 8) % 8;
    assert Phys(top, d) == ((t + delta) % 8 + d) % 8;
  }

  lemma DepthOf(top: Depth, d: Depth, k: Depth)
    ensures k == Phys(top, d) <==> d == Wrap(k - top)
  {
  }

  /** What the outcome says of each slot. */
  lemma OutcomeSlots(s: Machine, a: Arch, b: Draft, e: Arch)
    requires Shape(b) && Means(s, a, b, e)
    ensures var o, v := OutcomeOf(s, a, IrOf(b)), EnvOf(s, a, b);
      && |o.slots| == 8 && o.codes == v.codes && o.world == World(map[], [e.ax as int], e.flags, e.mem.cw)
      && (forall d: Depth :: o.slots[d] == SlotOf(v.vals, b.slots[d]))
  {
    hide RunTo, SlotOf;
  }

  /** The register at depth d comes out right unless its slot was exchanged and never read. */
  lemma StoredAt(s: Machine, a: Arch, b: Draft, e: Arch, d: Depth, slots: seq<Slot>)
    requires Shape(b) && |slots| == 8 && SlotHolds(EnvOf(s, a, b).vals, b.slots[d], a.mem, e.mem, d)
    requires slots[d] == SlotOf(EnvOf(s, a, b).vals, b.slots[d]) && e.mem.sw.top == (a.mem.sw.top + b.delta) % 8
    ensures var k := Phys(e.mem.sw.top, d);
      && (!Unread(b.slots[d]) && b.slots[d] >= -8 ==> Stored(a.mem.st, slots, e.mem.sw.top, k) == e.mem.st[k])
      && (Unread(b.slots[d]) ==>
            (Stored(a.mem.st, slots, e.mem.sw.top, k) == e.mem.st[k] <==> Get(a.mem, -(b.slots[d] + 1)) == Get(a.mem, Wrap(d + b.delta))))
  {
    var k := Phys(e.mem.sw.top, d);
    DepthsMatch(a.mem.sw.top, e.mem.sw.top, b.delta, d, k);
    hide Phys, Wrap, EnvOf;
  }

  /** Unless it is empty, register k is right. */
  predicate RightAt(e: X87, st: Slots, k: Depth) {
    e.tags[k] != EMPTY ==> e.st[k] == st[k]
  }

  lemma EntryAndEnd(s: Machine, a: Arch, b: Draft, e: Arch)
    requires Tracks(s, a, b, e)
    ensures Shape(b) && Means(s, a, b, e) && SlotTags(b, e.mem)
    ensures e.mem.sw == StatusAt(a.mem.sw, EnvOf(s, a, b).codes, b.delta) && e.mem.sw.top == (a.mem.sw.top + b.delta) % 8
  {
    hide Formed, TagsMove, SlotTags, Aligned, EnvOf, SlotHolds, WithBits;
  }

  lemma RightExact(s: Machine, a: Arch, b: Draft, e: Arch, d: Depth, slots: seq<Slot>)
    requires Tracks(s, a, b, e) && |slots| == 8 && slots[d] == SlotOf(EnvOf(s, a, b).vals, b.slots[d])
    ensures RightAt(e.mem, WrittenSlots(a.mem.st, slots, e.mem.sw.top), Phys(e.mem.sw.top, d)) <==> KeptAt(a.mem, b, d)
  {
    EntryAndEnd(s, a, b, e);
    assert SlotHolds(EnvOf(s, a, b).vals, b.slots[d], a.mem, e.mem, d);
    assert (b.slots[d] < -8 ==> !Filled(e.mem, d)) && (Displaced(b, d) ==> Filled(e.mem, d));
    hide Tracks, Means, SlotHolds, SlotTags, EnvOf, Stored, Get, Wrap, Phys, StatusAt;
    StoredAt(s, a, b, e, d, slots);
  }

  lemma ContentsExact(s: Machine, a: Arch, b: Draft, e: Arch, slots: seq<Slot>)
    requires Tracks(s, a, b, e) && |slots| == 8 && forall d: Depth :: slots[d] == SlotOf(EnvOf(s, a, b).vals, b.slots[d])
    ensures (forall k: Depth :: RightAt(e.mem, WrittenSlots(a.mem.st, slots, e.mem.sw.top), k)) <==> KeepsUnread(a.mem, b)
  {
    var top := e.mem.sw.top;
    var st := WrittenSlots(a.mem.st, slots, top);
    assert Shape(b);
    hide Tracks, RightAt, KeptAt, Wrap, SlotOf, EnvOf, WrittenSlots, Phys;
    forall d: Depth
      ensures RightAt(e.mem, st, Phys(top, d)) <==> KeptAt(a.mem, b, d)
    {
      RightExact(s, a, b, e, d, slots);
    }
    forall k: Depth
      ensures KeptAt(a.mem, b, Wrap(k - top)) ==> RightAt(e.mem, st, k)
    {
      DepthOf(top, Wrap(k - top), k);
    }
  }

  /** Written back, a list leaves what its instructions leave if and only if exchanged registers were read or equal. */
  lemma WrittenExact(s: Machine, a: Arch, b: Draft, e: Arch)
    requires Tracks(s, a, b, e)
    ensures var o := OutcomeOf(s, a, IrOf(b)); |o.slots| == 8 && (Alike(e, WrittenBack(a, o, b.delta)) <==> KeepsUnread(a.mem, b))
  {
    EntryAndEnd(s, a, b, e);
    OutcomeSlots(s, a, b, e);
    assert -8 <= b.delta <= 8 && forall k: Depth :: TagAt(a.mem.tags, b.delta, e.mem, k);
    var o := OutcomeOf(s, a, IrOf(b));
    hide Tracks, OutcomeOf, Means, TagAt, TagsAfter, SlotOf, EnvOf, SlotTags, StatusAt, WrittenSlots, KeepsUnread, Alike, RightAt;
    ContentsExact(s, a, b, e, o.slots);
    forall k: Depth
      ensures TagsAfter(a.mem.tags, e.mem.sw.top, b.delta)[k] == EMPTY <==> e.mem.tags[k] == EMPTY
    {
      WrittenTags(a.mem.tags, b.delta, e.mem, k);
    }
    AlikeContents(e, WrittenBack(a, o, b.delta));
  }

  lemma AlikeContents(e: Arch, w: Arch)
    requires e.flags == w.flags && e.ax == w.ax && e.mem.cw == w.mem.cw && e.mem.sw == w.mem.sw
    requires forall k: Depth :: w.mem.tags[k] == EMPTY <==> e.mem.tags[k] == EMPTY
    ensures Alike(e, w) <==> forall k: Depth :: RightAt(e.mem, w.mem.st, k)
  {
    forall k: Depth ensures RightAt(e.mem, w.mem.st, k) <==> (e.mem.tags[k] != EMPTY ==> e.mem.st[k] == w.mem.st[k]) {}
    hide RightAt;
  }

  // ---------------------------------------------------------------- the compiled run

  /** The instructions taken cause no stack fault. */
  predicate SafeBuilt(fpu: Fpu, a: Arch, ops: seq<X87Model.Op>) {
    SafeRun(fpu, a, ops[..BuildRun(FRESH_DRAFT, ops).1])
  }

  /** What executing those instructions one by one leaves. */
  function Executed(fpu: Fpu, a: Arch, ops: seq<X87Model.Op>): Arch {
    EagerRun(fpu, a, ops[..BuildRun(FRESH_DRAFT, ops).1])
  }

  lemma BuiltTracks(s: Machine, fpu: Fpu, a: Arch, ops: seq<X87Model.Op>)
    requires Implements(s, fpu, a.mem) && NegatesTwice(fpu) && SafeBuilt(fpu, a, ops)
    ensures Tracks(s, a, BuildRun(FRESH_DRAFT, ops).0, Executed(fpu, a, ops))
  {
    FreshTracks(s, a);
    hide Tracks, Implements, NegatesTwice;
    RunTracks(s, fpu, a, FRESH_DRAFT, ops, a);
  }

  /** The list built, run and written back, against the instructions: exact for every list and state. */
  lemma BuiltExact(s: Machine, fpu: Fpu, a: Arch, ops: seq<X87Model.Op>)
    requires Implements(s, fpu, a.mem) && NegatesTwice(fpu) && SafeBuilt(fpu, a, ops)
    ensures var b := BuildRun(FRESH_DRAFT, ops).0;
      var o := OutcomeOf(s, a, IrOf(b));
      |o.slots| == 8 && (Alike(Executed(fpu, a, ops), WrittenBack(a, o, b.delta)) <==> KeepsUnread(a.mem, b))
  {
    BuiltTracks(s, fpu, a, ops);
    hide Tracks, Implements, NegatesTwice, SafeBuilt, BuildRun, EagerRun;
    WrittenExact(s, a, BuildRun(FRESH_DRAFT, ops).0, Executed(fpu, a, ops));
  }

  lemma TracksAligned(s: Machine, a: Arch, b: Draft, e: Arch)
    requires Tracks(s, a, b, e)
    ensures Shape(b) && Aligned(b)
  {
    hide Aligned, Denotes, TagsMove, SlotTags;
  }

  lemma RoomKeeps(m: X87, b: Draft)
    requires Shape(b) && Aligned(b) && |b.nodes| < MAX_NODES
    ensures KeepsUnread(m, b)
  {
    hide Get, Wrap;
    forall d: Depth ensures KeptAt(m, b, d) { assert !Displaced(b, d); }
  }

  /** A list with room left is right in every state. */
  lemma RoomIsRight(s: Machine, fpu: Fpu, a: Arch, ops: seq<X87Model.Op>)
    requires Implements(s, fpu, a.mem) && NegatesTwice(fpu) && SafeBuilt(fpu, a, ops)
    requires |BuildRun(FRESH_DRAFT, ops).0.nodes| < MAX_NODES
    ensures var b := BuildRun(FRESH_DRAFT, ops).0;
      var o := OutcomeOf(s, a, IrOf(b));
      |o.slots| == 8 && Alike(Executed(fpu, a, ops), WrittenBack(a, o, b.delta))
  {
    var b := BuildRun(FRESH_DRAFT, ops).0;
    BuiltTracks(s, fpu, a, ops);
    BuiltExact(s, fpu, a, ops);
    hide Tracks, Implements, NegatesTwice, SafeBuilt, BuildRun, Executed, KeepsUnread, Alike, WrittenBack, OutcomeOf;
    TracksAligned(s, a, b, Executed(fpu, a, ops));
    RoomKeeps(a.mem, b);
  }

  // ---------------------------------------------------------------- an exchange that is lost

  /** FADD ST(0), ST(1). */
  const FADD: X87Model.Op := Arith(Add, false, 0, 1)

  function Repeated(n: nat): (r: seq<X87Model.Op>)
    ensures |r| == n
  {
    if n == 0 then [] else [FADD] + Repeated(n - 1)
  }

  /** b with n more additions to ST(0). */
  predicate Added(b: Draft, n: nat, f: Draft) {
    && Shape(b) && Shape(f) && |f.nodes| == |b.nodes| + n && f.slots[0] >= 0 && f.slots[1..] == b.slots[1..]
    && f.delta == b.delta && f.initial == b.initial
  }

  lemma AddAdded(b: Draft)
    requires Shape(b) && |b.nodes| < MAX_NODES && b.slots[0] >= 0 && b.slots[1] >= 0
    ensures BuildOp(b, FADD).ok && Added(b, 1, BuildOp(b, FADD).b)
  {
  }

  lemma AddedOn(b: Draft, f: Draft, n: nat, g: Draft)
    requires Added(b, 1, f) && Added(f, n, g)
    ensures Added(b, n + 1, g)
  {
  }

  lemma NextOf(op: X87Model.Op, ops: seq<X87Model.Op>, rest: seq<X87Model.Op>)
    ensures var all := [op] + ops + rest; all[0] == op && all[1..] == ops + rest && all == [op] + (ops + rest)
  {
  }

  /** Each addition is one more node. */
  lemma {:induction false} AddsFill(b: Draft, n: nat, rest: seq<X87Model.Op>) returns (f: Draft)
    requires Shape(b) && |b.nodes| + n <= MAX_NODES && b.slots[0] >= 0 && b.slots[1] >= 0
    ensures Added(b, n, f)
    ensures var c, d := BuildRun(b, Repeated(n) + rest), BuildRun(f, rest); c.0 == d.0 && c.1 == n + d.1
    decreases n
  {
    if n == 0 {
      assert Repeated(0) + rest == rest;
      f := b;
    } else {
      var r := BuildOp(b, FADD);
      AddAdded(b);
      NextOf(FADD, Repeated(n - 1), rest);
      assert r.b.slots[1] == r.b.slots[1..][0] && b.slots[1] == b.slots[1..][0];
      hide BuildOp;
      f := AddsFill(r.b, n - 1, rest);
      hide BuildRun, Added;
      AddedOn(b, r.b, n - 1, f);
      BuildNext(b, FADD, Repeated(n - 1) + rest);
    }
  }

  lemma BuildNext(b: Draft, op: X87Model.Op, rest: seq<X87Model.Op>)
    requires Shape(b) && BuildOp(b, op).ok
    ensures var c, d := BuildRun(b, [op] + rest), BuildRun(BuildOp(b, op).b, rest); c.0 == d.0 && c.1 == 1 + d.1
  {
    assert ([op] + rest)[1..] == rest;
    hide BuildOp;
  }

  const LOST: seq<X87Model.Op> := [FADD] + Repeated(125) + [Fxch(2)]

  lemma FirstAdd()
    ensures var r := BuildOp(FRESH_DRAFT, FADD);
      r.ok && |r.b.nodes| == 3 && r.b.delta == 0 && r.b.slots == [2, 1, -3, -4, -5, -6, -7, -8] && r.b.initial[2] == -1
  {
  }

  /** With the list full, the unread slot changes places without being read. */
  lemma FullExchange(f: Draft)
    requires Shape(f) && |f.nodes| == MAX_NODES && f.slots[0] >= 0 && f.slots[2] == -3 && f.initial[2] == -1
    ensures BuildOp(f, Fxch(2)) == Built(f.(slots := f.slots[0 := -3][2 := f.slots[0]]), true)
  {
  }

  lemma LostBuild()
    ensures var (c, k) := BuildRun(FRESH_DRAFT, LOST);
      k == |LOST| && c.delta == 0 && c.slots[0] == -3 && c.slots[1] >= 0 && c.slots[2] >= 0 && c.slots[3..] == [-4, -5, -6, -7, -8]
  {
    var r, rest := BuildOp(FRESH_DRAFT, FADD).b, [Fxch(2)];
    FirstAdd();
    NextOf(FADD, Repeated(125), rest);
    BuildNext(FRESH_DRAFT, FADD, Repeated(125) + rest);
    hide BuildOp, BuildRun;
    var f := AddsFill(r, 125, rest);
    SlotsFrom(r, f);
    FullExchange(f);
    var g := BuildOp(f, Fxch(2)).b;
    assert rest == [Fxch(2)] + [];
    BuildNext(f, Fxch(2), []);
    BuildNone(g);
    assert g.slots[3..] == f.slots[3..];
  }

  lemma BuildNone(b: Draft)
    requires Shape(b)
    ensures BuildRun(b, []) == (b, 0)
  {
  }

  lemma SlotsFrom(b: Draft, f: Draft)
    requires |b.slots| == |f.slots| == 8 && b.slots[1..] == f.slots[1..]
    ensures b.slots[1] == f.slots[1] && b.slots[2] == f.slots[2] && b.slots[3..] == f.slots[3..]
  {
    assert b.slots[1..][0] == f.slots[1..][0] && b.slots[1..][1] == f.slots[1..][1];
    assert b.slots[3..] == b.slots[1..][2..] && f.slots[3..] == f.slots[1..][2..];
  }

  lemma {:induction false} AddsSafe(fpu: Fpu, a: Arch, n: nat)
    requires Filled(a.mem, 0) && Filled(a.mem, 1) && Filled(a.mem, 2)
    ensures SafeRun(fpu, a, Repeated(n) + [Fxch(2)])
    decreases n
  {
    var all := Repeated(n) + [Fxch(2)];
    if n == 0 {
      assert all == [Fxch(2)] && all[1..] == [];
    } else {
      var e := Eager(fpu, a, FADD);
      NextOf(FADD, Repeated(n - 1), [Fxch(2)]);
      StaysPut(fpu, a, FADD);
      SameFilled(a.mem, e.mem);
      assert Safe(a.mem, FADD);
      hide Eager, Filled, Safe;
      AddsSafe(fpu, e, n - 1);
    }
  }

  lemma OneDisplaced(m: X87, c: Draft)
    requires Shape(c) && c.delta == 0 && c.slots[0] == -3 && c.slots[1] >= 0 && c.slots[2] >= 0 && c.slots[3..] == [-4, -5, -6, -7, -8]
    ensures KeepsUnread(m, c) <==> Get(m, 2) == Get(m, 0)
  {
    assert Wrap(0) == 0;
    hide Get;
    assert KeptAt(m, c, 0) <==> Get(m, 2) == Get(m, 0);
    forall d: Depth
      ensures d > 0 ==> KeptAt(m, c, d)
    {
      if d >= 3 { assert c.slots[d] == c.slots[3..][d - 3] && Wrap(d) == d; }
    }
    hide KeptAt;
  }

  lemma LostKeeps(m: X87)
    ensures KeepsUnread(m, BuildRun(FRESH_DRAFT, LOST).0) <==> Get(m, 2) == Get(m, 0)
  {
    LostBuild();
    hide BuildRun, Get, KeepsUnread;
    OneDisplaced(m, BuildRun(FRESH_DRAFT, LOST).0);
  }

  /** A list that fills the 128 nodes before an exchange: right only where the two registers are equal at entry. */
  lemma ExchangeLost(s: Machine, fpu: Fpu, a: Arch)
    requires Implements(s, fpu, a.mem) && NegatesTwice(fpu) && Filled(a.mem, 0) && Filled(a.mem, 1) && Filled(a.mem, 2)
    ensures var b := BuildRun(FRESH_DRAFT, LOST).0;
      var o := OutcomeOf(s, a, IrOf(b));
      |o.slots| == 8 && (Alike(EagerRun(fpu, a, LOST), WrittenBack(a, o, b.delta)) <==> Get(a.mem, 2) == Get(a.mem, 0))
  {
    LostBuild();
    var k := BuildRun(FRESH_DRAFT, LOST).1;
    assert LOST[..k] == LOST;
    assert Repeated(126) == [FADD] + Repeated(125);
    AddsSafe(fpu, a, 126);
    LostKeeps(a.mem);
    hide Implements, NegatesTwice, BuildRun, EagerRun, KeepsUnread, Alike, WrittenBack, OutcomeOf, SafeRun, Get, Filled;
    BuiltExact(s, fpu, a, LOST);
  }

  // ---------------------------------------------------------------- FNSTSW in the list

  /** FNSTSW comes only where TOP is not above where it was at entry. */
  predicate StatusLow(delta: int, ops: seq<X87Model.Op>)
    decreases |ops|
  {
    ops == [] || ((ops[0].Fstsw? ==> delta <= 0) && StatusLow(delta + Moves(ops[0]), ops[1..]))
  }

  lemma AddNames()
    ensures forall b: Draft, n: Node :: LowNames(b.nodes) && (n.op.FStsw? ==> n.in1 <= 0 && n.in2 <= 0) ==> LowNames(AddNode(b, n).b.nodes)
  {
  }

  lemma ResolveNames()
    ensures forall b: Draft, d: Depth :: Shape(b) && LowNames(b.nodes) ==> LowNames(Resolve(b, d).b.nodes)
  {
    AddNames();
    hide AddNode, LowNames;
  }

  lemma LowBuild(b: Draft, op: X87Model.Op)
    requires Shape(b) && LowNames(b.nodes) && (op.Fstsw? ==> b.delta <= 0)
    ensures LowNames(BuildOp(b, op).b.nodes)
  {
    AddNames();
    ResolveNames();
    hide AddNode, LowNames, Resolve;
  }

  lemma {:induction false} LowRun(b: Draft, ops: seq<X87Model.Op>)
    requires Shape(b) && LowNames(b.nodes) && StatusLow(b.delta, ops)
    ensures LowNames(BuildRun(b, ops).0.nodes)
    decreases |ops|
  {
    hide BuildOp, LowNames, Moves;
    if ops != [] {
      BuildDelta(b, ops[0]);
      LowBuild(b, ops[0]);
      if BuildOp(b, ops[0]).ok { LowRun(BuildOp(b, ops[0]).b, ops[1..]); }
    }
  }

  lemma FreshNames()
    ensures LowNames(FRESH_DRAFT.nodes) && FRESH_DRAFT.delta == 0
  {
  }

  lemma SameOutcome(s: Machine, a: Arch, l: Laws, p: Ir, q: Ir)
    requires Equivalent(l, p, q) && Obeys(s, l)
    ensures OutcomeOf(s, a, p) == OutcomeOf(s, a, q)
  {
    assert Same(s, p, q);
    hide Meaning;
  }

  lemma LowMid(p: seq<Node>, q: seq<Node>)
    requires SameNames(p, q) && LowNames(p)
    ensures LowNames(q)
  {
    hide LiveStatus;
  }

  lemma TracksSound(s: Machine, a: Arch, b: Draft, e: Arch)
    requires Tracks(s, a, b, e)
    ensures Shape(b) && Sound(IrOf(b))
  {
    hide Aligned, Means, TagsMove, SlotTags, Sound;
  }

  /** What the optimized list leaves, for any list and state. */
  lemma OptimizedExact(s: Machine, fpu: Fpu, a: Arch, ops: seq<X87Model.Op>, q: Ir)
    requires Implements(s, fpu, a.mem) && NegatesTwice(fpu) && SafeBuilt(fpu, a, ops) && Lawful(fpu)
    requires Equivalent(ALL, IrOf(BuildRun(FRESH_DRAFT, ops).0), q)
    ensures var b := BuildRun(FRESH_DRAFT, ops).0;
      var o := OutcomeOf(s, a, q);
      |o.slots| == 8 && (Alike(Executed(fpu, a, ops), WrittenBack(a, o, b.delta)) <==> KeepsUnread(a.mem, b))
  {
    BuiltExact(s, fpu, a, ops);
    ObeysExact(s, fpu);
    hide Implements, NegatesTwice, SafeBuilt, Executed, Lawful, Obeys, Equivalent, WrittenBack, KeepsUnread, Alike, OutcomeOf, BuildRun;
    SameOutcome(s, a, ALL, IrOf(BuildRun(FRESH_DRAFT, ops).0), q);
  }

  /**
   A run through the front of the compiler.  Where an FNSTSW comes with TOP above its start, the list can
   mean something else (`X87ConstArith.StatusAfterFold`).
   */
  method Compile(ops: seq<X87Model.Op>, ghost s: Machine, ghost fpu: Fpu, ghost a: Arch) returns (c: Context, delta: int, taken: nat)
    requires Implements(s, fpu, a.mem) && NegatesTwice(fpu) && SafeBuilt(fpu, a, ops)
    ensures fresh(c) && taken == BuildRun(FRESH_DRAFT, ops).1 && delta == BuildRun(FRESH_DRAFT, ops).0.delta
    ensures StatusLow(0, ops) ==> Equivalent(ALL, IrOf(BuildRun(FRESH_DRAFT, ops).0), c.Form())
    ensures var b := BuildRun(FRESH_DRAFT, ops).0;
      var o := OutcomeOf(s, a, c.Form());
      Lawful(fpu) && Equivalent(ALL, IrOf(b), c.Form()) ==>
        |o.slots| == 8 && (Alike(Executed(fpu, a, ops), WrittenBack(a, o, delta)) <==> KeepsUnread(a.mem, b))
  {
    hide Implements, NegatesTwice, SafeBuilt, Executed, Lawful, Equivalent, WrittenBack, KeepsUnread, Alike, OutcomeOf, BuildRun;
    hide Tracks, Sound, Ready, NoHit, Counters, SameNames, LowNames, StatusLow;
    var b;
    b, taken := Build(ops);
    delta := b.delta;
    BuiltTracks(s, fpu, a, ops);
    TracksSound(s, a, b, Executed(fpu, a, ops));
    c := new Context(IrOf(b));
    ghost var mid := c.Optimize();
    if StatusLow(0, ops) {
      FreshNames();
      LowRun(FRESH_DRAFT, ops);
      LowMid(b.nodes, mid.nodes);
      LowNoHit(Work(mid, Counters(mid)), 0);
    }
    if Lawful(fpu) && Equivalent(ALL, IrOf(b), c.Form()) {
      OptimizedExact(s, fpu, a, ops, c.Form());
    }
  }
}
