/** What the list that is built means, compared with executing the instructions one by one. */
module X87Denotes {
  import opened Words
  import opened X87Model
  import opened I = X87IR
  import opened X87Optimize
  import opened X87ConstArith
  import opened X87Rules
  import opened X87Build
  import opened X87Refinement
  import X87Ops
  import Arm

  // ---------------------------------------------------------------- the machine of the x87 instructions

  /** C0 to C3 as a number. */
  function CcBits(sw: StatusWord): Word {
    sw.c0 + 2 * sw.c1 + 4 * sw.c2 + 8 * sw.c3
  }

  function WithBits(sw: StatusWord, codes: Word): StatusWord {
    sw.(c0 := codes % 2, c1 := (codes / 2) % 2, c2 := (codes / 4) % 2, c3 := (codes / 8) % 2)
  }

  const NO_STATUS: StatusWord := StatusWord(0, 0, 0, 0, 0, 0, 0)

  function CodesOf(o: Order): Word {
    CcBits(SetCc(NO_STATUS, o))
  }

  /** The status word when TOP has moved by delta. */
  function StatusAt(sw: StatusWord, codes: Word, delta: int): StatusWord {
    WithBits(sw, codes).(top := (sw.top + delta) % 8)
  }

  /** What each node computes is the operation of the floating-point unit with its name. */
  ghost predicate Computes(s: Machine, fpu: Fpu) {
    && (forall x: Word ::
          && s.unary(FNeg, x) == fpu.unary(Chs, x) && s.unary(FAbs, x) == fpu.unary(Abs, x) && s.unary(FSqrt, x) == fpu.unary(Sqrt, x)
          && s.test(x) == CodesOf(fpu.compare(x, POSITIVE_ZERO)))
    && (forall x: Word, y: Word ::
          && s.binary(FAdd, x, y) == fpu.binary(Add, x, y) && s.binary(FSub, x, y) == fpu.binary(Sub, x, y)
          && s.binary(FMul, x, y) == fpu.binary(Mul, x, y) && s.binary(FDiv, x, y) == fpu.binary(Div, x, y)
          && s.binary(FNMul, x, y) == fpu.nmul(x, y) && s.compare(x, y) == CodesOf(fpu.compare(x, y)))
    && (forall x: Word, y: Word, z: Word ::
          && s.fma(FMAdd, x, y, z) == fpu.fma(MAdd, x, y, z) && s.fma(FMSub, x, y, z) == fpu.fma(MSub, x, y, z)
          && s.fma(FNMSub, x, y, z) == fpu.fma(NMSub, x, y, z))
  }

  /** m is the state at entry; flags, control word and AX are changed as the instructions do. */
  ghost predicate Observes(s: Machine, fpu: Fpu, m: X87) {
    && (forall d: Depth, x: Word, y: Word, w: World :: s.observe(ReadSt, x, y, d, w) == Get(m, d))
    && (forall cond: Cond, x: Word, y: Word, w: World ::
          s.observe(FCSel, x, y, X87Ops.ArmCond(cond), w) == if CondHolds(cond, w.flags) then y else x)
    && (forall x: Word, y: Word, imm: Word, aux: Word, w: World ::
          s.effect(FComI, x, y, imm, aux, w) == w.(flags := FcomiFlags(fpu.compare(x, y))))
    && (forall x: Word, y: Word, v: Half, aux: Word, w: World :: s.effect(StoreCW, x, y, v, aux, w) == w.(control := v))
    && (forall codes: Word, delta: int, w: World ::
          s.status(codes, 0, delta, w) == w.(guest := [EncodeSw(StatusAt(m.sw, codes, delta)) as int]))
  }

  ghost predicate Implements(s: Machine, fpu: Fpu, m: X87) {
    Computes(s, fpu) && Observes(s, fpu, m)
  }

  function ByFpu(fpu: Fpu, op: I.Op, x: Word): Word {
    match op case FNeg => fpu.unary(Chs, x) case FAbs => fpu.unary(Abs, x) case FSqrt => fpu.unary(Sqrt, x) case _ => 0
  }

  function ByFpu2(fpu: Fpu, op: I.Op, x: Word, y: Word): Word {
    match op
    case FAdd => fpu.binary(Add, x, y)
    case FSub => fpu.binary(Sub, x, y)
    case FMul => fpu.binary(Mul, x, y)
    case FDiv => fpu.binary(Div, x, y)
    case FNMul => fpu.nmul(x, y)
    case _ => 0
  }

  function ByFpu3(fpu: Fpu, op: I.Op, x: Word, y: Word, z: Word): Word {
    match op case FMAdd => fpu.fma(MAdd, x, y, z) case FMSub => fpu.fma(MSub, x, y, z) case FNMSub => fpu.fma(NMSub, x, y, z) case _ => 0
  }

  function Observed(m: X87, op: I.Op, x: Word, y: Word, imm: Word, w: World): Word {
    if op.ReadSt? then if imm < 8 then Get(m, imm) else 0
    else if op.FCSel? && imm < 16 && Arm.Holds(imm, w.flags) then y else x
  }

  function Changed(fpu: Fpu, op: I.Op, x: Word, y: Word, imm: Word, w: World): World {
    if op.FComI? then w.(flags := FcomiFlags(fpu.compare(x, y)))
    else if op.StoreCW? && imm < 0x1_0000 then w.(control := imm)
    else w
  }

  /** The machine of a floating-point unit and a state at entry. */
  function MachineOf(fpu: Fpu, m: X87): Machine {
    Machine(
      (op, x) => ByFpu(fpu, op, x), (op, x, y) => ByFpu2(fpu, op, x, y), (op, x, y, z) => ByFpu3(fpu, op, x, y, z),
      (op, x: Word, y: Word, imm: Word, w) => Observed(m, op, x, y, imm, w), (op, x: Word, y: Word, imm: Word, aux: Word, w) => Changed(fpu, op, x, y, imm, w),
      (codes: Word, reg, delta, w: World) => w.(guest := [EncodeSw(StatusAt(m.sw, codes, delta)) as int]),
      (x, y) => CodesOf(fpu.compare(x, y)), x => CodesOf(fpu.compare(x, POSITIVE_ZERO)))
  }

  lemma MachineOfImplements(fpu: Fpu, m: X87)
    ensures Implements(MachineOf(fpu, m), fpu, m)
  {
    MachineOfComputes(fpu, m);
    hide Get, EncodeSw, StatusAt, CodesOf, FcomiFlags, CondHolds, X87Ops.ArmCond, Computes;
    forall cond: Cond, w: World
      ensures X87Ops.ArmCond(cond) < 16 && (Arm.Holds(X87Ops.ArmCond(cond), w.flags) <==> CondHolds(cond, w.flags))
    {
      X87Ops.ArmCondHolds(cond, w.flags);
      ArmCondSmall(cond);
    }
    hide Arm.Holds;
  }

  lemma ArmCondSmall(cond: Cond)
    ensures X87Ops.ArmCond(cond) < 16
  {
  }

  lemma MachineOfComputes(fpu: Fpu, m: X87)
    ensures Computes(MachineOf(fpu, m), fpu)
  {
    hide CodesOf, Observed, Changed, EncodeSw, StatusAt;
  }

  /** FCHS twice is nothing. */
  ghost predicate NegatesTwice(fpu: Fpu) {
    forall x: Word :: fpu.unary(Chs, fpu.unary(Chs, x)) == x
  }

  function Start(a: Arch): Env {
    Env([], CcBits(a.mem.sw), World(map[], [a.ax as int], a.flags, a.mem.cw))
  }

  function EnvOf(s: Machine, a: Arch, b: Draft): Env {
    RunTo(s, b.nodes, |b.nodes|, Start(a))
  }

  // ---------------------------------------------------------------- the relation

  predicate Live(b: Draft, id: int) {
    0 <= id < |b.nodes| && Plain(b.nodes[id])
  }

  /** What can be used again is what it says. */
  predicate Reusable(b: Draft) {
    && |b.initial| == 8
    && (forall i: Depth :: b.initial[i] >= 0 ==> b.initial[i] < |b.nodes| && b.nodes[b.initial[i]] == Simple(ReadSt, -1, -1, -1, i))
    && (b.zero >= 0 ==> b.zero < |b.nodes| && b.nodes[b.zero] == Simple(ConstZero, -1, -1, -1, 0))
    && (b.one >= 0 ==> b.one < |b.nodes| && b.nodes[b.one] == Simple(ConstOne, -1, -1, -1, 0))
    && (b.fcmp >= 0 ==>
          && b.fcmp < |b.nodes| && LiveCompare(b.nodes[b.fcmp])
          && forall j :: b.fcmp < j < |b.nodes| ==> !LiveCompare(b.nodes[j]))
  }

  predicate Formed(b: Draft) {
    Shape(b) && Sound(IrOf(b)) && Reusable(b) && (forall k :: 0 <= k < |b.nodes| ==> !b.nodes[k].dead)
  }

  predicate SlotHolds(vals: seq<Word>, slot: int, m: X87, e: X87, d: Depth) {
    && (slot >= 0 ==> slot < |vals| && vals[slot] == Get(e, d))
    && (-8 <= slot < 0 ==> Get(e, d) == Get(m, -(slot + 1)))
  }

  /** Started in a, the list leaves what the instructions so far leave, e, but for the tag word. */
  ghost predicate Means(s: Machine, a: Arch, b: Draft, e: Arch)
    requires Shape(b)
  {
    var v := EnvOf(s, a, b);
    && v.world == World(map[], [e.ax as int], e.flags, e.mem.cw)
    && e.mem.sw == StatusAt(a.mem.sw, v.codes, b.delta)
    && forall d: Depth :: SlotHolds(v.vals, b.slots[d], a.mem, e.mem, d)
  }

  // ---------------------------------------------------------------- one more node

  lemma {:induction false} RunPrefix(s: Machine, nodes: seq<Node>, n: Node, k: nat, e: Env)
    requires k <= |nodes|
    ensures RunTo(s, nodes + [n], k, e) == RunTo(s, nodes, k, e)
  {
    hide Exec;
    if k > 0 {
      RunPrefix(s, nodes, n, k - 1, e);
    }
  }

  lemma OneMore(s: Machine, a: Arch, b: Draft, n: Node)
    ensures EnvOf(s, a, b.(nodes := b.nodes + [n])) == Exec(s, n, EnvOf(s, a, b))
    ensures |EnvOf(s, a, b).vals| == |b.nodes|
  {
    RunPrefix(s, b.nodes, n, |b.nodes|, Start(a));
    ValsGrow(s, b.nodes, Start(a), 0, |b.nodes|);
    hide Exec;
  }

  /** May the node come next? */
  predicate Fits(b: Draft, n: Node)
    requires Shape(b)
  {
    && |b.nodes| < MAX_NODES && !n.dead
    && GoodNode(b.nodes + [n], |b.nodes|)
    && (n.op.FStsw? ==> n.in0 == b.fcmp)
  }

  lemma LaterGood(nodes: seq<Node>, n: Node, k: nat)
    requires k < |nodes| && GoodNode(nodes, k)
    ensures GoodNode(nodes + [n], k)
  {
  }

  lemma FormedMore(b: Draft, n: Node)
    requires Formed(b) && Fits(b, n) && !IsCompare(n.op)
    ensures Formed(b.(nodes := b.nodes + [n]))
  {
    var c := b.(nodes := b.nodes + [n]);
    forall k | 0 <= k < |c.nodes|
      ensures GoodNode(c.nodes, k) && PairedAt(c.nodes, k)
    {
      if k < |b.nodes| {
        assert GoodNode(b.nodes, k) && PairedAt(b.nodes, k);
        LaterGood(b.nodes, n, k);
        LaterPaired(b.nodes, n, k);
      } else {
        LastPaired(b, n);
      }
    }
    assert forall d :: 0 <= d < 8 ==> ValueBefore(b.nodes, b.slots[d], |b.nodes|);
    hide GoodNode, PairedAt;
  }

  lemma LaterPaired(nodes: seq<Node>, n: Node, k: nat)
    requires k < |nodes| && PairedAt(nodes, k)
    ensures PairedAt(nodes + [n], k)
  {
  }

  lemma LastPaired(b: Draft, n: Node)
    requires Shape(b) && Reusable(b) && (n.op.FStsw? ==> n.in0 == b.fcmp)
    ensures PairedAt(b.nodes + [n], |b.nodes|)
  {
  }

  function Mem(e: Arch, m: X87): Arch {
    e.(mem := m)
  }

  function More(b: Draft, n: Node): Draft {
    b.(nodes := b.nodes + [n])
  }

  /** A value nobody uses yet changes nothing. */
  lemma ValueMore(s: Machine, a: Arch, b: Draft, n: Node, e: Arch)
    requires Shape(b) && Means(s, a, b, e) && Plain(n) && |b.nodes| < MAX_NODES
    ensures Means(s, a, More(b, n), e)
    ensures var v, w := EnvOf(s, a, b), EnvOf(s, a, More(b, n)); w.vals == v.vals + [Value(s, n, v.vals, v.world)]
  {
    OneMore(s, a, b, n);
    hide EnvOf, Value, Get, StatusAt;
  }

  /** A value in a slot is a value in a register. */
  lemma SlotMeans(s: Machine, a: Arch, b: Draft, d: Depth, id: int, e: Arch, v: Word)
    requires Shape(b) && Means(s, a, b, e) && 0 <= id < |EnvOf(s, a, b).vals| && EnvOf(s, a, b).vals[id] == v
    ensures Means(s, a, InSlot(b, d, id), Mem(e, Put(e.mem, d, v)))
  {
    assert EnvOf(s, a, InSlot(b, d, id)) == EnvOf(s, a, b);
    forall k: Depth
      ensures Get(Put(e.mem, d, v), k) == if k == d then v else Get(e.mem, k)
    {
      OtherDepth(e.mem.sw.top, d, k);
    }
    hide EnvOf, Get, StatusAt;
  }

  lemma OtherDepth(t: Depth, d: Depth, k: Depth)
    ensures Phys(t, d) == Phys(t, k) <==> d == k
  {
  }

  lemma SlotFormed(b: Draft, d: Depth, id: int)
    requires Formed(b) && Live(b, id)
    ensures Formed(InSlot(b, d, id))
  {
    var c := InSlot(b, d, id);
    forall k | 0 <= k < 8
      ensures ValueBefore(c.nodes, c.slots[k], |c.nodes|)
    {
      assert ValueBefore(b.nodes, b.slots[k], |b.nodes|);
    }
    hide GoodNode, PairedAt, Reusable, ValueBefore;
  }

  lemma PushMeans(s: Machine, a: Arch, b: Draft, id: int, e: Arch, v: Word)
    requires Shape(b) && Means(s, a, b, e) && 0 <= id < |EnvOf(s, a, b).vals| && EnvOf(s, a, b).vals[id] == v
    ensures Means(s, a, PushNode(b, id), Mem(e, Put(Push(e.mem), 0, v)))
  {
    var c := PushNode(b, id);
    assert EnvOf(s, a, c) == EnvOf(s, a, b);
    var m := Put(Push(e.mem), 0, v);
    forall d: Depth
      ensures Get(m, d) == if d == 0 then v else Get(e.mem, d - 1)
      ensures c.slots[d] == if d == 0 then id else b.slots[d - 1]
    {
      PushedDepth(e.mem.sw.top, d);
    }
    MovedStatus(a.mem.sw, EnvOf(s, a, b).codes, b.delta, -1);
    assert Dec(e.mem.sw.top) == (e.mem.sw.top - 1) % 8;
    hide EnvOf, Get, StatusAt, Phys, Dec;
  }

  lemma PushedDepth(t: Depth, d: Depth)
    ensures Phys(Dec(t), 0) == Dec(t)
    ensures d > 0 ==> Phys(Dec(t), d) == Phys(t, d - 1) && Phys(Dec(t), d) != Dec(t)
  {
  }

  lemma MovedStatus(sw: StatusWord, codes: Word, delta: int, by1: int)
    ensures StatusAt(sw, codes, delta + by1) == StatusAt(sw, codes, delta).(top := (StatusAt(sw, codes, delta).top + by1) % 8)
  {
    AddMod8(sw.top + delta, by1);
    hide WithBits;
  }

  lemma AddMod8(x: int, y: int)
    ensures (x % 8 + y) % 8 == (x + y) % 8
  {
  }

  lemma PopMeans(s: Machine, a: Arch, b: Draft, e: Arch)
    requires Shape(b) && Means(s, a, b, e)
    ensures Means(s, a, PopNode(b), Mem(e, Pop(e.mem)))
  {
    var c := PopNode(b);
    assert EnvOf(s, a, c) == EnvOf(s, a, b);
    forall d: Depth
      ensures d < 7 ==> Get(Pop(e.mem), d) == Get(e.mem, d + 1) && c.slots[d] == b.slots[d + 1]
      ensures d == 7 ==> c.slots[d] == GONE
    {
      PoppedDepth(e.mem.sw.top, d);
    }
    MovedStatus(a.mem.sw, EnvOf(s, a, b).codes, b.delta, 1);
    hide EnvOf, Get, StatusAt, Phys;
  }

  lemma PoppedDepth(t: Depth, d: Depth)
    ensures d < 7 ==> Phys(Inc(t), d) == Phys(t, d + 1)
  {
  }

  lemma PushFormed(b: Draft, id: int)
    requires Formed(b) && Live(b, id)
    ensures Formed(PushNode(b, id))
  {
    var c := PushNode(b, id);
    forall d | 0 <= d < 8
      ensures ValueBefore(c.nodes, c.slots[d], |c.nodes|)
    {
      assert d > 0 ==> c.slots[d] == b.slots[d - 1];
      assert d > 0 ==> ValueBefore(b.nodes, b.slots[d - 1], |b.nodes|);
    }
    hide GoodNode, PairedAt, Reusable, ValueBefore;
  }

  lemma PopFormed(b: Draft)
    requires Formed(b)
    ensures Formed(PopNode(b))
  {
    var c := PopNode(b);
    forall d | 0 <= d < 8
      ensures ValueBefore(c.nodes, c.slots[d], |c.nodes|)
    {
      assert d < 7 ==> c.slots[d] == b.slots[d + 1];
      assert d < 7 ==> ValueBefore(b.nodes, b.slots[d + 1], |b.nodes|);
    }
    hide GoodNode, PairedAt, Reusable;
  }

  // ---------------------------------------------------------------- finding the value of a register

  /** What a formed list knows of its values: reads, constants and negations. */
  lemma KnownValues(s: Machine, fpu: Fpu, a: Arch, b: Draft, k: nat)
    requires Formed(b) && Implements(s, fpu, a.mem) && k < |b.nodes|
    ensures var v, n := EnvOf(s, a, b).vals, b.nodes[k];
      && |v| == |b.nodes|
      && (n.op.FNeg? ==> 0 <= n.in0 < k && Plain(b.nodes[n.in0]) && v[k] == s.unary(FNeg, v[n.in0]))
      && (n.op.ConstZero? ==> v[k] == POSITIVE_ZERO) && (n.op.ConstOne? ==> v[k] == POSITIVE_ONE)
      && (n.op.ReadSt? && n.imm < 8 ==> v[k] == Get(a.mem, n.imm))
  {
    var n := b.nodes[k];
    assert GoodNode(b.nodes, k) && !n.dead;
    ValueIs(s, b.nodes, Start(a), k);
    assert Vals(s, b.nodes, Start(a)) == EnvOf(s, a, b).vals;
    hide EnvOf, RunTo, Vals, Good, PairedAt, Reusable, Get, Start;
  }

  lemma LiveSlot(b: Draft, d: Depth)
    requires Formed(b) && b.slots[d] >= 0
    ensures Live(b, b.slots[d])
  {
    assert ValueBefore(b.nodes, b.slots[d], |b.nodes|);
  }

  /** Resolving a slot changes no meaning; the node has the value of the register. */
  lemma ResolveMeans(s: Machine, fpu: Fpu, a: Arch, b: Draft, d: Depth, e: Arch)
    requires Formed(b) && Means(s, a, b, e) && Implements(s, fpu, a.mem)
    ensures var g := Resolve(b, d);
      && Formed(g.b) && Means(s, a, g.b, e)
      && (g.id >= 0 ==> Live(g.b, g.id) && g.b.slots[d] == g.id && In(EnvOf(s, a, g.b).vals, g.id) == Get(e.mem, d))
      && (forall k: Depth :: k != d ==> g.b.slots[k] == b.slots[k])
      && g.b == b.(nodes := g.b.nodes, slots := g.b.slots, initial := g.b.initial)
  {
    var slot := b.slots[d];
    if slot >= 0 {
      LiveSlot(b, d);
      hide EnvOf, Formed;
    } else if slot >= -8 {
      var i: Depth := -(slot + 1);
      if b.initial[i] >= 0 {
        KnownValues(s, fpu, a, b, b.initial[i]);
        KnownRead(s, a, b, d, b.initial[i], e);
      } else {
        hide EnvOf, Means, Formed;
        if |b.nodes| < MAX_NODES {
          NewRead(s, fpu, a, b, d, i, e);
        }
      }
    }
  }

  lemma KnownRead(s: Machine, a: Arch, b: Draft, d: Depth, id: int, e: Arch)
    requires Formed(b) && Means(s, a, b, e) && Live(b, id) && In(EnvOf(s, a, b).vals, id) == Get(e.mem, d)
    ensures var c := InSlot(b, d, id); Formed(c) && Means(s, a, c, e) && In(EnvOf(s, a, c).vals, id) == Get(e.mem, d)
  {
    EnvLength(s, a, b);
    SlotFormed(b, d, id);
    SlotMeans(s, a, b, d, id, e, Get(e.mem, d));
    PutGet(e.mem, d);
    hide Formed, Means, EnvOf, Get, Put;
    SameEnv(s, a, b, d, id);
  }

  lemma EnvLength(s: Machine, a: Arch, b: Draft)
    ensures |EnvOf(s, a, b).vals| == |b.nodes|
  {
    ValsGrow(s, b.nodes, Start(a), 0, |b.nodes|);
  }

  lemma SameEnv(s: Machine, a: Arch, b: Draft, d: Depth, id: int)
    requires Shape(b)
    ensures EnvOf(s, a, InSlot(b, d, id)) == EnvOf(s, a, b)
  {
  }

  lemma PutGet(m: X87, d: Depth)
    ensures Put(m, d, Get(m, d)) == m
  {
    hide Phys;
    assert m.st[Phys(m.sw.top, d) := m.st[Phys(m.sw.top, d)]] == m.st;
  }

  lemma ReadFormed(b: Draft, i: Depth)
    requires Formed(b) && |b.nodes| < MAX_NODES && b.initial[i] < 0
    ensures var c := More(b, Simple(ReadSt, -1, -1, -1, i));
      Formed(c) && Formed(c.(initial := c.initial[i := |b.nodes|])) && Live(c, |b.nodes|)
  {
    var n := Simple(ReadSt, -1, -1, -1, i);
    assert Fits(b, n);
    FormedMore(b, n);
    hide GoodNode, PairedAt;
  }

  lemma NewRead(s: Machine, fpu: Fpu, a: Arch, b: Draft, d: Depth, i: Depth, e: Arch)
    requires Formed(b) && Means(s, a, b, e) && Implements(s, fpu, a.mem) && |b.nodes| < MAX_NODES
    requires b.slots[d] == -(i + 1) && b.initial[i] < 0
    ensures var g := Resolve(b, d);
      && Formed(g.b) && Means(s, a, g.b, e) && g.id == |b.nodes| && Live(g.b, g.id)
      && In(EnvOf(s, a, g.b).vals, g.id) == Get(e.mem, d)
  {
    var n := Simple(ReadSt, -1, -1, -1, i);
    var c, id := More(b, n), |b.nodes|;
    ReadFormed(b, i);
    ValueMore(s, a, b, n, e);
    OneMore(s, a, b, n);
    ReadValue(s, fpu, a, b, d, i, e);
    var f := c.(initial := c.initial[i := id]);
    hide Formed, Get, Implements, Exec, Value, StatusAt;
    assert EnvOf(s, a, f) == EnvOf(s, a, c) && Live(f, id);
    assert Means(s, a, f, e);
    hide Means, EnvOf;
    KnownRead(s, a, f, d, id, e);
  }

  lemma ReadValue(s: Machine, fpu: Fpu, a: Arch, b: Draft, d: Depth, i: Depth, e: Arch)
    requires Shape(b) && Means(s, a, b, e) && Implements(s, fpu, a.mem) && b.slots[d] == -(i + 1)
    ensures var v := EnvOf(s, a, b); Value(s, Simple(ReadSt, -1, -1, -1, i), v.vals, v.world) == Get(e.mem, d)
  {
    assert SlotHolds(EnvOf(s, a, b).vals, b.slots[d], a.mem, e.mem, d);
    hide EnvOf, Get, StatusAt;
  }

  /** Formed, and meaning what the instructions so far do. */
  ghost predicate Denotes(s: Machine, a: Arch, b: Draft, e: Arch) {
    Formed(b) && Means(s, a, b, e)
  }

  /** Live at depth d, with its value. */
  ghost predicate Holds(s: Machine, a: Arch, b: Draft, id: int, v: Word) {
    Live(b, id) && In(EnvOf(s, a, b).vals, id) == v
  }

  lemma SlotValue(s: Machine, a: Arch, b: Draft, d: Depth, e: Arch)
    requires Denotes(s, a, b, e) && b.slots[d] >= 0
    ensures Holds(s, a, b, b.slots[d], Get(e.mem, d))
  {
    LiveSlot(b, d);
    assert SlotHolds(EnvOf(s, a, b).vals, b.slots[d], a.mem, e.mem, d);
    hide Formed, EnvOf, Get;
  }

  lemma ResolveOne(s: Machine, fpu: Fpu, a: Arch, b: Draft, d: Depth, e: Arch)
    requires Denotes(s, a, b, e) && Implements(s, fpu, a.mem)
    ensures var g := Resolve(b, d);
      && Denotes(s, a, g.b, e) && (g.id >= 0 ==> Holds(s, a, g.b, g.id, Get(e.mem, d)))
      && g.b == b.(nodes := g.b.nodes, slots := g.b.slots, initial := g.b.initial)
  {
    ResolveMeans(s, fpu, a, b, d, e);
  }

  lemma ResolveTwo(s: Machine, fpu: Fpu, a: Arch, b: Draft, d: Depth, f: Depth, e: Arch)
    requires Denotes(s, a, b, e) && Implements(s, fpu, a.mem)
    ensures var x := Resolve(b, d);
      var y := Resolve(x.b, f);
      && Denotes(s, a, y.b, e)
      && (x.id >= 0 && y.id >= 0 ==> Holds(s, a, y.b, x.id, Get(e.mem, d)) && Holds(s, a, y.b, y.id, Get(e.mem, f)))
      && y.b == b.(nodes := y.b.nodes, slots := y.b.slots, initial := y.b.initial)
  {
    var x := Resolve(b, d);
    ResolveMeans(s, fpu, a, b, d, e);
    ResolveMeans(s, fpu, a, x.b, f, e);
    var y := Resolve(x.b, f);
    if x.id >= 0 && y.id >= 0 {
      assert y.b.slots[d] == x.id;
      hide Formed, Means, EnvOf, Resolve, Implements;
      SlotValue(s, a, y.b, d, e);
    }
  }

  predicate LiveOrNone(b: Draft, id: int) {
    id == -1 || Live(b, id)
  }

  lemma FitsValue(b: Draft, n: Node)
    requires Formed(b) && |b.nodes| < MAX_NODES && !n.dead && !n.op.FStsw?
    requires LiveOrNone(b, n.in0) && LiveOrNone(b, n.in1) && n.in2 == -1
    requires (Arity(n.op) > 0 ==> n.in0 >= 0) && (Arity(n.op) > 1 ==> n.in1 >= 0) && Arity(n.op) <= 2
    ensures Fits(b, n)
  {
  }

  /** A new value goes into a slot, or the list is full. */
  lemma PlaceDenotes(s: Machine, a: Arch, b: Draft, n: Node, d: Depth, e: Arch, v: Word)
    requires Denotes(s, a, b, e) && Plain(n) && (|b.nodes| < MAX_NODES ==> Fits(b, n))
    requires Value(s, n, EnvOf(s, a, b).vals, EnvOf(s, a, b).world) == v
    ensures var r := Place(b, n, d); Denotes(s, a, r.b, if r.ok then Mem(e, Put(e.mem, d, v)) else e)
  {
    if |b.nodes| < MAX_NODES {
      var c, id := More(b, n), |b.nodes|;
      FormedMore(b, n);
      ValueMore(s, a, b, n, e);
      OneMore(s, a, b, n);
      assert Live(c, id) && EnvOf(s, a, c).vals[id] == v;
      EnvLength(s, a, c);
      hide Formed, Means, EnvOf, Fits, Value, Put;
      SlotFormed(c, d, id);
      SlotMeans(s, a, c, d, id, e, v);
    }
  }

  // ---------------------------------------------------------------- one instruction

  lemma ArithDenotes(s: Machine, fpu: Fpu, a: Arch, b: Draft, fn: Fn, rev: bool, d: Depth, f: Depth, e: Arch)
    requires Denotes(s, a, b, e) && Implements(s, fpu, a.mem)
    ensures var r := BuildArith(b, BinaryOf(fn), rev, d, f);
      Denotes(s, a, r.b, if r.ok then Mem(e, Put(e.mem, d, Combine(fpu, fn, rev, Get(e.mem, d), Get(e.mem, f)))) else e)
  {
    ResolveTwo(s, fpu, a, b, d, f, e);
    var x := Resolve(b, d);
    var y := Resolve(x.b, f);
    if x.id >= 0 && y.id >= 0 {
      var n := if rev then Simple(BinaryOf(fn), y.id, x.id, -1, 0) else Simple(BinaryOf(fn), x.id, y.id, -1, 0);
      if |y.b.nodes| < MAX_NODES { FitsValue(y.b, n); }
      BinaryValue(s, fpu, a, n, fn, EnvOf(s, a, y.b).vals, EnvOf(s, a, y.b).world);
      hide Denotes, EnvOf, Implements, Get, Put, Resolve, Live, Fits;
      PlaceDenotes(s, a, y.b, n, d, e, Combine(fpu, fn, rev, Get(e.mem, d), Get(e.mem, f)));
    }
  }

  lemma BinaryValue(s: Machine, fpu: Fpu, a: Arch, n: Node, fn: Fn, vals: seq<Word>, world: World)
    requires Implements(s, fpu, a.mem) && n.op == BinaryOf(fn)
    ensures Value(s, n, vals, world) == fpu.binary(fn, In(vals, n.in0), In(vals, n.in1)) && !IsEffect(n.op) && IsBinary(n.op)
  {
    hide In;
  }

  lemma UnaryValue(s: Machine, fpu: Fpu, a: Arch, n: Node, u: UnaryFn, vals: seq<Word>, world: World)
    requires Implements(s, fpu, a.mem) && n.op == UnaryOf(u)
    ensures Value(s, n, vals, world) == fpu.unary(u, In(vals, n.in0)) && !IsEffect(n.op) && IsUnary(n.op)
  {
    hide In;
  }

  lemma UnaryDenotes(s: Machine, fpu: Fpu, a: Arch, b: Draft, u: UnaryFn, e: Arch)
    requires Denotes(s, a, b, e) && Implements(s, fpu, a.mem) && NegatesTwice(fpu)
    ensures var r := BuildUnary(b, u);
      Denotes(s, a, r.b, if r.ok then Mem(e, Put(e.mem, 0, fpu.unary(u, Get(e.mem, 0)))) else e)
  {
    ResolveOne(s, fpu, a, b, 0, e);
    var g := Resolve(b, 0);
    if g.id >= 0 {
      if u.Chs? && g.b.nodes[g.id].op.FNeg? {
        NegatedTwice(s, fpu, a, g.b, g.id, e);
      } else {
        var n := Simple(UnaryOf(u), g.id, -1, -1, 0);
        if |g.b.nodes| < MAX_NODES { FitsValue(g.b, n); }
        UnaryValue(s, fpu, a, n, u, EnvOf(s, a, g.b).vals, EnvOf(s, a, g.b).world);
        hide Denotes, EnvOf, Implements, Get, Put, Resolve, Fits;
        PlaceDenotes(s, a, g.b, n, 0, e, fpu.unary(u, Get(e.mem, 0)));
      }
    }
  }

  lemma NegatedTwice(s: Machine, fpu: Fpu, a: Arch, b: Draft, id: int, e: Arch)
    requires Denotes(s, a, b, e) && Implements(s, fpu, a.mem) && NegatesTwice(fpu)
    requires Holds(s, a, b, id, Get(e.mem, 0)) && b.nodes[id].op.FNeg?
    ensures Denotes(s, a, InSlot(b, 0, b.nodes[id].in0), Mem(e, Put(e.mem, 0, fpu.unary(Chs, Get(e.mem, 0)))))
  {
    var x := b.nodes[id].in0;
    KnownValues(s, fpu, a, b, id);
    NegIsChs(s, fpu, a, EnvOf(s, a, b).vals[x]);
    assert fpu.unary(Chs, Get(e.mem, 0)) == EnvOf(s, a, b).vals[x];
    hide Formed, Means, EnvOf, Implements, Get, Put;
    SlotFormed(b, 0, x);
    SlotMeans(s, a, b, 0, x, e, fpu.unary(Chs, Get(e.mem, 0)));
  }

  lemma NegIsChs(s: Machine, fpu: Fpu, a: Arch, x: Word)
    requires Implements(s, fpu, a.mem)
    ensures s.unary(FNeg, x) == fpu.unary(Chs, x)
  {
    assert UnaryOf(Chs) == FNeg;
  }

  lemma PushDenotes(s: Machine, a: Arch, b: Draft, id: int, e: Arch, v: Word)
    requires Denotes(s, a, b, e) && Holds(s, a, b, id, v)
    ensures Denotes(s, a, PushNode(b, id), Mem(e, Put(Push(e.mem), 0, v)))
  {
    EnvLength(s, a, b);
    assert Shape(b);
    hide Formed, Means, EnvOf;
    PushFormed(b, id);
    PushMeans(s, a, b, id, e, v);
  }

  lemma PopDenotes(s: Machine, a: Arch, b: Draft, e: Arch)
    requires Denotes(s, a, b, e)
    ensures Denotes(s, a, PopNode(b), Mem(e, Pop(e.mem)))
  {
    assert Shape(b);
    hide Formed, Means;
    PopFormed(b);
    PopMeans(s, a, b, e);
  }

  lemma PopIfDenotes(s: Machine, a: Arch, b: Draft, pop: bool, e: Arch)
    requires Denotes(s, a, b, e)
    ensures Denotes(s, a, PopNodeIf(b, pop), Mem(e, PopIf(e.mem, pop)))
  {
    if pop { PopDenotes(s, a, b, e); }
    hide Denotes;
  }

  /** A constant that is new, or known. */
  lemma ConstDenotes(s: Machine, a: Arch, b: Draft, n: Node, e: Arch)
    requires Denotes(s, a, b, e) && |b.nodes| < MAX_NODES
    requires n == Simple(ConstZero, -1, -1, -1, 0) || n == Simple(ConstOne, -1, -1, -1, 0)
    ensures Denotes(s, a, More(b, n), e)
    ensures Holds(s, a, More(b, n), |b.nodes|, if n.op.ConstZero? then POSITIVE_ZERO else POSITIVE_ONE)
  {
    FitsValue(b, n);
    FormedMore(b, n);
    ValueMore(s, a, b, n, e);
    OneMore(s, a, b, n);
    hide Formed, Means, EnvOf;
  }

  lemma ZeroDenotes(s: Machine, fpu: Fpu, a: Arch, b: Draft, e: Arch)
    requires Denotes(s, a, b, e) && Implements(s, fpu, a.mem)
    ensures var r := BuildFldz(b);
      Denotes(s, a, r.b, if r.ok then Mem(e, Put(Push(e.mem), 0, POSITIVE_ZERO)) else e)
  {
    var n := Simple(ConstZero, -1, -1, -1, 0);
    if b.zero >= 0 {
      KnownValues(s, fpu, a, b, b.zero);
      assert Holds(s, a, b, b.zero, POSITIVE_ZERO);
      hide Denotes, Holds, Implements, Put;
      assert b.(zero := b.zero) == b;
      PushDenotes(s, a, b, b.zero, e, POSITIVE_ZERO);
    } else if |b.nodes| < MAX_NODES {
      ConstDenotes(s, a, b, n, e);
      var c, id := More(b, n), |b.nodes|;
      SameButZero(s, a, c, id, e);
      hide Denotes, Holds, Implements, Put;
      PushDenotes(s, a, c.(zero := id), id, e, POSITIVE_ZERO);
    }
  }

  lemma SameButZero(s: Machine, a: Arch, b: Draft, id: int, e: Arch)
    requires Denotes(s, a, b, e) && 0 <= id < |b.nodes| && b.nodes[id] == Simple(ConstZero, -1, -1, -1, 0)
    ensures Denotes(s, a, b.(zero := id), e)
    ensures EnvOf(s, a, b.(zero := id)) == EnvOf(s, a, b)
  {
    hide GoodNode, PairedAt;
  }

  lemma SameButOne(s: Machine, a: Arch, b: Draft, id: int, e: Arch)
    requires Denotes(s, a, b, e) && 0 <= id < |b.nodes| && b.nodes[id] == Simple(ConstOne, -1, -1, -1, 0)
    ensures Denotes(s, a, b.(one := id), e)
    ensures EnvOf(s, a, b.(one := id)) == EnvOf(s, a, b)
  {
    hide GoodNode, PairedAt;
  }

  lemma OneDenotes(s: Machine, fpu: Fpu, a: Arch, b: Draft, e: Arch)
    requires Denotes(s, a, b, e) && Implements(s, fpu, a.mem)
    ensures var r := BuildFld1(b);
      Denotes(s, a, r.b, if r.ok then Mem(e, Put(Push(e.mem), 0, POSITIVE_ONE)) else e)
  {
    var n := Simple(ConstOne, -1, -1, -1, 0);
    if b.one >= 0 {
      KnownValues(s, fpu, a, b, b.one);
      assert Holds(s, a, b, b.one, POSITIVE_ONE);
      hide Denotes, Holds, Implements, Put;
      assert b.(one := b.one) == b;
      PushDenotes(s, a, b, b.one, e, POSITIVE_ONE);
    } else if |b.nodes| < MAX_NODES {
      ConstDenotes(s, a, b, n, e);
      var c, id := More(b, n), |b.nodes|;
      SameButOne(s, a, c, id, e);
      hide Denotes, Holds, Implements, Put;
      PushDenotes(s, a, c.(one := id), id, e, POSITIVE_ONE);
    }
  }

  lemma FldDenotes(s: Machine, fpu: Fpu, a: Arch, b: Draft, i: Depth, e: Arch)
    requires Denotes(s, a, b, e) && Implements(s, fpu, a.mem)
    ensures var r := BuildFld(b, i);
      Denotes(s, a, r.b, if r.ok then Mem(e, Put(Push(e.mem), 0, Get(e.mem, i))) else e)
  {
    ResolveOne(s, fpu, a, b, i, e);
    var g := Resolve(b, i);
    hide Denotes, Holds, Implements, Put, Get, Resolve;
    if g.id >= 0 {
      PushDenotes(s, a, g.b, g.id, e, Get(e.mem, i));
    }
  }

  lemma FstDenotes(s: Machine, fpu: Fpu, a: Arch, b: Draft, i: Depth, e: Arch)
    requires Denotes(s, a, b, e) && Implements(s, fpu, a.mem)
    ensures var r := BuildFst(b, i);
      Denotes(s, a, r.b, if r.ok then Mem(e, Put(e.mem, i, Get(e.mem, 0))) else e)
  {
    ResolveOne(s, fpu, a, b, 0, e);
    var g := Resolve(b, 0);
    PutGet(e.mem, 0);
    if g.id >= 0 && i != 0 {
      EnvLength(s, a, g.b);
      hide Formed, Means, EnvOf, Implements, Put, Get, Resolve;
      SlotFormed(g.b, i, g.id);
      SlotMeans(s, a, g.b, i, g.id, e, Get(e.mem, 0));
    }
    hide Denotes, Put, Get;
  }

  lemma SwapSlots(s: Machine, a: Arch, b: Draft, i: Depth, e: Arch)
    requires Denotes(s, a, b, e) && i != 0
    ensures Denotes(s, a, b.(slots := b.slots[0 := b.slots[i]][i := b.slots[0]]), Mem(e, Swap(e.mem, i)))
  {
    var c := b.(slots := b.slots[0 := b.slots[i]][i := b.slots[0]]);
    assert EnvOf(s, a, c) == EnvOf(s, a, b);
    forall d: Depth
      ensures Get(Swap(e.mem, i), d) == Get(e.mem, if d == 0 then i else if d == i then 0 else d)
      ensures c.slots[d] == b.slots[if d == 0 then i else if d == i then 0 else d]
    {
      SwappedGet(e.mem, i, d);
    }
    hide EnvOf, Get, StatusAt, Swap;
  }

  lemma FxchDenotes(s: Machine, fpu: Fpu, a: Arch, b: Draft, i: Depth, e: Arch)
    requires Denotes(s, a, b, e) && Implements(s, fpu, a.mem)
    ensures var r := BuildFxch(b, i);
      Denotes(s, a, r.b, if r.ok then Mem(e, Swap(e.mem, i)) else e)
  {
    if i != 0 {
      ResolveOne(s, fpu, a, b, 0, e);
      ResolveOne(s, fpu, a, Resolve(b, 0).b, i, e);
      hide Denotes, Holds, Implements, Swap, Get, Resolve;
      SwapSlots(s, a, Resolve(Resolve(b, 0).b, i).b, i, e);
    }
  }

  // ---------------------------------------------------------------- nodes with effects

  function StatusOf(e: Arch, o: Order): Arch {
    e.(mem := e.mem.(sw := SetCc(e.mem.sw, o)))
  }

  /** Four bits and back. */
  lemma BitsBack(c0: Bit, c1: Bit, c2: Bit, c3: Bit)
    ensures var v := c0 + 2 * c1 + 4 * c2 + 8 * c3;
      v % 2 == c0 && (v / 2) % 2 == c1 && (v / 4) % 2 == c2 && (v / 8) % 2 == c3
  {
    var v := c0 + 2 * c1 + 4 * c2 + 8 * c3;
    assert v / 2 == c1 + 2 * c2 + 4 * c3;
    assert v / 4 == c2 + 2 * c3;
    assert v / 8 == c3;
  }

  lemma CodesBack(sw: StatusWord, x: StatusWord)
    ensures WithBits(sw, CcBits(x)) == sw.(c0 := x.c0, c1 := x.c1, c2 := x.c2, c3 := x.c3)
  {
    BitsBack(x.c0, x.c1, x.c2, x.c3);
  }

  /** The condition codes replace those of the status word. */
  lemma NewCodes(sw: StatusWord, codes: Word, delta: int, o: Order)
    ensures StatusAt(sw, CodesOf(o), delta) == SetCc(StatusAt(sw, codes, delta), o)
  {
    CodesBack(sw, SetCc(NO_STATUS, o));
    hide CcBits;
    assert WithBits(sw, codes) == sw.(c0 := WithBits(sw, codes).c0, c1 := WithBits(sw, codes).c1, c2 := WithBits(sw, codes).c2, c3 := WithBits(sw, codes).c3);
    hide WithBits;
  }

  lemma CompareFormed(b: Draft, n: Node)
    requires Formed(b) && Fits(b, n) && IsCompare(n.op)
    ensures Formed(More(b, n).(fcmp := |b.nodes|))
  {
    var c := More(b, n).(fcmp := |b.nodes|);
    forall k | 0 <= k < |c.nodes|
      ensures GoodNode(c.nodes, k) && PairedAt(c.nodes, k)
    {
      if k < |b.nodes| {
        assert GoodNode(b.nodes, k) && PairedAt(b.nodes, k);
        LaterGood(b.nodes, n, k);
        LaterPaired(b.nodes, n, k);
      }
    }
    assert forall d :: 0 <= d < 8 ==> ValueBefore(b.nodes, b.slots[d], |b.nodes|);
    hide GoodNode, PairedAt;
  }

  lemma CompareMeans(s: Machine, a: Arch, b: Draft, n: Node, e: Arch, o: Order)
    requires Denotes(s, a, b, e) && Fits(b, n) && IsCompare(n.op)
    requires Codes(s, n, EnvOf(s, a, b).vals) == CodesOf(o)
    ensures Denotes(s, a, More(b, n).(fcmp := |b.nodes|), StatusOf(e, o))
  {
    CompareFormed(b, n);
    OneMore(s, a, b, n);
    var c := More(b, n).(fcmp := |b.nodes|);
    assert EnvOf(s, a, c) == Exec(s, n, EnvOf(s, a, b));
    NewCodes(a.mem.sw, EnvOf(s, a, b).codes, b.delta, o);
    assert SetCc(e.mem.sw, o).top == e.mem.sw.top;
    forall d: Depth ensures Get(StatusOf(e, o).mem, d) == Get(e.mem, d) {}
    hide Formed, EnvOf, Get, StatusAt, Codes, CodesOf, SetCc, Fits;
  }

  /** FCMP or FCOMI of two registers. */
  lemma ComparedDenotes(s: Machine, fpu: Fpu, a: Arch, b: Draft, i: Depth, e: Arch)
    requires Denotes(s, a, b, e) && Implements(s, fpu, a.mem)
    ensures var r := BuildFcom(b, i);
      Denotes(s, a, r.b, if r.ok then StatusOf(e, fpu.compare(Get(e.mem, 0), Get(e.mem, i))) else e)
  {
    ResolveOne(s, fpu, a, b, 0, e);
    ResolveTwo(s, fpu, a, b, 0, i, e);
    var x := Resolve(b, 0);
    var y := Resolve(x.b, i);
    if x.id >= 0 && y.id >= 0 && |y.b.nodes| < MAX_NODES {
      var n := Simple(FCmp, x.id, y.id, -1, 0);
      FitsValue(y.b, n);
      assert Codes(s, n, EnvOf(s, a, y.b).vals) == CodesOf(fpu.compare(Get(e.mem, 0), Get(e.mem, i)));
      hide Denotes, Holds, Implements, Get, Resolve, EnvOf, Codes, CodesOf, Fits, Live;
      CompareMeans(s, a, y.b, n, e, fpu.compare(Get(e.mem, 0), Get(e.mem, i)));
    }
    hide Denotes, Implements, Resolve;
  }

  lemma FtstDenotes(s: Machine, fpu: Fpu, a: Arch, b: Draft, e: Arch)
    requires Denotes(s, a, b, e) && Implements(s, fpu, a.mem)
    ensures var r := BuildFtst(b);
      Denotes(s, a, r.b, if r.ok then StatusOf(e, fpu.compare(Get(e.mem, 0), POSITIVE_ZERO)) else e)
  {
    ResolveOne(s, fpu, a, b, 0, e);
    var x := Resolve(b, 0);
    if x.id >= 0 && |x.b.nodes| < MAX_NODES {
      var n := Simple(FTst, x.id, -1, -1, 0);
      FitsValue(x.b, n);
      assert Codes(s, n, EnvOf(s, a, x.b).vals) == CodesOf(fpu.compare(Get(e.mem, 0), POSITIVE_ZERO));
      hide Denotes, Holds, Implements, Get, Resolve, EnvOf, Codes, CodesOf, Fits, Live;
      CompareMeans(s, a, x.b, n, e, fpu.compare(Get(e.mem, 0), POSITIVE_ZERO));
    }
    hide Denotes, Implements, Resolve;
  }

  /** A node that changes the world but not the condition codes. */
  lemma EffectMeans(s: Machine, a: Arch, b: Draft, n: Node, e: Arch, f: Arch)
    requires Denotes(s, a, b, e) && Fits(b, n) && IsEffect(n.op) && !IsCompare(n.op)
    requires f.mem == e.mem.(cw := f.mem.cw)
    requires var v := EnvOf(s, a, b); Exec(s, n, v).world == World(map[], [f.ax as int], f.flags, f.mem.cw)
    ensures Denotes(s, a, More(b, n), f)
  {
    FormedMore(b, n);
    OneMore(s, a, b, n);
    forall d: Depth ensures Get(f.mem, d) == Get(e.mem, d) {}
    hide Formed, EnvOf, Get, StatusAt, Fits;
  }

  lemma FcomiDenotes(s: Machine, fpu: Fpu, a: Arch, b: Draft, i: Depth, e: Arch)
    requires Denotes(s, a, b, e) && Implements(s, fpu, a.mem)
    ensures var r := BuildFcomi(b, i);
      Denotes(s, a, r.b, if r.ok then e.(flags := FcomiFlags(fpu.compare(Get(e.mem, 0), Get(e.mem, i)))) else e)
  {
    ResolveOne(s, fpu, a, b, 0, e);
    ResolveTwo(s, fpu, a, b, 0, i, e);
    var x := Resolve(b, 0);
    var y := Resolve(x.b, i);
    if x.id >= 0 && y.id >= 0 && |y.b.nodes| < MAX_NODES {
      var n := Simple(FComI, x.id, y.id, -1, 0);
      var f := e.(flags := FcomiFlags(fpu.compare(Get(e.mem, 0), Get(e.mem, i))));
      FitsValue(y.b, n);
      FcomiWorld(s, fpu, a, y.b, n, e);
      hide Denotes, Holds, Implements, Get, Resolve, EnvOf, Exec, Fits, Live, FcomiFlags;
      EffectMeans(s, a, y.b, n, e, f);
      SameFcomi(s, a, More(y.b, n), |y.b.nodes|, f);
    }
    hide Denotes, Implements, Resolve;
  }

  lemma SameFcomi(s: Machine, a: Arch, b: Draft, id: int, e: Arch)
    requires Denotes(s, a, b, e)
    ensures Denotes(s, a, b.(fcomi := id), e)
  {
    assert EnvOf(s, a, b.(fcomi := id)) == EnvOf(s, a, b);
    hide GoodNode, PairedAt, EnvOf;
  }

  lemma FcomiWorld(s: Machine, fpu: Fpu, a: Arch, b: Draft, n: Node, e: Arch)
    requires Denotes(s, a, b, e) && Implements(s, fpu, a.mem) && n.op.FComI? && !n.dead
    ensures var v := EnvOf(s, a, b);
      Exec(s, n, v).world == World(map[], [e.ax as int], FcomiFlags(fpu.compare(In(v.vals, n.in0), In(v.vals, n.in1))), e.mem.cw)
  {
    hide Formed, EnvOf, In, FcomiFlags, StatusAt, Get;
  }

  lemma FldcwDenotes(s: Machine, fpu: Fpu, a: Arch, b: Draft, v: Half, e: Arch)
    requires Denotes(s, a, b, e) && Implements(s, fpu, a.mem)
    ensures var r := BuildEffect(b, Simple(StoreCW, -1, -1, -1, v));
      Denotes(s, a, r.b, if r.ok then Mem(e, e.mem.(cw := v)) else e)
  {
    var n := Simple(StoreCW, -1, -1, -1, v);
    if |b.nodes| < MAX_NODES {
      FitsValue(b, n);
      FldcwWorld(s, fpu, a, b, v, e);
      hide Denotes, Implements, EnvOf, Exec, Fits;
      EffectMeans(s, a, b, n, e, Mem(e, e.mem.(cw := v)));
    }
  }

  lemma FldcwWorld(s: Machine, fpu: Fpu, a: Arch, b: Draft, v: Half, e: Arch)
    requires Denotes(s, a, b, e) && Implements(s, fpu, a.mem)
    ensures Exec(s, Simple(StoreCW, -1, -1, -1, v), EnvOf(s, a, b)).world == World(map[], [e.ax as int], e.flags, v)
  {
    hide Formed, EnvOf, In, StatusAt, Get;
  }

  lemma FstswDenotes(s: Machine, fpu: Fpu, a: Arch, b: Draft, e: Arch)
    requires Denotes(s, a, b, e) && Implements(s, fpu, a.mem) && b.delta < MAX_NODES
    ensures var r := BuildEffect(b, Simple(FStsw, b.fcmp, 0, b.delta, 0));
      Denotes(s, a, r.b, if r.ok then e.(ax := EncodeSw(e.mem.sw)) else e)
  {
    var n := Simple(FStsw, b.fcmp, 0, b.delta, 0);
    if |b.nodes| < MAX_NODES {
      StatusFits(b);
      FstswWorld(s, fpu, a, b, e);
      hide Denotes, Implements, EnvOf, Exec, Fits, EncodeSw;
      EffectMeans(s, a, b, n, e, e.(ax := EncodeSw(e.mem.sw)));
    }
  }

  lemma StatusFits(b: Draft)
    requires Formed(b) && b.delta < MAX_NODES && |b.nodes| < MAX_NODES
    ensures Fits(b, Simple(FStsw, b.fcmp, 0, b.delta, 0))
  {
  }

  lemma FstswWorld(s: Machine, fpu: Fpu, a: Arch, b: Draft, e: Arch)
    requires Denotes(s, a, b, e) && Implements(s, fpu, a.mem)
    ensures Exec(s, Simple(FStsw, b.fcmp, 0, b.delta, 0), EnvOf(s, a, b)).world
      == World(map[], [EncodeSw(e.mem.sw) as int], e.flags, e.mem.cw)
  {
    hide Formed, EnvOf, In, StatusAt, Get, EncodeSw;
  }

  lemma FcmovDenotes(s: Machine, fpu: Fpu, a: Arch, b: Draft, cond: Cond, i: Depth, e: Arch)
    requires Denotes(s, a, b, e) && Implements(s, fpu, a.mem)
    ensures var r := BuildFcmov(b, cond, i);
      Denotes(s, a, r.b, if r.ok && CondHolds(cond, e.flags) then Mem(e, Put(e.mem, 0, Get(e.mem, i))) else e)
  {
    if b.fcomi >= 0 {
      ResolveOne(s, fpu, a, b, 0, e);
      ResolveTwo(s, fpu, a, b, 0, i, e);
      var x := Resolve(b, 0);
      var y := Resolve(x.b, i);
      hide Denotes, Holds, Implements, Get, Put, Resolve, Place, CondHolds, X87Ops.ArmCond;
      if x.id >= 0 && y.id >= 0 {
        SelectDenotes(s, fpu, a, y.b, cond, x.id, y.id, i, e);
      }
    }
  }

  lemma SelectDenotes(s: Machine, fpu: Fpu, a: Arch, b: Draft, cond: Cond, x: int, y: int, i: Depth, e: Arch)
    requires Denotes(s, a, b, e) && Implements(s, fpu, a.mem) && Shape(b)
    requires Holds(s, a, b, x, Get(e.mem, 0)) && Holds(s, a, b, y, Get(e.mem, i))
    ensures var r := Place(b, Simple(FCSel, x, y, -1, X87Ops.ArmCond(cond)), 0);
      Denotes(s, a, r.b, if r.ok && CondHolds(cond, e.flags) then Mem(e, Put(e.mem, 0, Get(e.mem, i))) else e)
  {
    var n := Simple(FCSel, x, y, -1, X87Ops.ArmCond(cond));
    var v := if CondHolds(cond, e.flags) then Get(e.mem, i) else Get(e.mem, 0);
    SelectFits(s, a, b, n, e);
    SelectValue(s, fpu, a, b, n, cond, e);
    PutGet(e.mem, 0);
    hide Denotes, Implements, EnvOf, Get, Put, Fits, Value, CondHolds, Live, Place;
    PlaceDenotes(s, a, b, n, 0, e, v);
  }

  lemma SelectFits(s: Machine, a: Arch, b: Draft, n: Node, e: Arch)
    requires Denotes(s, a, b, e) && Shape(b) && n == Simple(FCSel, n.in0, n.in1, -1, n.imm) && Live(b, n.in0) && Live(b, n.in1)
    ensures |b.nodes| < MAX_NODES ==> Fits(b, n)
  {
    hide Means;
    if |b.nodes| < MAX_NODES { FitsValue(b, n); }
  }

  lemma SelectValue(s: Machine, fpu: Fpu, a: Arch, b: Draft, n: Node, cond: Cond, e: Arch)
    requires Denotes(s, a, b, e) && Implements(s, fpu, a.mem) && n.op.FCSel? && n.imm == X87Ops.ArmCond(cond)
    ensures var v := EnvOf(s, a, b);
      Value(s, n, v.vals, v.world) == if CondHolds(cond, e.flags) then In(v.vals, n.in1) else In(v.vals, n.in0)
  {
    hide Formed, EnvOf, In, StatusAt, Get, CondHolds;
  }

  // ---------------------------------------------------------------- any instruction, any run

  lemma MoveDenotes(s: Machine, fpu: Fpu, a: Arch, b: Draft, op: X87Model.Op, e: Arch)
    requires Denotes(s, a, b, e) && Implements(s, fpu, a.mem)
    requires op.ArithPop? || op.Fstp? || op.Fcom? || op.Fcompp? || op.Fcomi?
    ensures var r := BuildOp(b, op); Denotes(s, a, r.b, if r.ok then Eager(fpu, e, op) else e)
  {
    assert Shape(b);
    hide Denotes, Implements, Combine, Get, Put, Pop, PopIf, SetCc, FcomiFlags;
    hide BuildArith, BuildFst, BuildFcom, BuildFcomi, PopNode;
    match op
    case ArithPop(fn, rev, d) =>
      ArithDenotes(s, fpu, a, b, fn, rev, d, 0, e);
      var r := BuildArith(b, BinaryOf(fn), rev, d, 0);
      if r.ok { PopDenotes(s, a, r.b, Mem(e, Put(e.mem, d, Combine(fpu, fn, rev, Get(e.mem, d), Get(e.mem, 0))))); }
    case Fstp(i) =>
      FstDenotes(s, fpu, a, b, i, e);
      var r := BuildFst(b, i);
      if r.ok { PopDenotes(s, a, r.b, Mem(e, Put(e.mem, i, Get(e.mem, 0)))); }
    case Fcom(i, pop) =>
      ComparedDenotes(s, fpu, a, b, i, e);
      var r := BuildFcom(b, i);
      if r.ok { PopIfDenotes(s, a, r.b, pop, StatusOf(e, fpu.compare(Get(e.mem, 0), Get(e.mem, i)))); }
    case Fcompp =>
      ComparedDenotes(s, fpu, a, b, 1, e);
      var r := BuildFcom(b, 1);
      var f := StatusOf(e, fpu.compare(Get(e.mem, 0), Get(e.mem, 1)));
      if r.ok {
        PopDenotes(s, a, r.b, f);
        PopDenotes(s, a, PopNode(r.b), Mem(f, Pop(f.mem)));
      }
    case Fcomi(i, pop) =>
      FcomiDenotes(s, fpu, a, b, i, e);
      var r := BuildFcomi(b, i);
      if r.ok { PopIfDenotes(s, a, r.b, pop, e.(flags := FcomiFlags(fpu.compare(Get(e.mem, 0), Get(e.mem, i))))); }
  }

  /** Building an instruction adds its meaning; where that fails, the meaning so far stays. */
  lemma OpDenotes(s: Machine, fpu: Fpu, a: Arch, b: Draft, op: X87Model.Op, e: Arch)
    requires Denotes(s, a, b, e) && Implements(s, fpu, a.mem) && NegatesTwice(fpu)
    requires op.Fstsw? ==> b.delta < MAX_NODES
    ensures var r := BuildOp(b, op); Denotes(s, a, r.b, if r.ok then Eager(fpu, e, op) else e)
  {
    if op.ArithPop? || op.Fstp? || op.Fcom? || op.Fcompp? || op.Fcomi? {
      MoveDenotes(s, fpu, a, b, op, e);
      return;
    }
    assert Shape(b);
    hide Denotes, Implements, NegatesTwice, Combine, Get, Put, Push, Swap, SetCc, FcomiFlags, EncodeSw, CondHolds;
    hide BuildArith, BuildUnary, BuildFst, BuildFxch, BuildFtst, BuildFcmov, BuildFldz, BuildFld1, BuildFld, BuildEffect;
    match op
    case Fldz => ZeroDenotes(s, fpu, a, b, e);
    case Fld1 => OneDenotes(s, fpu, a, b, e);
    case Fld(i) => FldDenotes(s, fpu, a, b, i, e);
    case Arith(fn, rev, d, f) => ArithDenotes(s, fpu, a, b, fn, rev, d, f, e);
    case Unary(u) => UnaryDenotes(s, fpu, a, b, u, e);
    case Fst(i) => FstDenotes(s, fpu, a, b, i, e);
    case Fxch(i) => FxchDenotes(s, fpu, a, b, i, e);
    case Ftst => FtstDenotes(s, fpu, a, b, e);
    case Fcmov(cond, i) => FcmovDenotes(s, fpu, a, b, cond, i, e);
    case Fstsw => FstswDenotes(s, fpu, a, b, e);
    case Fldcw(v) => FldcwDenotes(s, fpu, a, b, v, e);
    case _ =>
  }

  lemma FreshDenotes(s: Machine, a: Arch)
    ensures Denotes(s, a, FRESH_DRAFT, a)
  {
    CodesBack(a.mem.sw, a.mem.sw);
    assert EnvOf(s, a, FRESH_DRAFT) == Start(a);
  }
}
