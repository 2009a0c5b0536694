/** From x87 instructions to the intermediate form (X87IRBuild.cpp), register forms. */
module X87Build {
  import opened X87Model
  import opened I = X87IR
  import opened X87ConstArith
  import X87Ops

  /** What was popped. */
  const GONE: int := -100

  /**
   The list built so far, what is in the stack slots, how far TOP has moved, and the nodes that can be
   used again: reads of initial slots, the two constants, the last comparison and the last FCOMI.
   */
  datatype Draft = Draft(nodes: seq<Node>, slots: seq<int>, delta: int, initial: seq<int>, zero: int, one: int, fcmp: int, fcomi: int)

  const FRESH_DRAFT: Draft := Draft([], [-1, -2, -3, -4, -5, -6, -7, -8], 0, [-1, -1, -1, -1, -1, -1, -1, -1], -1, -1, -1, -1)

  predicate Shape(b: Draft) {
    |b.slots| == 8 && |b.initial| == 8 && |b.nodes| <= MAX_NODES
  }

  function IrOf(b: Draft): Ir {
    Ir(b.nodes, b.slots)
  }

  /** A node number, negative if there is none. */
  datatype Got = Got(b: Draft, id: int)

  /** How far one instruction got; without `ok` the run ends before it. */
  datatype Built = Built(b: Draft, ok: bool)

  function AddNode(b: Draft, n: Node): (r: Got)
    ensures Shape(b) ==> Shape(r.b)
  {
    if |b.nodes| >= MAX_NODES then Got(b, -1) else Got(b.(nodes := b.nodes + [n]), |b.nodes|)
  }

  /** The node in a slot; an initial slot is read once. */
  function Resolve(b: Draft, d: Depth): (r: Got)
    requires Shape(b)
    ensures Shape(r.b)
  {
    var slot := b.slots[d];
    if slot >= 0 then Got(b, slot)
    else if slot < -8 then Got(b, -1)
    else
      var i := -(slot + 1);
      if b.initial[i] >= 0 then Got(b.(slots := b.slots[d := b.initial[i]]), b.initial[i])
      else
        var g := AddNode(b, Simple(ReadSt, -1, -1, -1, i));
        if g.id < 0 then g
        else Got(g.b.(initial := b.initial[i := g.id], slots := b.slots[d := g.id]), g.id)
  }

  function PushNode(b: Draft, id: int): (r: Draft)
    requires Shape(b)
    ensures Shape(r)
  {
    b.(slots := [id] + b.slots[..7], delta := b.delta - 1)
  }

  function PopNode(b: Draft): (r: Draft)
    requires Shape(b)
    ensures Shape(r)
  {
    b.(slots := b.slots[1..] + [GONE], delta := b.delta + 1)
  }

  function PopNodeIf(b: Draft, pop: bool): (r: Draft)
    requires Shape(b)
    ensures Shape(r)
  {
    if pop then PopNode(b) else b
  }

  function InSlot(b: Draft, d: Depth, id: int): (r: Draft)
    requires Shape(b)
    ensures Shape(r)
  {
    b.(slots := b.slots[d := id])
  }

  // ---------------------------------------------------------------- one instruction

  function BinaryOf(fn: Fn): I.Op {
    match fn case Add => FAdd case Sub => FSub case Mul => FMul case Div => FDiv
  }

  function UnaryOf(u: UnaryFn): I.Op {
    match u case Chs => FNeg case Abs => FAbs case Sqrt => FSqrt
  }

  /** A new node whose number goes into slot d. */
  function Place(b: Draft, n: Node, d: Depth): (r: Built)
    requires Shape(b)
    ensures Shape(r.b)
  {
    var g := AddNode(b, n);
    if g.id < 0 then Built(b, false) else Built(InSlot(g.b, d, g.id), true)
  }

  function BuildArith(b: Draft, op: I.Op, reversed: bool, dst: Depth, src: Depth): (r: Built)
    requires Shape(b)
    ensures Shape(r.b)
  {
    var x := Resolve(b, dst);
    var y := Resolve(x.b, src);
    if x.id < 0 || y.id < 0 then Built(y.b, false)
    else Place(y.b, if reversed then Simple(op, y.id, x.id, -1, 0) else Simple(op, x.id, y.id, -1, 0), dst)
  }

  function Then(s: Built, pop: bool): (r: Built)
    requires Shape(s.b)
    ensures Shape(r.b)
  {
    if s.ok then Built(PopNodeIf(s.b, pop), true) else s
  }

  function BuildConst(b: Draft, op: I.Op, known: int): (r: Got)
    ensures Shape(b) ==> Shape(r.b)
  {
    if known >= 0 then Got(b, known) else AddNode(b, Simple(op, -1, -1, -1, 0))
  }

  function BuildFldz(b: Draft): (r: Built)
    requires Shape(b)
    ensures Shape(r.b)
  {
    var g := BuildConst(b, ConstZero, b.zero);
    if g.id < 0 then Built(b, false) else Built(PushNode(g.b.(zero := g.id), g.id), true)
  }

  function BuildFld1(b: Draft): (r: Built)
    requires Shape(b)
    ensures Shape(r.b)
  {
    var g := BuildConst(b, ConstOne, b.one);
    if g.id < 0 then Built(b, false) else Built(PushNode(g.b.(one := g.id), g.id), true)
  }

  function BuildFld(b: Draft, i: Depth): (r: Built)
    requires Shape(b)
    ensures Shape(r.b)
  {
    var g := Resolve(b, i);
    if g.id < 0 then Built(g.b, false) else Built(PushNode(g.b, g.id), true)
  }

  function BuildFst(b: Draft, i: Depth): (r: Built)
    requires Shape(b)
    ensures Shape(r.b)
  {
    var g := Resolve(b, 0);
    if g.id < 0 then Built(g.b, false) else Built(if i != 0 then InSlot(g.b, i, g.id) else g.b, true)
  }

  /** Negating twice takes the value before the first negation. */
  function BuildUnary(b: Draft, u: UnaryFn): (r: Built)
    requires Shape(b)
    ensures Shape(r.b)
  {
    var g := Resolve(b, 0);
    if g.id < 0 then Built(g.b, false)
    else if u.Chs? && g.id < |g.b.nodes| && g.b.nodes[g.id].op.FNeg? then Built(InSlot(g.b, 0, g.b.nodes[g.id].in0), true)
    else Place(g.b, Simple(UnaryOf(u), g.id, -1, -1, 0), 0)
  }

  /** Two slots change places; that they could not be resolved is not looked at. */
  function BuildFxch(b: Draft, i: Depth): (r: Built)
    requires Shape(b)
    ensures Shape(r.b)
  {
    if i == 0 then Built(b, false)
    else
      var c := Resolve(Resolve(b, 0).b, i).b;
      Built(c.(slots := c.slots[0 := c.slots[i]][i := c.slots[0]]), true)
  }

  /** The two operands of a comparison. */
  function Compared(b: Draft, i: Depth, op: I.Op): (r: (Built, int))
    requires Shape(b)
    ensures Shape(r.0.b)
  {
    var x := Resolve(b, 0);
    if x.id < 0 then (Built(x.b, false), -1)
    else
      var y := Resolve(x.b, i);
      if y.id < 0 then (Built(y.b, false), -1)
      else
        var g := AddNode(y.b, Simple(op, x.id, y.id, -1, 0));
        (Built(g.b, g.id >= 0), g.id)
  }

  function BuildFcom(b: Draft, i: Depth): (r: Built)
    requires Shape(b)
    ensures Shape(r.b)
  {
    var (s, id) := Compared(b, i, FCmp);
    if s.ok then Built(s.b.(fcmp := id), true) else s
  }

  function BuildFcomi(b: Draft, i: Depth): (r: Built)
    requires Shape(b)
    ensures Shape(r.b)
  {
    var (s, id) := Compared(b, i, FComI);
    if s.ok then Built(s.b.(fcomi := id), true) else s
  }

  function BuildFtst(b: Draft): (r: Built)
    requires Shape(b)
    ensures Shape(r.b)
  {
    var x := Resolve(b, 0);
    if x.id < 0 then Built(x.b, false)
    else
      var g := AddNode(x.b, Simple(FTst, x.id, -1, -1, 0));
      if g.id < 0 then Built(g.b, false) else Built(g.b.(fcmp := g.id), true)
  }

  /** Only after an FCOMI of the same run. */
  function BuildFcmov(b: Draft, cond: Cond, i: Depth): (r: Built)
    requires Shape(b)
    ensures Shape(r.b)
  {
    if b.fcomi < 0 then Built(b, false)
    else
      var x := Resolve(b, 0);
      if x.id < 0 then Built(x.b, false)
      else
        var y := Resolve(x.b, i);
        if y.id < 0 then Built(y.b, false)
        else Place(y.b, Simple(FCSel, x.id, y.id, -1, X87Ops.ArmCond(cond)), 0)
  }

  function BuildEffect(b: Draft, n: Node): (r: Built)
    ensures Shape(b) ==> Shape(r.b)
  {
    var g := AddNode(b, n);
    Built(g.b, g.id >= 0)
  }

  function BuildOp(b: Draft, op: X87Model.Op): (r: Built)
    requires Shape(b)
    ensures Shape(r.b)
  {
    match op
    case Fldz => BuildFldz(b)
    case Fld1 => BuildFld1(b)
    case Fld(i) => BuildFld(b, i)
    case Arith(fn, rev, dst, src) => BuildArith(b, BinaryOf(fn), rev, dst, src)
    case ArithPop(fn, rev, dst) => Then(BuildArith(b, BinaryOf(fn), rev, dst, 0), true)
    case Unary(u) => BuildUnary(b, u)
    case Fst(i) => BuildFst(b, i)
    case Fstp(i) => Then(BuildFst(b, i), true)
    case Fxch(i) => BuildFxch(b, i)
    case Fcom(i, pop) => Then(BuildFcom(b, i), pop)
    case Fcompp => Then(Then(BuildFcom(b, 1), true), true)
    case Ftst => BuildFtst(b)
    case Fcomi(i, pop) => Then(BuildFcomi(b, i), pop)
    case Fcmov(cond, i) => BuildFcmov(b, cond, i)
    case Fstsw => BuildEffect(b, Simple(FStsw, b.fcmp, 0, b.delta, 0))
    case Fldcw(v) => BuildEffect(b, Simple(StoreCW, -1, -1, -1, v))
    case Fnop => Built(b, true)
  }

  /** The run as far as it could be built, and how many instructions that is. */
  function BuildRun(b: Draft, ops: seq<X87Model.Op>): (r: (Draft, nat))
    requires Shape(b)
    ensures Shape(r.0) && r.1 <= |ops|
    decreases |ops|
  {
    if ops == [] then (b, 0)
    else
      var s := BuildOp(b, ops[0]);
      if !s.ok then (s.b, 0)
      else
        var (c, k) := BuildRun(s.b, ops[1..]);
        (c, k + 1)
  }

  lemma BuildFrom(b: Draft, ops: seq<X87Model.Op>, k: nat)
    requires Shape(b) && k <= |ops|
    ensures k == |ops| ==> BuildRun(b, ops[k..]) == (b, 0)
    ensures k < |ops| ==>
      var s := BuildOp(b, ops[k]);
      BuildRun(b, ops[k..]) == if s.ok then (BuildRun(s.b, ops[k + 1..]).0, 1 + BuildRun(s.b, ops[k + 1..]).1) else (s.b, 0)
  {
    if k < |ops| { assert ops[k..][0] == ops[k] && ops[k..][1..] == ops[k + 1..]; }
    hide BuildOp;
  }

  lemma FreshShape()
    ensures Shape(FRESH_DRAFT)
  {
  }

  /** The loop over the instructions. */
  method Build(ops: seq<X87Model.Op>) returns (b: Draft, taken: nat)
    ensures (b, taken) == BuildRun(FRESH_DRAFT, ops)
  {
    FreshShape();
    hide *;
    b, taken := FRESH_DRAFT, 0;
    assert ops[0..] == ops;
    while taken < |ops|
      invariant taken <= |ops| && Shape(b)
      invariant BuildRun(FRESH_DRAFT, ops) == (BuildRun(b, ops[taken..]).0, taken + BuildRun(b, ops[taken..]).1)
    {
      BuildFrom(b, ops, taken);
      var s := BuildOp(b, ops[taken]);
      b := s.b;
      if !s.ok { return; }
      taken := taken + 1;
    }
    BuildFrom(b, ops, taken);
  }
}
