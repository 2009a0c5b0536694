/**
 The intermediate form of a whole run (X87IR.h): a list of nodes that refer to earlier ones, and
 what is in each stack slot at the end.  What the nodes compute is a parameter.
 */
module X87IR {
  import opened Words
  import X87Model

  datatype Op =
    | ReadSt | LoadF64 | LoadF32Raw | LoadI16 | LoadI32 | LoadI64
    | ConstZero | ConstOne | ConstF64
    | CvtF32ToF64 | CvtF64ToF32
    | FAdd | FSub | FMul | FDiv | FNMul
    | FMAdd | FMSub | FNMSub
    | FNeg | FAbs | FSqrt | FRndInt | FCSel
    | StoreF64 | StoreF32Raw | StoreI16 | StoreI32 | StoreI64
    | FCmp | FTst | FComI | FStsw | StoreCW | LoadCW
    | GuestMovRR | GuestMovRI | GuestLea | GuestExt | GuestLoad | GuestStoreR | GuestStoreI

  const MAX_NODES := 128

  /** `imm` and `aux` are whatever else the node carries; inputs are node numbers, or -1. */
  datatype Node = Node(op: Op, dead: bool, in0: int, in1: int, in2: int, imm: Word, aux: Word, fused: bool)

  /** Slots hold a node number, or a negative number for an initial slot. */
  datatype Ir = Ir(nodes: seq<Node>, slots: seq<int>)

  predicate IsCompare(op: Op) { op.FCmp? || op.FTst? }

  predicate IsStore(op: Op) {
    op.StoreF64? || op.StoreF32Raw? || op.StoreI16? || op.StoreI32? || op.StoreI64?
  }

  predicate IsGuest(op: Op) {
    op.GuestMovRR? || op.GuestMovRI? || op.GuestLea? || op.GuestExt? || op.GuestLoad? || op.GuestStoreR? || op.GuestStoreI?
  }

  /** Nodes that are there for what they do. */
  predicate IsEffect(op: Op) {
    IsStore(op) || IsGuest(op) || IsCompare(op) || op.FStsw? || op.FComI? || op.StoreCW? || op.LoadCW?
  }

  predicate IsConst(op: Op) { op.ConstZero? || op.ConstOne? || op.ConstF64? }

  predicate IsUnary(op: Op) { op.FNeg? || op.FAbs? || op.FSqrt? || op.CvtF32ToF64? || op.CvtF64ToF32? }

  predicate IsBinary(op: Op) { op.FAdd? || op.FSub? || op.FMul? || op.FDiv? || op.FNMul? }

  predicate IsFma(op: Op) { op.FMAdd? || op.FMSub? || op.FNMSub? }

  /** How many inputs the node must have. */
  function Arity(op: Op): nat {
    if IsFma(op) then 3
    else if IsBinary(op) || op.FCmp? || op.FComI? || op.FCSel? then 2
    else if IsUnary(op) || op.FRndInt? || IsStore(op) || op.FTst? then 1
    else 0
  }

  // ---------------------------------------------------------------- what a list of nodes means

  /** Guest memory and registers, NZCV and the control word. */
  datatype World = World(memory: map<Word, Word>, guest: seq<int>, flags: X87Model.Flags, control: Half)

  /**
   The operations: any functions.  `observe` is for loads and whatever else depends on the world,
   `status` for FNSTSW, which takes its register and the change of TOP from the node.
   */
  datatype Machine = Machine(
    unary: (Op, Word) -> Word,
    binary: (Op, Word, Word) -> Word,
    fma: (Op, Word, Word, Word) -> Word,
    observe: (Op, Word, Word, Word, World) -> Word,
    effect: (Op, Word, Word, Word, Word, World) -> World,
    status: (Word, int, int, World) -> World,
    compare: (Word, Word) -> Word,
    test: Word -> Word)

  /** One value per node so far, the condition codes, the world. */
  datatype Env = Env(vals: seq<Word>, codes: Word, world: World)

  function In(vals: seq<Word>, i: int): Word {
    if 0 <= i < |vals| then vals[i] else 0
  }

  function Value(s: Machine, n: Node, vals: seq<Word>, world: World): Word {
    var x, y, z := In(vals, n.in0), In(vals, n.in1), In(vals, n.in2);
    if n.op.ConstZero? then X87Model.POSITIVE_ZERO
    else if n.op.ConstOne? then X87Model.POSITIVE_ONE
    else if n.op.ConstF64? then n.imm
    else if IsUnary(n.op) then s.unary(n.op, x)
    else if IsBinary(n.op) then s.binary(n.op, x, y)
    else if IsFma(n.op) then s.fma(n.op, x, y, z)
    else s.observe(n.op, x, y, n.imm, world)
  }

  function Codes(s: Machine, n: Node, vals: seq<Word>): Word {
    if n.op.FCmp? then s.compare(In(vals, n.in0), In(vals, n.in1)) else s.test(In(vals, n.in0))
  }

  function Exec(s: Machine, n: Node, e: Env): Env {
    if n.dead then e.(vals := e.vals + [0])
    else if IsCompare(n.op) then Env(e.vals + [0], Codes(s, n, e.vals), e.world)
    else if n.op.FStsw? then Env(e.vals + [0], e.codes, s.status(e.codes, n.in1, n.in2, e.world))
    else if IsEffect(n.op) then
      Env(e.vals + [0], e.codes, s.effect(n.op, In(e.vals, n.in0), In(e.vals, n.in1), n.imm, n.aux, e.world))
    else e.(vals := e.vals + [Value(s, n, e.vals, e.world)])
  }

  /** The first k nodes. */
  function RunTo(s: Machine, nodes: seq<Node>, k: nat, e: Env): Env
    requires k <= |nodes|
  {
    if k == 0 then e else Exec(s, nodes[k - 1], RunTo(s, nodes, k - 1, e))
  }

  datatype Slot = Computed(value: Word) | Initial(code: int)

  datatype Outcome = Outcome(slots: seq<Slot>, codes: Word, world: World)

  function SlotOf(vals: seq<Word>, slot: int): Slot {
    if slot >= 0 then Computed(In(vals, slot)) else Initial(slot)
  }

  /** What the run leaves in the stack, the condition codes and the world. */
  function Meaning(s: Machine, p: Ir, codes: Word, world: World): Outcome {
    var e := RunTo(s, p.nodes, |p.nodes|, Env([], codes, world));
    Outcome(seq(|p.slots|, d requires 0 <= d < |p.slots| => SlotOf(e.vals, p.slots[d])), e.codes, e.world)
  }

  // ---------------------------------------------------------------- well-formed lists

  /** Input i of a node at k. */
  predicate LiveBefore(nodes: seq<Node>, i: int, k: int) {
    i < k && (0 <= i < |nodes| ==> !nodes[i].dead)
  }

  predicate ValueBefore(nodes: seq<Node>, i: int, k: int) {
    LiveBefore(nodes, i, k) && (0 <= i < |nodes| ==> !IsEffect(nodes[i].op))
  }

  /** FNSTSW keeps a register number and a stack offset where others have their second and third input. */
  predicate GoodNode(nodes: seq<Node>, k: nat)
    requires k < |nodes|
  {
    var n := nodes[k];
    n.dead ||
    (&& (if n.op.FStsw? then LiveBefore(nodes, n.in0, k)
         else ValueBefore(nodes, n.in0, k) && ValueBefore(nodes, n.in1, k) && ValueBefore(nodes, n.in2, k))
     && (Arity(n.op) > 0 ==> n.in0 >= 0) && (Arity(n.op) > 1 ==> n.in1 >= 0) && (Arity(n.op) > 2 ==> n.in2 >= 0)
     && n.in1 < MAX_NODES && n.in2 < MAX_NODES)
  }

  predicate Good(p: Ir) {
    && |p.slots| == 8 && |p.nodes| <= MAX_NODES
    && (forall k :: 0 <= k < |p.nodes| ==> GoodNode(p.nodes, k))
    && (forall d :: 0 <= d < 8 ==> ValueBefore(p.nodes, p.slots[d], |p.nodes|))
  }

  // ---------------------------------------------------------------- one list simulates another

  /** Node m, in a list whose node values are `vals`, does at k what n does in e. */
  predicate Follows(s: Machine, n: Node, m: Node, vals: seq<Word>, k: nat, e: Env)
    requires k < |vals|
  {
    if m.dead then n.dead || !IsEffect(n.op)
    else
      && !n.dead && (IsEffect(m.op) ==> vals[k] == 0)
      && if IsCompare(m.op) then IsCompare(n.op) && Codes(s, n, e.vals) == Codes(s, m, vals)
         else if m.op.FStsw? then n.op.FStsw? && n.in1 == m.in1 && n.in2 == m.in2
         else if IsEffect(m.op) then
           && n.op == m.op && n.imm == m.imm && n.aux == m.aux
           && In(e.vals, n.in0) == In(vals, m.in0) && In(e.vals, n.in1) == In(vals, m.in1)
         else !IsEffect(n.op) && Value(s, m, vals, e.world) == vals[k]
  }

  lemma SameInput(nodes: seq<Node>, i: int, k: nat, a: seq<Word>, b: seq<Word>)
    requires LiveBefore(nodes, i, k) && k == |a| <= |b| <= |nodes|
    requires forall j :: 0 <= j < k && !nodes[j].dead ==> a[j] == b[j]
    ensures In(a, i) == In(b, i)
  {
  }

  /** One step of the simulation: a is the state of the original, b of the new list. */
  lemma ExecFollows(s: Machine, n: Node, nodes: seq<Node>, k: nat, vals: seq<Word>, a: Env, b: Env)
    requires k < |nodes| == |vals| && GoodNode(nodes, k) && Follows(s, n, nodes[k], vals, k, a)
    requires |b.vals| == k && a.codes == b.codes && a.world == b.world
    requires forall j :: 0 <= j < k && !nodes[j].dead ==> b.vals[j] == vals[j]
    ensures var c, d := Exec(s, n, a), Exec(s, nodes[k], b);
      && |d.vals| == k + 1 && c.codes == d.codes && c.world == d.world
      && (forall j :: 0 <= j < k + 1 && !nodes[j].dead ==> d.vals[j] == vals[j])
  {
    var m := nodes[k];
    if !m.dead {
      SameInput(nodes, m.in0, k, b.vals, vals);
      if !m.op.FStsw? {
        SameInput(nodes, m.in1, k, b.vals, vals);
        SameInput(nodes, m.in2, k, b.vals, vals);
      }
    }
    hide In, ValueBefore, LiveBefore;
  }

  lemma {:induction false} Simulates(s: Machine, p: Ir, q: Ir, vals: seq<Word>, e: Env, k: nat)
    requires Good(q) && |p.nodes| == |q.nodes| == |vals| && k <= |vals| && e.vals == []
    requires forall j :: 0 <= j < k ==> Follows(s, p.nodes[j], q.nodes[j], vals, j, RunTo(s, p.nodes, j, e))
    ensures var a, b := RunTo(s, p.nodes, k, e), RunTo(s, q.nodes, k, e);
      && |b.vals| == k && a.codes == b.codes && a.world == b.world
      && (forall j :: 0 <= j < k && !q.nodes[j].dead ==> b.vals[j] == vals[j])
  {
    hide Follows, Exec, GoodNode;
    if k > 0 {
      Simulates(s, p, q, vals, e, k - 1);
      var a, b := RunTo(s, p.nodes, k - 1, e), RunTo(s, q.nodes, k - 1, e);
      ExecFollows(s, p.nodes[k - 1], q.nodes, k - 1, vals, a, b);
    }
  }

  /** The values of all nodes. */
  function Vals(s: Machine, nodes: seq<Node>, e: Env): seq<Word> {
    RunTo(s, nodes, |nodes|, e).vals
  }

  lemma {:induction false} ValsGrow(s: Machine, nodes: seq<Node>, e: Env, j: nat, k: nat)
    requires j <= k <= |nodes| && e.vals == []
    ensures |RunTo(s, nodes, j, e).vals| == j && |RunTo(s, nodes, k, e).vals| == k
    ensures RunTo(s, nodes, k, e).vals[..j] == RunTo(s, nodes, j, e).vals
    decreases k
  {
    if j < k {
      ValsGrow(s, nodes, e, j, k - 1);
    } else if k > 0 {
      ValsGrow(s, nodes, e, k - 1, k - 1);
    }
    hide In, Value, Codes;
  }

  lemma EarlierInput(a: seq<Word>, b: seq<Word>, i: int)
    requires i < |a| <= |b| && b[..|a|] == a
    ensures In(a, i) == In(b, i)
  {
    assert 0 <= i ==> b[..|a|][i] == a[i];
  }

  lemma LastValue(s: Machine, n: Node, e: Env)
    requires !n.dead
    ensures var d := Exec(s, n, e);
      |d.vals| == |e.vals| + 1 && d.vals[|e.vals|] == if IsEffect(n.op) then 0 else Value(s, n, e.vals, e.world)
  {
    hide Value, Codes, In;
  }

  lemma SameValue(s: Machine, n: Node, a: seq<Word>, b: seq<Word>, world: World)
    requires In(a, n.in0) == In(b, n.in0) && In(a, n.in1) == In(b, n.in1) && In(a, n.in2) == In(b, n.in2)
    ensures Value(s, n, a, world) == Value(s, n, b, world)
  {
    hide In;
  }

  /** Over the final values, a live node has its own value. */
  lemma ValueIs(s: Machine, nodes: seq<Node>, e: Env, k: nat)
    requires k < |nodes| && e.vals == [] && GoodNode(nodes, k) && !nodes[k].dead
    ensures var v, a, n := Vals(s, nodes, e), RunTo(s, nodes, k, e), nodes[k];
      && |v| == |nodes| && In(a.vals, n.in0) == In(v, n.in0)
      && (!n.op.FStsw? ==> In(a.vals, n.in1) == In(v, n.in1) && In(a.vals, n.in2) == In(v, n.in2))
      && v[k] == (if IsEffect(n.op) then 0 else Value(s, n, v, a.world))
  {
    var v, a, n := Vals(s, nodes, e), RunTo(s, nodes, k, e), nodes[k];
    ValsGrow(s, nodes, e, k, |nodes|);
    ValsGrow(s, nodes, e, k + 1, |nodes|);
    assert v[..k + 1][k] == v[k];
    EarlierInput(a.vals, v, n.in0);
    LastValue(s, n, a);
    assert RunTo(s, nodes, k + 1, e) == Exec(s, n, a);
    hide RunTo, In, Exec, Value;
    if !n.op.FStsw? {
      EarlierInput(a.vals, v, n.in1);
      EarlierInput(a.vals, v, n.in2);
      SameValue(s, n, a.vals, v, a.world);
    }
  }

  /** An unchanged node follows itself. */
  lemma SelfFollows(s: Machine, nodes: seq<Node>, e: Env, k: nat)
    requires k < |nodes| && e.vals == [] && GoodNode(nodes, k)
    ensures var v := Vals(s, nodes, e); |v| == |nodes| && Follows(s, nodes[k], nodes[k], v, k, RunTo(s, nodes, k, e))
  {
    ValsGrow(s, nodes, e, |nodes|, |nodes|);
    if !nodes[k].dead {
      ValueIs(s, nodes, e, k);
    }
    hide RunTo, In, Value, GoodNode, Vals;
  }

  // ---------------------------------------------------------------- lists that mean the same

  /** The same stack, condition codes and world, from all of them. */
  ghost predicate Same(s: Machine, p: Ir, q: Ir) {
    forall codes: Word, world: World :: Meaning(s, p, codes, world) == Meaning(s, q, codes, world)
  }

  lemma SameTrans(s: Machine, p: Ir, q: Ir, r: Ir)
    requires Same(s, p, q) && Same(s, q, r)
    ensures Same(s, p, r)
  {
    hide Meaning;
  }

  /** One start: if every node follows, and every slot has its old value, the meaning is the same. */
  lemma MeaningFollows(s: Machine, p: Ir, q: Ir, vals: seq<Word>, codes: Word, world: World)
    requires Good(q) && |p.nodes| == |q.nodes| == |vals| && |p.slots| == 8
    requires var e := Env([], codes, world);
      && (forall j :: 0 <= j < |vals| ==> Follows(s, p.nodes[j], q.nodes[j], vals, j, RunTo(s, p.nodes, j, e)))
      && (forall d :: 0 <= d < 8 ==> SlotOf(Vals(s, p.nodes, e), p.slots[d]) == SlotOf(vals, q.slots[d]))
    ensures Meaning(s, p, codes, world) == Meaning(s, q, codes, world)
  {
    var e, n := Env([], codes, world), |vals|;
    Simulates(s, p, q, vals, e, n);
    hide RunTo, Follows;
    var b := RunTo(s, q.nodes, n, e);
    forall d | 0 <= d < 8
      ensures SlotOf(b.vals, q.slots[d]) == SlotOf(vals, q.slots[d])
    {
      SameInput(q.nodes, q.slots[d], n, b.vals, vals);
    }
    hide SlotOf;
    assert Meaning(s, p, codes, world).slots == Meaning(s, q, codes, world).slots;
  }
}
