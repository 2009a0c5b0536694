/**
 The constant-arithmetic pass: what it makes of a list, and exactly when that means the same.
 Folding x * 1 renames a node everywhere, also where an FNSTSW keeps a register number or a stack
 offset in place of an input.
 */
module X87ConstArith {
  import opened Words
  import X87Model
  import opened X87IR
  import opened X87Uses
  import opened X87Rules
  import opened X87Optimize

  predicate LiveAt(nodes: seq<Node>, c: int) {
    0 <= c < |nodes| && !nodes[c].dead
  }

  predicate IsOne(nodes: seq<Node>, c: int) {
    LiveAt(nodes, c) && (nodes[c].op.ConstOne? || (nodes[c].op.ConstF64? && nodes[c].imm == X87Model.POSITIVE_ONE))
  }

  predicate IsZero(nodes: seq<Node>, c: int) {
    LiveAt(nodes, c) && (nodes[c].op.ConstZero? || (nodes[c].op.ConstF64? && nodes[c].imm == X87Model.POSITIVE_ZERO))
  }

  predicate IsMinusZero(nodes: seq<Node>, c: int) {
    LiveAt(nodes, c) && nodes[c].op.ConstF64? && nodes[c].imm == MINUS_ZERO
  }

  datatype Fold = NoFold | FoldTo(keep: int, c: int)

  /** Is node i the value of one of its inputs, the other one being the constant c? */
  function FoldAt(nodes: seq<Node>, i: nat): Fold
    requires i < |nodes|
  {
    var n := nodes[i];
    if (n.op.FMul? || n.op.FDiv?) && IsOne(nodes, n.in1) then FoldTo(n.in0, n.in1)
    else if n.op.FMul? && IsOne(nodes, n.in0) then FoldTo(n.in1, n.in0)
    else if n.op.FSub? && IsZero(nodes, n.in1) then FoldTo(n.in0, n.in1)
    else if n.op.FAdd? && IsMinusZero(nodes, n.in1) then FoldTo(n.in0, n.in1)
    else NoFold
  }

  /** The pattern of a live constant. */
  function PatternAt(nodes: seq<Node>, c: int): int {
    if !LiveAt(nodes, c) then -1
    else match nodes[c].op case ConstZero => 0 case ConstOne => 0x3FF0_0000_0000_0000 case ConstF64 => nodes[c].imm case _ => -1
  }

  /** Folded are x * 1, 1 * x, x / 1, x - 0 and x + (-0), the last with a literal only; x + 0 and x - (-0) are not. */
  lemma FoldsExactly(nodes: seq<Node>, i: nat)
    requires i < |nodes|
    ensures var n, x, y := nodes[i], PatternAt(nodes, nodes[i].in0), PatternAt(nodes, nodes[i].in1);
      FoldAt(nodes, i).FoldTo? <==>
        || (n.op.FMul? && (x == 0x3FF0_0000_0000_0000 || y == 0x3FF0_0000_0000_0000))
        || (n.op.FDiv? && y == 0x3FF0_0000_0000_0000) || (n.op.FSub? && y == 0) || (n.op.FAdd? && y == 0x8000_0000_0000_0000)
  {
  }

  /** A list with the counters of the pass. */
  datatype Work = Work(ir: Ir, uses: seq<int>)

  ghost predicate Ready(w: Work) {
    Sound(w.ir) && Covers(w.ir, w.uses)
  }

  predicate Shaped(w: Work) {
    Good(w.ir) && |w.uses| == MAX_NODES
  }

  /** One use of the constant c less; at none it dies. */
  function Released(p: Ir, uses: seq<int>, c: int): Work
    requires |uses| == MAX_NODES && 0 <= c < |p.nodes| <= MAX_NODES
  {
    var u := uses[c := uses[c] - 1];
    Work(if u[c] == 0 then Kill(p, c) else p, u)
  }

  /** Node i becomes keep everywhere and dies. */
  function Folded(w: Work, i: nat, keep: int, c: int): Work
    requires |w.uses| == MAX_NODES && i < |w.ir.nodes| <= MAX_NODES && 0 <= keep < i && 0 <= c < |w.ir.nodes|
  {
    Released(Dropped(w.ir, i, keep), Moved(w.uses, i, keep), c)
  }

  predicate Invertible(w: Work, n: Node)
    requires Shaped(w)
  {
    && n.op.FDiv? && LiveAt(w.ir.nodes, n.in1) && w.ir.nodes[n.in1].op.ConstF64?
    && w.uses[n.in1] == 1 && PowerOfTwo(w.ir.nodes[n.in1].imm)
  }

  /** Division by the constant becomes multiplication by its reciprocal, written over it. */
  function Inverted(p: Ir, i: nat): Ir
    requires i < |p.nodes| && 0 <= p.nodes[i].in1 < |p.nodes| && PowerOfTwo(p.nodes[p.nodes[i].in1].imm)
  {
    var n := p.nodes[i];
    var cn := p.nodes[n.in1];
    Set(Set(p, n.in1, cn.(imm := Reciprocal(cn.imm))), i, n.(op := FMul))
  }

  predicate TestsZero(w: Work, n: Node)
    requires Shaped(w)
  {
    && n.op.FCmp? && LiveAt(w.ir.nodes, n.in1)
    && var cn := w.ir.nodes[n.in1];
      cn.op.ConstZero? || (cn.op.ConstF64? && (cn.imm == X87Model.POSITIVE_ZERO || cn.imm == MINUS_ZERO))
  }

  function Tested(n: Node): Node {
    n.(op := FTst, in1 := -1)
  }

  lemma FoldInputs(p: Ir, i: nat)
    requires Good(p) && i < |p.nodes| && !p.nodes[i].dead && FoldAt(p.nodes, i).FoldTo?
    ensures var f, n := FoldAt(p.nodes, i), p.nodes[i];
      && 0 <= f.keep < i && 0 <= f.c < i && LiveAt(p.nodes, f.keep) && LiveAt(p.nodes, f.c)
      && Plain(n) && Plain(p.nodes[f.keep]) && IsConst(p.nodes[f.c].op)
      && ((f.keep == n.in0 && f.c == n.in1) || (f.keep == n.in1 && f.c == n.in0))
  {
    assert GoodNode(p.nodes, i);
  }

  /** The pass at node i. */
  function ConstStep(w: Work, i: nat): Work
    requires Shaped(w) && i < |w.ir.nodes|
  {
    var n := w.ir.nodes[i];
    if n.dead then w
    else if FoldAt(w.ir.nodes, i).FoldTo? then
      FoldInputs(w.ir, i);
      Folded(w, i, FoldAt(w.ir.nodes, i).keep, FoldAt(w.ir.nodes, i).c)
    else if Invertible(w, n) then w.(ir := Inverted(w.ir, i))
    else if TestsZero(w, n) then Released(Set(w.ir, i, Tested(n)), w.uses, n.in1)
    else w
  }

  // ---------------------------------------------------------------- every step keeps the form

  lemma ReleaseReady(p: Ir, uses: seq<int>, c: int)
    requires Sound(p) && 0 <= c < |p.nodes| <= MAX_NODES && |uses| == MAX_NODES && Plain(p.nodes[c])
    requires forall k :: 0 <= k < MAX_NODES ==> uses[k] - One(k == c) >= Refs(p, k)
    ensures Ready(Released(p, uses, c)) && |Released(p, uses, c).ir.nodes| == |p.nodes|
  {
    var u := uses[c := uses[c] - 1];
    hide Refs;
    assert Covers(p, u);
    if u[c] == 0 {
      KillGood(p, c);
      StaysPaired(p, Kill(p, c));
      forall k | 0 <= k < MAX_NODES
        ensures u[k] >= Refs(Kill(p, c), k)
      {
        RefsSet(p, c, p.nodes[c].(dead := true), k);
        DeadCount(p.nodes[c], k);
      }
    }
  }

  lemma RenamedSound(p: Ir, i: nat, keep: int)
    requires Sound(p) && i < |p.nodes| && Plain(p.nodes[i]) && 0 <= keep < i && Plain(p.nodes[keep])
    ensures Sound(Renamed(p, i, keep))
  {
    RenamedGood(p, i, keep);
    var q := Renamed(p, i, keep);
    hide Good;
    forall k | 0 <= k < |p.nodes|
      ensures SameStatus(p.nodes[k], q.nodes[k])
    {
      assert PairedAt(p.nodes, k);
    }
    hide PairedAt;
    StaysPaired(p, q);
  }

  /** The renamed list without node i, and its counters but for the constant. */
  function Dropped(p: Ir, i: nat, keep: int): Ir
    requires i < |p.nodes|
  {
    Kill(Renamed(p, i, keep), i)
  }

  function Moved(uses: seq<int>, i: nat, keep: int): seq<int>
    requires |uses| == MAX_NODES && i < MAX_NODES && 0 <= keep < MAX_NODES
  {
    uses[keep := uses[keep] + uses[i] - 1][i := 0]
  }

  lemma DroppedSound(p: Ir, i: nat, keep: int)
    requires Sound(p) && i < |p.nodes| && Plain(p.nodes[i]) && 0 <= keep < i && Plain(p.nodes[keep])
    ensures Sound(Renamed(p, i, keep)) && Refs(Renamed(p, i, keep), i) == 0 && Sound(Dropped(p, i, keep))
  {
    RenamedSound(p, i, keep);
    RefsRenamed(p, i, keep, i);
    hide Refs, PairedAt;
    KillGood(Renamed(p, i, keep), i);
    assert Plain(Renamed(p, i, keep).nodes[i]);
    hide Good;
    StaysPaired(Renamed(p, i, keep), Dropped(p, i, keep));
  }

  lemma DroppedCounted(w: Work, i: nat)
    requires Ready(w) && i < |w.ir.nodes| && !w.ir.nodes[i].dead && FoldAt(w.ir.nodes, i).FoldTo?
    ensures var f := FoldAt(w.ir.nodes, i);
      && 0 <= f.keep < i && 0 <= f.c < i && |w.ir.nodes| <= MAX_NODES
      && forall k :: 0 <= k < MAX_NODES ==> Moved(w.uses, i, f.keep)[k] - One(k == f.c) >= Refs(Dropped(w.ir, i, f.keep), k)
  {
    var p, f := w.ir, FoldAt(w.ir.nodes, i);
    FoldInputs(p, i);
    var r := Renamed(p, i, f.keep);
    hide FoldAt, PairedAt, Refs, Count, GoodNode;
    forall k | 0 <= k < MAX_NODES
      ensures Moved(w.uses, i, f.keep)[k] - One(k == f.c) >= Refs(Dropped(p, i, f.keep), k)
    {
      RefsRenamed(p, i, f.keep, k);
      RefsSet(r, i, r.nodes[i].(dead := true), k);
      DeadCount(r.nodes[i], k);
      FoldCount(p.nodes[i], i, f.keep, f.c, k);
    }
  }

  lemma FoldReady(w: Work, i: nat)
    requires Ready(w) && i < |w.ir.nodes| && !w.ir.nodes[i].dead && FoldAt(w.ir.nodes, i).FoldTo?
    ensures var f := FoldAt(w.ir.nodes, i);
      0 <= f.keep < i && 0 <= f.c < i && |w.ir.nodes| <= MAX_NODES && Ready(Folded(w, i, f.keep, f.c))
      && |Folded(w, i, f.keep, f.c).ir.nodes| == |w.ir.nodes|
  {
    var p, f := w.ir, FoldAt(w.ir.nodes, i);
    FoldInputs(p, i);
    DroppedSound(p, i, f.keep);
    DroppedCounted(w, i);
    assert Plain(Dropped(p, i, f.keep).nodes[f.c]);
    hide FoldAt, Sound, Refs, Covers;
    ReleaseReady(Dropped(p, i, f.keep), Moved(w.uses, i, f.keep), f.c);
  }

  /** The dying node gives up at least one use of each input. */
  lemma FoldCount(n: Node, i: int, keep: int, c: int, k: int)
    requires !n.dead && keep < i && c < i && ((keep == n.in0 && c == n.in1) || (keep == n.in1 && c == n.in0))
    ensures Count(RenamedNode(n, i, keep), k) >= One(k == keep) + One(k == c)
  {
  }

  lemma SetReady(w: Work, i: nat, n: Node)
    requires Ready(w) && i < |w.ir.nodes| && GoodNode(Set(w.ir, i, n).nodes, i)
    requires SameStatus(w.ir.nodes[i], n) && n.dead == w.ir.nodes[i].dead && IsEffect(n.op) == IsEffect(w.ir.nodes[i].op)
    ensures Sound(Set(w.ir, i, n))
  {
    SetGood(w.ir, i, n);
    StaysPaired(w.ir, Set(w.ir, i, n));
  }

  lemma InvertedGood(p: Ir, i: nat)
    requires Good(p) && i < |p.nodes| && !p.nodes[i].dead && p.nodes[i].op.FDiv?
    requires LiveAt(p.nodes, p.nodes[i].in1) && p.nodes[p.nodes[i].in1].op.ConstF64? && PowerOfTwo(p.nodes[p.nodes[i].in1].imm)
    ensures var c := p.nodes[i].in1;
      var x := p.nodes[c].(imm := Reciprocal(p.nodes[c].imm));
      && c < i && GoodNode(Set(p, c, x).nodes, c)
      && GoodNode(Inverted(p, i).nodes, i)
  {
    assert GoodNode(p.nodes, i) && GoodNode(p.nodes, p.nodes[i].in1);
    hide Reciprocal;
  }

  lemma InvertReady(w: Work, i: nat)
    requires Ready(w) && i < |w.ir.nodes| && !w.ir.nodes[i].dead && Invertible(w, w.ir.nodes[i])
    ensures Ready(w.(ir := Inverted(w.ir, i)))
  {
    var p, n := w.ir, w.ir.nodes[i];
    var c := n.in1;
    var x, y := p.nodes[c].(imm := Reciprocal(p.nodes[c].imm)), n.(op := FMul);
    InvertedGood(p, i);
    hide Reciprocal, GoodNode, PairedAt, Refs;
    SetReady(w, c, x);
    var q := Set(p, c, x);
    forall k | 0 <= k < MAX_NODES
      ensures w.uses[k] >= Refs(q, k) && w.uses[k] >= Refs(Set(q, i, y), k)
    {
      RefsSet(p, c, x, k);
      RefsSet(q, i, y, k);
    }
    SetReady(w.(ir := q), i, y);
  }

  lemma TestReady(w: Work, i: nat)
    requires Ready(w) && i < |w.ir.nodes| && !w.ir.nodes[i].dead && TestsZero(w, w.ir.nodes[i])
    ensures var n := w.ir.nodes[i];
      0 <= n.in1 < |w.ir.nodes| <= MAX_NODES && Ready(Released(Set(w.ir, i, Tested(n)), w.uses, n.in1))
      && |Released(Set(w.ir, i, Tested(n)), w.uses, n.in1).ir.nodes| == |w.ir.nodes|
  {
    var p, n := w.ir, w.ir.nodes[i];
    var x := Tested(n);
    assert GoodNode(p.nodes, i);
    assert GoodNode(Set(p, i, x).nodes, i);
    hide GoodNode, PairedAt, Refs;
    SetReady(w, i, x);
    forall k | 0 <= k < MAX_NODES
      ensures w.uses[k] - One(k == n.in1) >= Refs(Set(p, i, x), k)
    {
      RefsSet(p, i, x, k);
    }
    ReleaseReady(Set(p, i, x), w.uses, n.in1);
  }

  /** One step of the pass keeps lists well-formed and the counters high enough. */
  lemma ConstStepReady(w: Work, i: nat)
    requires Ready(w) && i < |w.ir.nodes|
    ensures Shaped(w) && Ready(ConstStep(w, i)) && |ConstStep(w, i).ir.nodes| == |w.ir.nodes|
  {
    hide Covers, Folded, FoldAt, Inverted, Released, GoodNode, PairedAt;
    var n := w.ir.nodes[i];
    assert Shaped(w) by { ReadyShaped(w); }
    if n.dead {
    } else if FoldAt(w.ir.nodes, i).FoldTo? {
      FoldReady(w, i);
    } else if Invertible(w, n) {
      InvertReady(w, i);
      InvertedLength(w.ir, i);
    } else if TestsZero(w, n) {
      TestReady(w, i);
    }
  }

  lemma ReadyShaped(w: Work)
    requires Ready(w)
    ensures Shaped(w)
  {
  }

  lemma InvertedLength(p: Ir, i: nat)
    requires i < |p.nodes| && 0 <= p.nodes[i].in1 < |p.nodes| && PowerOfTwo(p.nodes[p.nodes[i].in1].imm)
    ensures |Inverted(p, i).nodes| == |p.nodes|
  {
  }

  // ---------------------------------------------------------------- every step keeps the meaning

  const CONSTANTS := Laws(true, false, false)

  lemma FoldValue(s: Machine, p: Ir, i: nat, e: Env)
    requires ConstRules(s) && Good(p) && i < |p.nodes| && !p.nodes[i].dead && FoldAt(p.nodes, i).FoldTo? && e.vals == []
    ensures var v := Vals(s, p.nodes, e); In(v, i) == In(v, FoldAt(p.nodes, i).keep)
  {
    var f := FoldAt(p.nodes, i);
    FoldInputs(p, i);
    assert GoodNode(p.nodes, i);
    ValueIs(s, p.nodes, e, i);
    var world := RunTo(s, p.nodes, i, e).world;
    InputIs(s, p, f.c, e, world);
    assert In(Vals(s, p.nodes, e), i) == Value(s, p.nodes[i], Vals(s, p.nodes, e), world);
    hide Vals, RunTo, In, Good, GoodNode;
    var x := In(Vals(s, p.nodes, e), f.keep);
    assert s.binary(FMul, x, X87Model.POSITIVE_ONE) == x && s.binary(FSub, x, X87Model.POSITIVE_ZERO) == x;
  }

  lemma DroppedSame(s: Machine, p: Ir, i: nat)
    requires ConstRules(s) && Sound(p) && i < |p.nodes| && !p.nodes[i].dead && FoldAt(p.nodes, i).FoldTo?
    requires !NamedByStatus(p.nodes, i)
    ensures var keep := FoldAt(p.nodes, i).keep; Same(s, p, Dropped(p, i, keep))
  {
    var f := FoldAt(p.nodes, i);
    FoldInputs(p, i);
    var r := Renamed(p, i, f.keep);
    DroppedSound(p, i, f.keep);
    assert Good(p) && Good(r) && !IsEffect(r.nodes[i].op);
    forall codes: Word, world: World
      ensures var v := Vals(s, p.nodes, Env([], codes, world)); In(v, i) == In(v, f.keep)
    {
      hide Good, FoldAt, Vals, In, Sound, Refs;
      FoldValue(s, p, i, Env([], codes, world));
    }
    hide Good, Sound, FoldAt, Refs, In, Vals, ConstRules, NamedByStatus;
    RenamedSame(s, p, i, f.keep);
    KillSame(s, r, i);
    SameTrans(s, p, r, Dropped(p, i, f.keep));
  }

  lemma ReleaseSame(s: Machine, p: Ir, q: Ir, u: seq<int>, c: int)
    requires 0 <= c < |q.nodes| <= MAX_NODES && |u| == MAX_NODES && Good(q) && Plain(q.nodes[c]) && Same(s, p, q)
    requires u[c] - 1 >= Refs(q, c)
    ensures Same(s, p, Released(q, u, c).ir)
  {
    hide Good, Same, Refs;
    if u[c] == 1 {
      KillSame(s, q, c);
      SameTrans(s, p, q, Kill(q, c));
    }
  }

  lemma FoldSame(s: Machine, w: Work, i: nat)
    requires ConstRules(s) && Ready(w) && i < |w.ir.nodes| && !w.ir.nodes[i].dead && FoldAt(w.ir.nodes, i).FoldTo?
    requires !NamedByStatus(w.ir.nodes, i)
    ensures var f := FoldAt(w.ir.nodes, i);
      0 <= f.keep < i && 0 <= f.c < i && |w.ir.nodes| <= MAX_NODES && Same(s, w.ir, Folded(w, i, f.keep, f.c).ir)
  {
    var p, f := w.ir, FoldAt(w.ir.nodes, i);
    FoldInputs(p, i);
    DroppedCounted(w, i);
    DroppedSound(p, i, f.keep);
    DroppedSame(s, p, i);
    assert Plain(Dropped(p, i, f.keep).nodes[f.c]);
    assert One(f.c == f.c) == 1;
    hide Same, FoldAt, Covers, Refs, NamedByStatus, ConstRules, Dropped, Moved;
    ReleaseSame(s, p, Dropped(p, i, f.keep), Moved(w.uses, i, f.keep), f.c);
  }

  /** With one use at most, a node that node i uses is used by nobody else. */
  lemma SoleUser(p: Ir, i: nat, c: int, j: nat)
    requires i < |p.nodes| && j < |p.nodes| && Refs(p, c) <= 1 && Count(p.nodes[i], c) > 0
    ensures Count(p.nodes[i], c) == 1 && (j != i ==> Count(p.nodes[j], c) == 0)
    ensures forall d :: 0 <= d < |p.slots| ==> p.slots[d] != c
  {
    var k := p.nodes[i].(dead := true);
    RefsSet(p, i, k, c);
    DeadCount(p.nodes[i], c);
    hide Refs, Count;
    Unused(Set(p, i, k), c, j);
  }

  /** A node that does not use c follows itself, whatever c's value is. */
  lemma OtherFollows(s: Machine, p: Ir, e: Env, j: nat, c: nat, x: Word)
    requires Good(p) && j < |p.nodes| && c < |p.nodes| && j != c && Count(p.nodes[j], c) == 0 && e.vals == []
    ensures var v := Vals(s, p.nodes, e);
      |v| == |p.nodes| && Follows(s, p.nodes[j], p.nodes[j], v[c := x], j, RunTo(s, p.nodes, j, e))
  {
    var v, n, a := Vals(s, p.nodes, e), p.nodes[j], RunTo(s, p.nodes, j, e);
    assert GoodNode(p.nodes, j);
    SelfFollows(s, p.nodes, e, j);
    if !n.dead {
      ValueIs(s, p.nodes, e, j);
      assert In(v[c := x], n.in0) == In(v, n.in0) && In(v[c := x], n.in1) == In(v, n.in1) && In(v[c := x], n.in2) == In(v, n.in2);
      hide Vals, RunTo, In, Good, GoodNode, Count;
      SameValue(s, n, v, v[c := x], a.world);
    }
  }

  /** Node i divides by the power of two in c. */
  predicate Divides(p: Ir, i: nat, c: nat) {
    && i < |p.nodes| && c < |p.nodes| && !p.nodes[i].dead && p.nodes[i].op.FDiv? && p.nodes[i].in1 == c
    && !p.nodes[c].dead && p.nodes[c].op.ConstF64? && PowerOfTwo(p.nodes[c].imm)
  }

  lemma Quotient(s: Machine, n: Node, v: seq<Word>, c: nat, b: Word, world: World)
    requires ConstRules(s) && n.op.FDiv? && n.in1 == c < |v| && n.in0 != c && v[c] == b && PowerOfTwo(b)
    ensures Value(s, n.(op := FMul), v[c := Reciprocal(b)], world) == Value(s, n, v, world)
  {
    var x := Reciprocal(b);
    assert In(v[c := x], n.in0) == In(v, n.in0) && In(v[c := x], c) == x && In(v, c) == b;
    assert s.binary(FDiv, In(v, n.in0), b) == s.binary(FMul, In(v, n.in0), x);
    hide In, Reciprocal, PowerOfTwo, ConstRules;
  }

  lemma QuotientFollows(s: Machine, p: Ir, i: nat, c: nat, e: Env)
    requires ConstRules(s) && Good(p) && Divides(p, i, c) && e.vals == [] && p.nodes[i].in0 != c
    ensures var v, n, x := Vals(s, p.nodes, e), p.nodes[i], Reciprocal(p.nodes[c].imm);
      |v| == |p.nodes| && Follows(s, n, n.(op := FMul), v[c := x], i, RunTo(s, p.nodes, i, e))
  {
    var v, n, x, world := Vals(s, p.nodes, e), p.nodes[i], Reciprocal(p.nodes[c].imm), RunTo(s, p.nodes, i, e).world;
    assert GoodNode(p.nodes, i) && GoodNode(p.nodes, c);
    assert c < i;
    hide Good, GoodNode, Reciprocal, PowerOfTwo, ConstRules;
    ValueIs(s, p.nodes, e, i);
    ValueIs(s, p.nodes, e, c);
    assert v[c] == p.nodes[c].imm && !IsEffect(n.op) && v[c := x][i] == v[i];
    hide Vals, RunTo, In, Value;
    Quotient(s, n, v, c, p.nodes[c].imm, world);
  }

  lemma InvertFollows(s: Machine, p: Ir, i: nat, c: nat, e: Env, j: nat)
    requires ConstRules(s) && Good(p) && Divides(p, i, c) && e.vals == [] && j < |p.nodes| && Refs(p, c) <= 1
    ensures var v, x := Vals(s, p.nodes, e), Reciprocal(p.nodes[c].imm);
      |v| == |p.nodes| && Follows(s, p.nodes[j], Inverted(p, i).nodes[j], v[c := x], j, RunTo(s, p.nodes, j, e))
  {
    ValsGrow(s, p.nodes, e, 0, |p.nodes|);
    SoleUser(p, i, c, j);
    assert Count(p.nodes[i], c) == 1 ==> p.nodes[i].in0 != c;
    hide Refs, Reciprocal, ConstRules, Good, Vals, RunTo, Count, In;
    if j == i {
      hide Follows;
      QuotientFollows(s, p, i, c, e);
    } else if j != c {
      hide Follows;
      OtherFollows(s, p, e, j, c, Reciprocal(p.nodes[c].imm));
    }
  }

  lemma InvertSame(s: Machine, w: Work, i: nat)
    requires ConstRules(s) && Ready(w) && i < |w.ir.nodes| && !w.ir.nodes[i].dead && Invertible(w, w.ir.nodes[i])
    ensures Same(s, w.ir, Inverted(w.ir, i))
  {
    var p, c := w.ir, w.ir.nodes[i].in1;
    var q := Inverted(p, i);
    InvertReady(w, i);
    assert Good(p) && Good(q) && Refs(p, c) <= 1 && Divides(p, i, c) && |p.slots| == 8;
    SoleUser(p, i, c, i);
    hide Good, Refs, ConstRules, Divides, PairedAt, Covers;
    forall codes: Word, world: World
      ensures Meaning(s, p, codes, world) == Meaning(s, q, codes, world)
    {
      var e := Env([], codes, world);
      var v := Vals(s, p.nodes, e);
      ValsGrow(s, p.nodes, e, 0, |p.nodes|);
      var x := v[c := Reciprocal(p.nodes[c].imm)];
      hide Follows, RunTo, Meaning, Reciprocal, Count;
      forall j | 0 <= j < |p.nodes|
        ensures Follows(s, p.nodes[j], q.nodes[j], x, j, RunTo(s, p.nodes, j, e))
      {
        InvertFollows(s, p, i, c, e, j);
      }
      MeaningFollows(s, p, q, x, codes, world);
    }
    hide Meaning;
  }

  lemma TestSame(s: Machine, w: Work, i: nat)
    requires ConstRules(s) && Ready(w) && i < |w.ir.nodes| && !w.ir.nodes[i].dead && TestsZero(w, w.ir.nodes[i])
    ensures var n := w.ir.nodes[i];
      && 0 <= n.in1 < |w.ir.nodes| <= MAX_NODES && GoodNode(Set(w.ir, i, Tested(n)).nodes, i)
      && Same(s, w.ir, Set(w.ir, i, Tested(n)))
  {
    var p, n := w.ir, w.ir.nodes[i];
    assert GoodNode(p.nodes, i);
    assert GoodNode(Set(p, i, Tested(n)).nodes, i);
    SetGood(p, i, Tested(n));
    forall codes: Word, world: World
      ensures var e := Env([], codes, world);
        i < |Vals(s, p.nodes, e)| && Follows(s, n, Tested(n), Vals(s, p.nodes, e), i, RunTo(s, p.nodes, i, e))
    {
      var e := Env([], codes, world);
      ValueIs(s, p.nodes, e, i);
      InputIs(s, p, n.in1, e, world);
      hide Vals, RunTo, Good, GoodNode, In, PairedAt;
    }
    hide Follows, Vals, RunTo, Good, GoodNode, ConstRules;
    SetSame(s, p, i, Tested(n));
  }

  /** The pass folds node i while some FNSTSW holds the number i. */
  predicate Hits(w: Work, i: nat)
    requires i < |w.ir.nodes|
  {
    !w.ir.nodes[i].dead && FoldAt(w.ir.nodes, i).FoldTo? && NamedByStatus(w.ir.nodes, i)
  }

  lemma ConstStepSame(w: Work, i: nat)
    requires Ready(w) && i < |w.ir.nodes| && !Hits(w, i)
    ensures Shaped(w) && Equivalent(CONSTANTS, w.ir, ConstStep(w, i).ir)
  {
    var n := w.ir.nodes[i];
    assert Shaped(w) by { ReadyShaped(w); }
    forall s: Machine | Obeys(s, CONSTANTS)
      ensures Same(s, w.ir, ConstStep(w, i).ir)
    {
      assert ConstRules(s);
      hide ConstRules, Covers, Folded, FoldAt, Inverted, GoodNode, PairedAt, NamedByStatus, Same, Sound, Obeys;
      if n.dead || !(FoldAt(w.ir.nodes, i).FoldTo? || Invertible(w, n) || TestsZero(w, n)) {
        hide Released, Invertible, TestsZero;
        SameSelf(s, w.ir);
      } else if FoldAt(w.ir.nodes, i).FoldTo? {
        hide Released, Invertible, TestsZero;
        FoldSame(s, w, i);
      } else if Invertible(w, n) {
        hide Released, TestsZero;
        InvertSame(s, w, i);
      } else {
        hide Released, Invertible;
        TestSame(s, w, i);
        TestReleased(s, w, i);
      }
    }
    hide Same, Obeys;
  }

  lemma SameSelf(s: Machine, p: Ir)
    ensures Same(s, p, p)
  {
    hide Meaning;
  }

  lemma TestReleased(s: Machine, w: Work, i: nat)
    requires Ready(w) && i < |w.ir.nodes| && !w.ir.nodes[i].dead && TestsZero(w, w.ir.nodes[i])
    requires Same(s, w.ir, Set(w.ir, i, Tested(w.ir.nodes[i])))
    ensures var n := w.ir.nodes[i];
      0 <= n.in1 < |w.ir.nodes| <= MAX_NODES && Same(s, w.ir, Released(Set(w.ir, i, Tested(n)), w.uses, n.in1).ir)
  {
    var p, n := w.ir, w.ir.nodes[i];
    var q := Set(p, i, Tested(n));
    assert GoodNode(p.nodes, i);
    assert GoodNode(q.nodes, i);
    SetGood(p, i, Tested(n));
    RefsSet(p, i, Tested(n), n.in1);
    assert Plain(q.nodes[n.in1]) && w.uses[n.in1] - 1 >= Refs(q, n.in1);
    hide Same, Good, GoodNode, PairedAt, Refs, Covers, Count;
    ReleaseSame(s, p, q, w.uses, n.in1);
  }

  // ---------------------------------------------------------------- the whole pass

  function ConstRun(w: Work, i: nat): Work
    requires Ready(w) && i <= |w.ir.nodes|
    decreases |w.ir.nodes| - i
  {
    if i == |w.ir.nodes| then w
    else
      ConstStepReady(w, i);
      ConstRun(ConstStep(w, i), i + 1)
  }

  /** No fold of the pass hits an FNSTSW. */
  ghost predicate NoHit(w: Work, i: nat)
    requires Ready(w) && i <= |w.ir.nodes|
    decreases |w.ir.nodes| - i
  {
    i == |w.ir.nodes| ||
    (!Hits(w, i) &&
     (ConstStepReady(w, i);
      NoHit(ConstStep(w, i), i + 1)))
  }

  lemma {:induction false} ConstRunReady(w: Work, i: nat)
    requires Ready(w) && i <= |w.ir.nodes|
    ensures Ready(ConstRun(w, i)) && |ConstRun(w, i).ir.nodes| == |w.ir.nodes|
    decreases |w.ir.nodes| - i
  {
    hide Ready, ConstStep;
    if i < |w.ir.nodes| {
      ConstStepReady(w, i);
      ConstRunReady(ConstStep(w, i), i + 1);
    }
  }

  lemma {:induction false} ConstRunSame(w: Work, i: nat)
    requires Ready(w) && i <= |w.ir.nodes| && NoHit(w, i)
    ensures Equivalent(CONSTANTS, w.ir, ConstRun(w, i).ir)
    decreases |w.ir.nodes| - i
  {
    hide Ready, ConstStep, Hits, Equivalent;
    if i < |w.ir.nodes| {
      ConstStepReady(w, i);
      ConstStepSame(w, i);
      ConstRunSame(ConstStep(w, i), i + 1);
      EquivalentTrans(CONSTANTS, CONSTANTS, w.ir, ConstStep(w, i).ir, ConstRun(w, i).ir);
    } else {
      EquivalentSelf(CONSTANTS, w.ir);
    }
  }

  lemma EquivalentSelf(l: Laws, p: Ir)
    ensures Equivalent(l, p, p)
  {
    hide Meaning, Obeys;
  }

  // ---------------------------------------------------------------- a hit is seen

  /** What a step does to an FNSTSW. */
  lemma StepStatus(w: Work, i: nat, k: nat)
    requires Ready(w) && i < |w.ir.nodes| && k < |w.ir.nodes|
    ensures Shaped(w) && |ConstStep(w, i).ir.nodes| == |w.ir.nodes|
    ensures var n, m := w.ir.nodes[k], ConstStep(w, i).ir.nodes[k];
      && LiveStatus(n) == LiveStatus(m)
      && (LiveStatus(n) && !Hits(w, i) ==> m.in1 == n.in1 && m.in2 == n.in2)
      && (LiveStatus(n) && Hits(w, i) ==>
            && m.in1 <= n.in1 && m.in2 <= n.in2
            && (n.in1 == i ==> m.in1 < n.in1) && (n.in2 == i ==> m.in2 < n.in2))
  {
    ConstStepReady(w, i);
    assert Shaped(w) by { ReadyShaped(w); }
    var n := w.ir.nodes[i];
    if !n.dead && FoldAt(w.ir.nodes, i).FoldTo? {
      FoldInputs(w.ir, i);
      hide Ready, Shaped, FoldAt, Moved;
      assert LiveStatus(w.ir.nodes[k]) && !NamedByStatus(w.ir.nodes, i) ==> w.ir.nodes[k].in1 != i && w.ir.nodes[k].in2 != i;
    } else {
      hide Ready, FoldAt, Moved;
    }
  }

  /** The numbers in an FNSTSW never grow. */
  lemma {:induction false} NamesShrink(w: Work, i: nat, k: nat)
    requires Ready(w) && i <= |w.ir.nodes| && k < |w.ir.nodes|
    ensures |ConstRun(w, i).ir.nodes| == |w.ir.nodes|
    ensures var n, m := w.ir.nodes[k], ConstRun(w, i).ir.nodes[k];
      LiveStatus(n) == LiveStatus(m) && (LiveStatus(n) ==> m.in1 <= n.in1 && m.in2 <= n.in2)
    decreases |w.ir.nodes| - i
  {
    hide Ready, ConstStep, Hits, LiveStatus;
    if i < |w.ir.nodes| {
      ConstStepReady(w, i);
      StepStatus(w, i, k);
      NamesShrink(ConstStep(w, i), i + 1, k);
    }
  }

  /** After a hit, some FNSTSW holds a smaller number. */
  lemma {:induction false} HitShrinks(w: Work, i: nat) returns (k: nat)
    requires Ready(w) && i <= |w.ir.nodes| && !NoHit(w, i)
    ensures k < |w.ir.nodes| == |ConstRun(w, i).ir.nodes| && LiveStatus(w.ir.nodes[k])
    ensures var n, m := w.ir.nodes[k], ConstRun(w, i).ir.nodes[k]; m.in1 < n.in1 || m.in2 < n.in2
    decreases |w.ir.nodes| - i
  {
    hide Ready, ConstStep;
    ConstStepReady(w, i);
    if Hits(w, i) {
      k :| 0 <= k < |w.ir.nodes| && LiveStatus(w.ir.nodes[k]) && (w.ir.nodes[k].in1 == i || w.ir.nodes[k].in2 == i);
      StepStatus(w, i, k);
      hide Hits, LiveStatus;
      NamesShrink(ConstStep(w, i), i + 1, k);
    } else {
      hide Hits, LiveStatus;
      k := HitShrinks(ConstStep(w, i), i + 1);
      StepStatus(w, i, k);
    }
  }

  /** No FNSTSW holds a number above 0. */
  predicate LowNames(nodes: seq<Node>) {
    forall k :: 0 <= k < |nodes| && LiveStatus(nodes[k]) ==> nodes[k].in1 <= 0 && nodes[k].in2 <= 0
  }

  lemma FirstStays(w: Work)
    requires Ready(w) && |w.ir.nodes| > 0
    ensures !Hits(w, 0)
  {
    assert Shaped(w) by { ReadyShaped(w); }
    if !w.ir.nodes[0].dead && FoldAt(w.ir.nodes, 0).FoldTo? {
      FoldInputs(w.ir, 0);
    }
    hide Ready, FoldAt;
  }

  /** The first node has no inputs and is never folded, so such numbers are never hit. */
  lemma {:induction false} LowNoHit(w: Work, i: nat)
    requires Ready(w) && i <= |w.ir.nodes| && LowNames(w.ir.nodes)
    ensures NoHit(w, i)
    decreases |w.ir.nodes| - i
  {
    hide Ready, ConstStep;
    if i < |w.ir.nodes| {
      ConstStepReady(w, i);
      if i == 0 { FirstStays(w); }
      hide FoldAt;
      assert !Hits(w, i);
      hide Hits, LiveStatus;
      forall k | 0 <= k < |w.ir.nodes| && LiveStatus(ConstStep(w, i).ir.nodes[k])
        ensures ConstStep(w, i).ir.nodes[k].in1 <= 0 && ConstStep(w, i).ir.nodes[k].in2 <= 0
      {
        StepStatus(w, i, k);
      }
      LowNoHit(ConstStep(w, i), i + 1);
    }
  }

  // A machine that obeys the laws and writes down what every FNSTSW holds.

  function Flip(x: Word): Word {
    if x >= MINUS_ZERO then x - MINUS_ZERO else x + MINUS_ZERO
  }

  function LogSum(x: Word, y: Word): Word {
    if y == MINUS_ZERO then x else if x == MINUS_ZERO then y else 0
  }

  function LogProduct(x: Word, y: Word): Word {
    if y == X87Model.POSITIVE_ONE then x else if x == X87Model.POSITIVE_ONE then y else 0
  }

  function LogUnary(op: Op, x: Word): Word {
    if op.FNeg? then Flip(x) else x
  }

  function LogBinary(op: Op, x: Word, y: Word): Word {
    if op.FAdd? then LogSum(x, y)
    else if op.FSub? then LogSum(x, Flip(y))
    else if op.FMul? then LogProduct(x, y)
    else if op.FNMul? then Flip(LogProduct(x, y))
    else if PowerOfTwo(y) then LogProduct(x, Reciprocal(y)) else 0
  }

  function LogFma(op: Op, x: Word, y: Word, z: Word): Word {
    var m := LogProduct(x, y);
    if op.FMAdd? then LogSum(m, z) else if op.FMSub? then LogSum(z, Flip(m)) else LogSum(m, Flip(z))
  }

  const LOG: Machine := Machine(
    LogUnary, LogBinary, LogFma, (op, x, y, imm, world) => 0,
    (op, x, y, imm, aux, world) => world, (codes, reg, delta, world: World) => world.(guest := world.guest + [reg, delta]),
    (x, y) => 0, x => 0)

  lemma OneIsItsReciprocal()
    ensures PowerOfTwo(X87Model.POSITIVE_ONE) && Reciprocal(X87Model.POSITIVE_ONE) == X87Model.POSITIVE_ONE
  {
    assert X87Model.POSITIVE_ONE == 0x3FF * 0x10_0000_0000_0000;
  }

  lemma LogConstRules()
    ensures ConstRules(LOG)
  {
    OneIsItsReciprocal();
    hide PowerOfTwo, Reciprocal;
  }

  lemma LogObeys(l: Laws)
    ensures Obeys(LOG, l)
  {
    LogConstRules();
    hide LogProduct, PowerOfTwo, Reciprocal, ConstRules;
    assert FmaRules(LOG);
    assert SignRules(LOG);
  }

  function Log(nodes: seq<Node>, k: nat): seq<int>
    requires k <= |nodes|
  {
    if k == 0 then []
    else Log(nodes, k - 1) + if LiveStatus(nodes[k - 1]) then [nodes[k - 1].in1, nodes[k - 1].in2] else []
  }

  lemma {:induction false} LogIs(nodes: seq<Node>, k: nat, e: Env)
    requires k <= |nodes|
    ensures RunTo(LOG, nodes, k, e).world.guest == e.world.guest + Log(nodes, k)
  {
    if k > 0 {
      LogIs(nodes, k - 1, e);
      var a, n := RunTo(LOG, nodes, k - 1, e), nodes[k - 1];
      assert Exec(LOG, n, a).world.guest == a.world.guest + if LiveStatus(n) then [n.in1, n.in2] else [];
    }
  }

  lemma {:induction false} LogTells(a: seq<Node>, b: seq<Node>, k: nat, j: nat)
    requires j < k <= |a| == |b| && Log(a, k) == Log(b, k)
    requires forall i :: 0 <= i < k ==> LiveStatus(a[i]) == LiveStatus(b[i])
    ensures LiveStatus(a[j]) ==> a[j].in1 == b[j].in1 && a[j].in2 == b[j].in2
  {
    var x, y := Log(a, k - 1), Log(b, k - 1);
    hide LiveStatus;
    if LiveStatus(a[k - 1]) {
      var u, v := a[k - 1], b[k - 1];
      assert x + [u.in1, u.in2] == y + [v.in1, v.in2];
      assert (x + [u.in1, u.in2])[|x|..] == [u.in1, u.in2] && (y + [v.in1, v.in2])[|y|..] == [v.in1, v.in2];
      assert |x| == |y|;
      assert [u.in1, u.in2][0] == [v.in1, v.in2][0] && [u.in1, u.in2][1] == [v.in1, v.in2][1];
      assert (x + [u.in1, u.in2])[..|x|] == x && (y + [v.in1, v.in2])[..|y|] == y;
    } else {
      assert x + [] == x && y + [] == y;
    }
    if j < k - 1 {
      LogTells(a, b, k - 1, j);
    }
  }

  lemma SeenInLog(p: Ir, q: Ir, j: nat)
    requires |p.nodes| == |q.nodes| && j < |p.nodes| && Same(LOG, p, q)
    requires forall i :: 0 <= i < |p.nodes| ==> LiveStatus(p.nodes[i]) == LiveStatus(q.nodes[i])
    ensures LiveStatus(p.nodes[j]) ==> p.nodes[j].in1 == q.nodes[j].in1 && p.nodes[j].in2 == q.nodes[j].in2
  {
    var world := World(map[], [], X87Model.Flags(false, false, false, false), 0);
    var e, n := Env([], 0, world), |p.nodes|;
    assert Meaning(LOG, p, 0, world) == Meaning(LOG, q, 0, world);
    LogIs(p.nodes, n, e);
    LogIs(q.nodes, n, e);
    assert world.guest + Log(p.nodes, n) == Log(p.nodes, n) && world.guest + Log(q.nodes, n) == Log(q.nodes, n);
    hide RunTo, LiveStatus, Log;
    LogTells(p.nodes, q.nodes, n, j);
  }

  /** Every FNSTSW holds what it held. */
  predicate SameNames(a: seq<Node>, b: seq<Node>) {
    |a| == |b| && forall k :: 0 <= k < |a| ==>
      LiveStatus(a[k]) == LiveStatus(b[k]) && (LiveStatus(a[k]) ==> a[k].in1 == b[k].in1 && a[k].in2 == b[k].in2)
  }

  lemma NamesTrans(a: seq<Node>, b: seq<Node>, c: seq<Node>)
    requires SameNames(a, b) && SameNames(b, c)
    ensures SameNames(a, c)
  {
    hide LiveStatus;
  }

  /** Lists that mean the same under any of the laws hold the same. */
  lemma EquivalentNames(l: Laws, p: Ir, q: Ir)
    requires Equivalent(l, p, q) && |p.nodes| == |q.nodes|
    requires forall i :: 0 <= i < |p.nodes| ==> LiveStatus(p.nodes[i]) == LiveStatus(q.nodes[i])
    ensures SameNames(p.nodes, q.nodes)
  {
    LogObeys(l);
    hide LiveStatus, Same, Obeys;
    forall k | 0 <= k < |p.nodes|
      ensures LiveStatus(p.nodes[k]) ==> p.nodes[k].in1 == q.nodes[k].in1 && p.nodes[k].in2 == q.nodes[k].in2
    {
      SeenInLog(p, q, k);
    }
  }

  /** So does the pass without a hit, and only then. */
  lemma NamesExact(w: Work)
    requires Ready(w)
    ensures |ConstRun(w, 0).ir.nodes| == |w.ir.nodes|
    ensures forall k :: 0 <= k < |w.ir.nodes| ==> LiveStatus(w.ir.nodes[k]) == LiveStatus(ConstRun(w, 0).ir.nodes[k])
    ensures SameNames(w.ir.nodes, ConstRun(w, 0).ir.nodes) <==> NoHit(w, 0)
  {
    hide Ready, LiveStatus;
    ConstRunReady(w, 0);
    forall k | 0 <= k < |w.ir.nodes|
      ensures LiveStatus(w.ir.nodes[k]) == LiveStatus(ConstRun(w, 0).ir.nodes[k])
    {
      NamesShrink(w, 0, k);
    }
    hide ConstRun;
    if NoHit(w, 0) {
      ConstRunSame(w, 0);
      EquivalentNames(CONSTANTS, w.ir, ConstRun(w, 0).ir);
    } else {
      var k := HitShrinks(w, 0);
    }
  }

  /**
   For every list: under the laws of arithmetic the pass keeps what it means if and only if it never
   folds a node whose number an FNSTSW holds.
   */
  lemma ConstArithExact(w: Work)
    requires Ready(w)
    ensures Equivalent(CONSTANTS, w.ir, ConstRun(w, 0).ir) <==> NoHit(w, 0)
  {
    NamesExact(w);
    hide Ready, Equivalent, SameNames, LiveStatus, ConstRun;
    if NoHit(w, 0) {
      ConstRunSame(w, 0);
    } else if Equivalent(CONSTANTS, w.ir, ConstRun(w, 0).ir) {
      EquivalentNames(CONSTANTS, w.ir, ConstRun(w, 0).ir);
    }
  }

  // ---------------------------------------------------------------- FLD1, FMULP, FCOMPP, FNSTSW

  function Simple(op: Op, in0: int, in1: int, in2: int, imm: Word): Node {
    Node(op, false, in0, in1, in2, imm, 0, false)
  }

  /** What build makes of these four: ST(0) * 1.0 is node 2, and two pops precede the FNSTSW. */
  const FCOMPP_AFTER_FMULP: Ir := Ir(
    [Simple(ConstOne, -1, -1, -1, 0), Simple(ReadSt, -1, -1, -1, 0), Simple(FMul, 1, 0, -1, 0),
     Simple(ReadSt, -1, -1, -1, 1), Simple(FCmp, 2, 3, -1, 0), Simple(FStsw, 4, 0, 2, 0)],
    [-3, -4, -5, -6, -7, -100, -100, -100])

  function Counters(p: Ir): seq<int> {
    seq(MAX_NODES, k requires 0 <= k < MAX_NODES => Refs(p, k))
  }

  lemma ExampleNodes()
    ensures var n := FCOMPP_AFTER_FMULP.nodes;
      && |n| == 6 && |FCOMPP_AFTER_FMULP.slots| == 8
      && n[0] == Simple(ConstOne, -1, -1, -1, 0) && n[1] == Simple(ReadSt, -1, -1, -1, 0) && n[2] == Simple(FMul, 1, 0, -1, 0)
      && n[3] == Simple(ReadSt, -1, -1, -1, 1) && n[4] == Simple(FCmp, 2, 3, -1, 0) && n[5] == Simple(FStsw, 4, 0, 2, 0)
      && forall d :: 0 <= d < 8 ==> FCOMPP_AFTER_FMULP.slots[d] < 0
  {
  }

  lemma ExampleGood(p: Ir)
    requires p == FCOMPP_AFTER_FMULP
    ensures Good(p)
  {
    ExampleNodes();
    hide FCOMPP_AFTER_FMULP;
    var n := p.nodes;
    assert GoodNode(n, 0) && GoodNode(n, 1) && GoodNode(n, 2);
    assert GoodNode(n, 3) && GoodNode(n, 4) && GoodNode(n, 5);
    hide GoodNode;
  }

  lemma ExampleSound()
    ensures Sound(FCOMPP_AFTER_FMULP)
  {
    ExampleGood(FCOMPP_AFTER_FMULP);
    ExampleNodes();
    hide FCOMPP_AFTER_FMULP, Good;
    var n := FCOMPP_AFTER_FMULP.nodes;
    assert PairedAt(n, 5);
    assert !LiveStatus(n[0]) && !LiveStatus(n[1]) && !LiveStatus(n[2]) && !LiveStatus(n[3]) && !LiveStatus(n[4]);
    hide LiveStatus, LiveCompare;
  }

  /** The multiplication is folded, and the FNSTSW reports TOP with one pop too few. */
  lemma StatusAfterFold(uses: seq<int>)
    requires uses == Counters(FCOMPP_AFTER_FMULP)
    ensures var w := Work(FCOMPP_AFTER_FMULP, uses);
      && Ready(w) && Shaped(w) && ConstStep(w, 2).ir.nodes[5] == Simple(FStsw, 4, 0, 1, 0)
      && !Equivalent(CONSTANTS, w.ir, ConstRun(w, 0).ir)
  {
    ExampleSound();
    var w := Work(FCOMPP_AFTER_FMULP, uses);
    assert Covers(w.ir, uses) && Shaped(w);
    var n := w.ir.nodes;
    assert n[0] == Simple(ConstOne, -1, -1, -1, 0) && n[1] == Simple(ReadSt, -1, -1, -1, 0) && n[2] == Simple(FMul, 1, 0, -1, 0);
    assert n[5] == Simple(FStsw, 4, 0, 2, 0);
    assert FoldAt(n, 2) == FoldTo(1, 0) && NamedByStatus(n, 2);
    assert ConstStep(w, 0) == w && ConstStep(w, 1) == w;
    assert !NoHit(w, 2);
    assert !NoHit(w, 1);
    hide *;
    ConstArithExact(w);
  }
}
