/** The optimization passes on the intermediate form (X87IROptimize.cpp), without the opt-in f32 passes. */
module X87Optimize {
  import opened Words
  import opened X87IR
  import opened X87Uses
  import opened X87Rules

  // ---------------------------------------------------------------- comparisons and FNSTSW

  predicate LiveCompare(n: Node) {
    !n.dead && IsCompare(n.op)
  }

  predicate LiveStatus(n: Node) {
    !n.dead && n.op.FStsw?
  }

  /** The first input of an FNSTSW at k is the last comparison before it, if there is one. */
  predicate PairedAt(nodes: seq<Node>, k: nat)
    requires k < |nodes|
  {
    var f := nodes[k].in0;
    LiveStatus(nodes[k]) && f >= 0 ==>
      f < k && LiveCompare(nodes[f]) && forall j :: f < j < k ==> !LiveCompare(nodes[j])
  }

  /** What build leaves, and every pass keeps. */
  predicate Sound(p: Ir) {
    Good(p) && forall k :: 0 <= k < |p.nodes| ==> PairedAt(p.nodes, k)
  }

  /** Comparisons stay comparisons, and FNSTSW keeps its first input. */
  predicate SameStatus(n: Node, m: Node) {
    LiveCompare(n) == LiveCompare(m) && LiveStatus(n) == LiveStatus(m) && (LiveStatus(n) ==> n.in0 == m.in0)
  }

  lemma StaysPaired(p: Ir, q: Ir)
    requires Sound(p) && Good(q) && |p.nodes| == |q.nodes|
    requires forall k :: 0 <= k < |p.nodes| ==> SameStatus(p.nodes[k], q.nodes[k])
    ensures Sound(q)
  {
    hide Good;
    forall k | 0 <= k < |q.nodes|
      ensures PairedAt(q.nodes, k)
    {
      assert PairedAt(p.nodes, k);
    }
  }

  // ---------------------------------------------------------------- absorbing a single-use input

  /** The uses after node i became n and m died. */
  ghost predicate Counted(p: Ir, uses: seq<int>, i: nat, n: Node, m: int, after: seq<int>)
    requires i < |p.nodes|
  {
    |after| == MAX_NODES == |uses| && forall k :: 0 <= k < MAX_NODES ==>
      after[k] >= 0 && (k != m ==> after[k] >= uses[k] - Count(p.nodes[i], k) + Count(n, k))
  }

  lemma AbsorbCovers(p: Ir, uses: seq<int>, i: nat, n: Node, m: nat, after: seq<int>)
    requires Covers(p, uses) && m < i < |p.nodes| <= MAX_NODES && Counted(p, uses, i, n, m, after)
    requires uses[m] == 1 && Count(p.nodes[i], m) > 0 && Count(n, m) == 0
    ensures Refs(p, m) == 1 && Covers(Kill(Set(p, i, n), m), after)
  {
    hide Refs, Count;
    RefsSet(p, i, n, m);
    forall k | 0 <= k < MAX_NODES
      ensures after[k] >= Refs(Kill(Set(p, i, n), m), k)
    {
      var q := Set(p, i, n);
      RefsSet(p, i, n, k);
      RefsSet(q, m, q.nodes[m].(dead := true), k);
      DeadCount(q.nodes[m], k);
    }
  }

  lemma DeadCount(n: Node, k: int)
    ensures Count(n.(dead := true), k) == 0
  {
  }

  /** Node i can become n, and m die: i is its only user, and n takes over what goes into m. */
  ghost predicate Absorbs(p: Ir, uses: seq<int>, i: nat, n: Node, m: int, after: seq<int>) {
    && 0 <= m < i < |p.nodes| <= MAX_NODES && Plain(p.nodes[i]) && Plain(n) && Plain(p.nodes[m])
    && GoodNode(Set(p, i, n).nodes, i)
    && Counted(p, uses, i, n, m, after) && uses[m] == 1 && Count(p.nodes[i], m) > 0 && Count(n, m) == 0
  }

  /** Replacing i by n and killing m keeps everything. */
  lemma AbsorbStep(l: Laws, p: Ir, uses: seq<int>, i: nat, n: Node, m: int, after: seq<int>)
    requires Sound(p) && Covers(p, uses) && Absorbs(p, uses, i, n, m, after)
    requires forall s: Machine | Obeys(s, l) :: SameThere(s, p, i, n)
    ensures var q := Kill(Set(p, i, n), m); Sound(q) && Covers(q, after) && Equivalent(l, p, q)
  {
    var q := Kill(Set(p, i, n), m);
    AbsorbCovers(p, uses, i, n, m, after);
    SetGood(p, i, n);
    RefsSet(p, i, n, m);
    KillGood(Set(p, i, n), m);
    StaysPaired(p, q);
    forall s: Machine | Obeys(s, l)
      ensures Same(s, p, q)
    {
      hide Obeys, Good, GoodNode, Covers, Counted, Refs, Count, Same, FollowsAt;
      assert Good(p) && Good(Set(p, i, n));
      SameFollows(s, p, i, n);
      AbsorbSame(s, p, i, n, m);
    }
    hide Same, Obeys;
  }

  lemma CountAtMost(p: Ir, uses: seq<int>, i: nat, k: int)
    requires Covers(p, uses) && i < |p.nodes| && 0 <= k < MAX_NODES
    ensures Count(p.nodes[i], k) <= uses[k]
  {
    hide Count;
    NodeRefsSet(p.nodes, i, p.nodes[i], k);
  }

  function Plus(uses: seq<int>, k: int): seq<int>
    requires 0 <= k < |uses|
  {
    uses[k := uses[k] + 1]
  }

  predicate SingleUse(p: Ir, uses: seq<int>, k: int, op: Op)
    requires |uses| == MAX_NODES
  {
    0 <= k < |p.nodes| && k < MAX_NODES && p.nodes[k].op == op && !p.nodes[k].dead && uses[k] == 1
  }

  const SIGNS := Laws(false, true, false)
  const FMA := Laws(false, false, true)

  /** The two nodes, the node and its single-use input. */
  lemma Inputs(p: Ir, uses: seq<int>, i: nat, m: int)
    requires Sound(p) && Covers(p, uses) && i < |p.nodes| && Plain(p.nodes[i]) && 0 <= m && Count(p.nodes[i], m) > 0
    requires m < |p.nodes| ==> uses[m] == 1 && !p.nodes[m].dead
    ensures m < i < |p.nodes| <= MAX_NODES && GoodNode(p.nodes, i) && GoodNode(p.nodes, m) && Count(p.nodes[i], m) == 1
    ensures Plain(p.nodes[m])
    ensures forall k :: 0 <= k < MAX_NODES ==> uses[k] >= Count(p.nodes[i], k)
  {
    assert GoodNode(p.nodes, i);
    assert GoodNode(p.nodes, m);
    hide Refs, PairedAt;
    forall k | 0 <= k < MAX_NODES
      ensures uses[k] >= Count(p.nodes[i], k)
    {
      CountAtMost(p, uses, i, k);
    }
  }

  /** The rewritings that absorb an input: which input, and what becomes of the node. */
  datatype Rewriting = NegSecond | NegFirst | NegProduct | FmaFirst | FmaSecond

  function Taken(n: Node, w: Rewriting): int {
    if w.NegSecond? || w.FmaSecond? then n.in1 else n.in0
  }

  function Made(n: Node, m: Node, w: Rewriting): Node {
    match w
    case NegSecond => Negated(n, m)
    case NegFirst => NegatedFirst(n, m)
    case NegProduct => NegatedProduct(n, m)
    case FmaFirst => FusedNode(n, m, true)
    case FmaSecond => FusedNode(n, m, false)
  }

  function LawsOf(w: Rewriting): Laws {
    if w.FmaFirst? || w.FmaSecond? then FMA else SIGNS
  }

  predicate Applies(p: Ir, uses: seq<int>, i: nat, w: Rewriting)
    requires |uses| == MAX_NODES && i < |p.nodes|
  {
    var n := p.nodes[i];
    && !n.dead
    && (match w
        case NegSecond => (n.op.FAdd? || n.op.FSub?) && SingleUse(p, uses, n.in1, FNeg)
        case NegFirst => n.op.FAdd? && SingleUse(p, uses, n.in0, FNeg)
        case NegProduct => n.op.FNeg? && SingleUse(p, uses, n.in0, FMul)
        case FmaFirst => (n.op.FAdd? || n.op.FSub?) && SingleUse(p, uses, n.in0, FMul)
        case FmaSecond => (n.op.FAdd? || n.op.FSub?) && SingleUse(p, uses, n.in1, FMul))
  }

  predicate Countable(n: Node, w: Rewriting) {
    0 <= n.in0 < MAX_NODES && (!w.NegSecond? && !w.NegFirst? ==> 0 <= n.in1 < MAX_NODES)
  }

  /** The counters after the rewriting: m is dead, and what went into it is used by i. */
  function Recounted(uses: seq<int>, m: int, n: Node, w: Rewriting): seq<int>
    requires |uses| == MAX_NODES && 0 <= m < MAX_NODES && Countable(n, w)
  {
    var u := Plus(uses[m := 0], n.in0);
    if w.NegSecond? || w.NegFirst? then u else Plus(u, n.in1)
  }

  /** m is taken from n once, and what went into it comes before it. */
  lemma TakenOnce(p: Ir, uses: seq<int>, i: nat, w: Rewriting)
    requires Sound(p) && Covers(p, uses) && i < |p.nodes| && Applies(p, uses, i, w)
    ensures var n := p.nodes[i];
      var m := Taken(n, w);
      && 0 <= m < i < |p.nodes| <= MAX_NODES && Count(n, m) == 1 && Plain(p.nodes[m])
      && Countable(p.nodes[m], w) && GoodNode(p.nodes, i) && GoodNode(p.nodes, m)
    ensures forall k :: 0 <= k < MAX_NODES ==> uses[k] >= Count(p.nodes[i], k)
  {
    Inputs(p, uses, i, Taken(p.nodes[i], w));
    hide Covers, Sound;
  }

  /** The new node and the new counters fit. */
  lemma MadeCounted(p: Ir, uses: seq<int>, i: nat, w: Rewriting)
    requires |uses| == MAX_NODES && i < |p.nodes| && Applies(p, uses, i, w)
    requires var n := p.nodes[i];
      var m := Taken(n, w);
      && 0 <= m < |p.nodes| <= MAX_NODES && Countable(p.nodes[m], w) && Count(n, m) == 1 && p.nodes[m].in0 < m && p.nodes[m].in1 < m
    requires forall k :: 0 <= k < MAX_NODES ==> uses[k] >= Count(p.nodes[i], k)
    ensures var n := p.nodes[i];
      var m := Taken(n, w);
      var x := Made(n, p.nodes[m], w);
      Counted(p, uses, i, x, m, Recounted(uses, m, p.nodes[m], w)) && Count(x, m) == 0
  {
    var n := p.nodes[i];
    var m := Taken(n, w);
    var x, after := Made(n, p.nodes[m], w), Recounted(uses, m, p.nodes[m], w);
    assert !n.dead && x.dead == n.dead;
    forall k | 0 <= k < MAX_NODES
      ensures after[k] >= 0 && (k != m ==> after[k] >= uses[k] - Count(n, k) + Count(x, k))
    {
      assert uses[k] >= Count(n, k);
    }
  }

  lemma MadeGood(p: Ir, i: nat, w: Rewriting)
    requires i < |p.nodes| <= MAX_NODES
    requires var n := p.nodes[i];
      var m := Taken(n, w);
      && 0 <= m < i && GoodNode(p.nodes, i) && GoodNode(p.nodes, m) && Plain(n) && Plain(p.nodes[m])
      && (if w.NegSecond? || w.NegFirst? then p.nodes[m].op.FNeg? else p.nodes[m].op.FMul?)
      && (if w.NegProduct? then n.op.FNeg? else n.op.FAdd? || n.op.FSub?)
    ensures var x := Made(p.nodes[i], p.nodes[Taken(p.nodes[i], w)], w);
      Plain(x) && GoodNode(Set(p, i, x).nodes, i)
  {
    var n := p.nodes[i];
    var m := p.nodes[Taken(n, w)];
    var x := Made(n, m, w);
    InputsStay(p.nodes, i, i, n, x);
    InputsStay(p.nodes, Taken(n, w), i, m, x);
    MadeOp(n, m, w);
    assert Arity(n.op) > 0 && Arity(m.op) > 0 && (n.op.FNeg? || Arity(n.op) > 1) && (m.op.FNeg? || Arity(m.op) > 1);
    hide ValueBefore, GoodNode, Arity, Plain;
    BuildGood(p.nodes[i := x], i);
  }

  lemma MadeOp(n: Node, m: Node, w: Rewriting)
    requires Plain(n) && (n.op.FNeg? || n.op.FAdd? || n.op.FSub?)
    ensures var x := Made(n, m, w);
      Plain(x) && Arity(x.op) == if w.FmaFirst? || w.FmaSecond? then 3 else 2
  {
  }

  /** Inputs that are good at k are good at i, with another node there. */
  lemma InputsStay(nodes: seq<Node>, k: nat, i: nat, n: Node, x: Node)
    requires k <= i < |nodes| <= MAX_NODES && GoodNode(nodes, k) && n == nodes[k] && Plain(n)
    ensures ValueBefore(nodes[i := x], n.in0, i) && ValueBefore(nodes[i := x], n.in1, i) && ValueBefore(nodes[i := x], n.in2, i)
    ensures n.in0 < MAX_NODES && n.in1 < MAX_NODES && n.in2 < MAX_NODES
    ensures (Arity(n.op) > 0 ==> n.in0 >= 0) && (Arity(n.op) > 1 ==> n.in1 >= 0)
  {
  }

  lemma BuildGood(nodes: seq<Node>, i: nat)
    requires i < |nodes|
    requires var n := nodes[i];
      && Plain(n) && ValueBefore(nodes, n.in0, i) && ValueBefore(nodes, n.in1, i) && ValueBefore(nodes, n.in2, i)
      && n.in0 >= 0 && (Arity(n.op) > 1 ==> n.in1 >= 0) && (Arity(n.op) > 2 ==> n.in2 >= 0)
      && n.in1 < MAX_NODES && n.in2 < MAX_NODES
    ensures GoodNode(nodes, i)
  {
  }

  lemma Fits(p: Ir, uses: seq<int>, i: nat, w: Rewriting)
    requires Sound(p) && Covers(p, uses) && i < |p.nodes| && Applies(p, uses, i, w)
    ensures var n := p.nodes[i];
      var m := Taken(n, w);
      && 0 <= m < |p.nodes| <= MAX_NODES && Countable(p.nodes[m], w)
      && Absorbs(p, uses, i, Made(n, p.nodes[m], w), m, Recounted(uses, m, p.nodes[m], w))
  {
    TakenOnce(p, uses, i, w);
    var n := p.nodes[i];
    var m := Taken(n, w);
    assert p.nodes[m].in0 < m && p.nodes[m].in1 < m;
    assert uses[m] == 1 && Plain(n);
    hide Covers, Sound, Count, Counted, GoodNode, Made, Recounted;
    MadeCounted(p, uses, i, w);
    MadeGood(p, i, w);
  }

  lemma MadeSame(s: Machine, p: Ir, i: nat, w: Rewriting)
    requires Good(p) && i < |p.nodes| && Obeys(s, LawsOf(w))
    requires var n := p.nodes[i];
      var m := Taken(n, w);
      && PureInput(p, m)
      && (if w.NegSecond? || w.NegFirst? then p.nodes[m].op.FNeg? else p.nodes[m].op.FMul?)
      && (if w.NegProduct? then n.op.FNeg? else if w.NegFirst? then n.op.FAdd? else n.op.FAdd? || n.op.FSub?)
    ensures SameThere(s, p, i, Made(p.nodes[i], p.nodes[Taken(p.nodes[i], w)], w))
  {
    hide SameThere, SignRules, FmaRules, Good;
    match w
    case NegSecond => NegatedSame(s, p, i);
    case NegFirst => NegatedFirstSame(s, p, i);
    case NegProduct => NegatedProductSame(s, p, i);
    case FmaFirst => FusedSame(s, p, i, true);
    case FmaSecond => FusedSame(s, p, i, false);
  }

  function Rewritten(p: Ir, i: nat, w: Rewriting): Ir
    requires i < |p.nodes| && 0 <= Taken(p.nodes[i], w) < |p.nodes|
  {
    var m := Taken(p.nodes[i], w);
    Kill(Set(p, i, Made(p.nodes[i], p.nodes[m], w)), m)
  }

  /** Every rewriting keeps what a list means, under its laws. */
  lemma RewritingStep(p: Ir, uses: seq<int>, i: nat, w: Rewriting)
    requires Sound(p) && Covers(p, uses) && i < |p.nodes| && Applies(p, uses, i, w)
    ensures var m := Taken(p.nodes[i], w);
      && 0 <= m < |p.nodes| <= MAX_NODES && Countable(p.nodes[m], w)
      && Sound(Rewritten(p, i, w)) && Covers(Rewritten(p, i, w), Recounted(uses, m, p.nodes[m], w))
      && Equivalent(LawsOf(w), p, Rewritten(p, i, w))
  {
    Fits(p, uses, i, w);
    var n := p.nodes[i];
    var m := Taken(n, w);
    var x, after := Made(n, p.nodes[m], w), Recounted(uses, m, p.nodes[m], w);
    assert PureInput(p, m);
    hide Absorbs, Covers, GoodNode, PairedAt, Made, Good, Recounted;
    forall s: Machine | Obeys(s, LawsOf(w))
      ensures SameThere(s, p, i, x)
    {
      hide Obeys, SameThere;
      MadeSame(s, p, i, w);
    }
    hide SameThere, Obeys, Sound, Equivalent;
    AbsorbStep(LawsOf(w), p, uses, i, x, m, after);
  }

  // ---------------------------------------------------------------- killing what nobody uses

  function Bumped(uses: seq<int>, k: int, delta: int): seq<int>
    requires |uses| == MAX_NODES && k < MAX_NODES
  {
    if k >= 0 then uses[k := uses[k] + delta] else uses
  }

  /** All three inputs counted up or down. */
  function AllBumped(uses: seq<int>, n: Node, delta: int): seq<int>
    requires |uses| == MAX_NODES && n.in0 < MAX_NODES && n.in1 < MAX_NODES && n.in2 < MAX_NODES
  {
    Bumped(Bumped(Bumped(uses, n.in0, delta), n.in1, delta), n.in2, delta)
  }

  lemma AllBumpedIs(uses: seq<int>, n: Node, delta: int, k: int)
    requires |uses| == MAX_NODES && n.in0 < MAX_NODES && n.in1 < MAX_NODES && n.in2 < MAX_NODES && 0 <= k < MAX_NODES && !n.dead
    ensures AllBumped(uses, n, delta)[k] == uses[k] + delta * Count(n, k)
  {
    var a, b, c := One(n.in0 == k), One(n.in1 == k), One(n.in2 == k);
    assert delta * (a + b + c) == delta * a + delta * b + delta * c;
  }

  lemma Bounds(p: Ir, i: nat)
    requires Good(p) && i < |p.nodes| && !p.nodes[i].dead
    ensures p.nodes[i].in0 < MAX_NODES && p.nodes[i].in1 < MAX_NODES && p.nodes[i].in2 < MAX_NODES
  {
    assert GoodNode(p.nodes, i);
  }

  /** A value without uses is killed, and its inputs are used once less. */
  lemma KillStep(p: Ir, uses: seq<int>, i: nat)
    requires Sound(p) && Covers(p, uses) && i < |p.nodes| <= MAX_NODES && Plain(p.nodes[i]) && uses[i] == 0
    ensures var n, q := p.nodes[i], Kill(p, i);
      && n.in0 < MAX_NODES && n.in1 < MAX_NODES && n.in2 < MAX_NODES
      && Sound(q) && Covers(q, AllBumped(uses, n, -1)) && Equivalent(NONE, p, q)
  {
    var n, q := p.nodes[i], Kill(p, i);
    Bounds(p, i);
    assert Refs(p, i) == 0;
    KillGood(p, i);
    StaysPaired(p, q);
    forall s: Machine | Obeys(s, NONE)
      ensures Same(s, p, q)
    {
      hide Same, Good, Refs, Obeys;
      assert Good(p);
      KillSame(s, p, i);
    }
    KillCovers(p, uses, i);
    hide Same, Obeys, Covers, Refs;
  }

  lemma KillCovers(p: Ir, uses: seq<int>, i: nat)
    requires Covers(p, uses) && i < |p.nodes| && !p.nodes[i].dead
    requires p.nodes[i].in0 < MAX_NODES && p.nodes[i].in1 < MAX_NODES && p.nodes[i].in2 < MAX_NODES
    ensures Covers(Kill(p, i), AllBumped(uses, p.nodes[i], -1))
  {
    var n, after := p.nodes[i], AllBumped(uses, p.nodes[i], -1);
    hide Refs, Count;
    forall k | 0 <= k < MAX_NODES
      ensures after[k] >= Refs(Kill(p, i), k)
    {
      AllBumpedIs(uses, n, -1, k);
      RefsSet(p, i, n.(dead := true), k);
      DeadCount(n, k);
    }
    hide AllBumped;
  }

  // ---------------------------------------------------------------- comparisons nobody reads

  /** Between the comparisons i and j no live FNSTSW looks at the condition codes. */
  predicate Overwritten(nodes: seq<Node>, i: nat, j: nat) {
    && i < j < |nodes| && LiveCompare(nodes[j])
    && forall k :: i < k < j ==> !LiveStatus(nodes[k])
  }

  lemma {:induction false} OverwrittenRun(s: Machine, p: Ir, i: nat, j: nat, e: Env, k: nat)
    requires Overwritten(p.nodes, i, j) && LiveCompare(p.nodes[i]) && k <= |p.nodes|
    ensures var a, b := RunTo(s, p.nodes, k, e), RunTo(s, Kill(p, i).nodes, k, e);
      a.vals == b.vals && a.world == b.world && (k <= i || k > j ==> a.codes == b.codes)
  {
    hide Codes, Value;
    if k > 0 {
      OverwrittenRun(s, p, i, j, e, k - 1);
    }
  }

  lemma DeadCompareSame(s: Machine, p: Ir, i: nat, j: nat)
    requires Overwritten(p.nodes, i, j) && LiveCompare(p.nodes[i])
    ensures Same(s, p, Kill(p, i))
  {
    forall codes: Word, world: World
      ensures Meaning(s, p, codes, world) == Meaning(s, Kill(p, i), codes, world)
    {
      OverwrittenRun(s, p, i, j, Env([], codes, world), |p.nodes|);
      hide RunTo, SlotOf, Overwritten;
      assert Meaning(s, p, codes, world).slots == Meaning(s, Kill(p, i), codes, world).slots;
    }
    hide Meaning;
  }

  /** No FNSTSW is paired with an overwritten comparison, and nothing else refers to comparisons. */
  lemma DeadCompareSound(p: Ir, i: nat, j: nat)
    requires Sound(p) && Overwritten(p.nodes, i, j) && LiveCompare(p.nodes[i])
    ensures Sound(Kill(p, i))
  {
    var q := Kill(p, i);
    forall k | 0 <= k < |q.nodes|
      ensures GoodNode(q.nodes, k)
    {
      NotPaired(p, i, j, k);
      assert GoodNode(p.nodes, k);
    }
    forall k | 0 <= k < |q.nodes|
      ensures PairedAt(q.nodes, k)
    {
      NotPaired(p, i, j, k);
      assert PairedAt(p.nodes, k);
    }
    hide GoodNode, PairedAt, Overwritten;
    assert forall d :: 0 <= d < 8 ==> ValueBefore(q.nodes, p.slots[d], |p.nodes|);
  }

  lemma NotPaired(p: Ir, i: nat, j: nat, k: nat)
    requires Sound(p) && Overwritten(p.nodes, i, j) && LiveCompare(p.nodes[i]) && k < |p.nodes|
    ensures LiveStatus(p.nodes[k]) ==> p.nodes[k].in0 != i
  {
    assert PairedAt(p.nodes, k);
  }

  lemma DeadCompareStep(p: Ir, i: nat, j: nat)
    requires Sound(p) && Overwritten(p.nodes, i, j) && LiveCompare(p.nodes[i])
    ensures Sound(Kill(p, i)) && Equivalent(NONE, p, Kill(p, i))
  {
    DeadCompareSound(p, i, j);
    hide Sound, Overwritten, Same;
    forall s: Machine | Obeys(s, NONE)
      ensures Same(s, p, Kill(p, i))
    {
      hide Obeys;
      DeadCompareSame(s, p, i, j);
    }
    hide Obeys;
  }
}
