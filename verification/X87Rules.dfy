/** The laws of arithmetic that the passes rely on, and what each licenses. */
module X87Rules {
  import opened Words
  import X87Model
  import opened X87IR
  import opened X87Uses

  const MINUS_ZERO: Word := 0x8000_0000_0000_0000

  predicate PowerOfTwo(b: Word) {
    b % 0x10_0000_0000_0000 == 0 && 1 <= (b / 0x10_0000_0000_0000) % 0x800 <= 2045
  }

  /** Sign kept, exponent 2046 minus the old one. */
  function Reciprocal(b: Word): Word
    requires PowerOfTwo(b)
  {
    var sign, exp := b / MINUS_ZERO, (b / 0x10_0000_0000_0000) % 0x800;
    sign * MINUS_ZERO + (2046 - exp) * 0x10_0000_0000_0000
  }

  /** x * 1, 1 * x, x / 1, x - 0 and x + -0 are x; dividing by a power of two is multiplying by its reciprocal. */
  ghost predicate ConstRules(s: Machine) {
    && (forall x: Word ::
          && s.binary(FMul, x, X87Model.POSITIVE_ONE) == x && s.binary(FMul, X87Model.POSITIVE_ONE, x) == x
          && s.binary(FDiv, x, X87Model.POSITIVE_ONE) == x
          && s.binary(FSub, x, X87Model.POSITIVE_ZERO) == x && s.binary(FAdd, x, MINUS_ZERO) == x)
    && (forall x: Word, b: Word :: PowerOfTwo(b) ==> s.binary(FDiv, x, b) == s.binary(FMul, x, Reciprocal(b)))
    && (forall x: Word :: s.compare(x, X87Model.POSITIVE_ZERO) == s.test(x) && s.compare(x, MINUS_ZERO) == s.test(x))
  }

  /** Adding a negated value subtracts it; FNMUL negates the product. */
  ghost predicate SignRules(s: Machine) {
    forall x: Word, y: Word ::
      && s.binary(FAdd, x, s.unary(FNeg, y)) == s.binary(FSub, x, y)
      && s.binary(FAdd, s.unary(FNeg, x), y) == s.binary(FSub, y, x)
      && s.binary(FSub, x, s.unary(FNeg, y)) == s.binary(FAdd, x, y)
      && s.unary(FNeg, s.binary(FMul, x, y)) == s.binary(FNMul, x, y)
  }

  /** The fused operations are the two they replace. */
  ghost predicate FmaRules(s: Machine) {
    forall a: Word, b: Word, c: Word ::
      && s.binary(FAdd, s.binary(FMul, a, b), c) == s.fma(FMAdd, a, b, c)
      && s.binary(FAdd, c, s.binary(FMul, a, b)) == s.fma(FMAdd, a, b, c)
      && s.binary(FSub, s.binary(FMul, a, b), c) == s.fma(FNMSub, a, b, c)
      && s.binary(FSub, c, s.binary(FMul, a, b)) == s.fma(FMSub, a, b, c)
  }

  datatype Laws = Laws(constants: bool, signs: bool, fma: bool)

  ghost predicate Obeys(s: Machine, l: Laws) {
    (l.constants ==> ConstRules(s)) && (l.signs ==> SignRules(s)) && (l.fma ==> FmaRules(s))
  }

  const NONE := Laws(false, false, false)

  /** Under the laws, p and q leave the same stack, condition codes and world. */
  ghost predicate Equivalent(l: Laws, p: Ir, q: Ir) {
    forall s: Machine :: Obeys(s, l) ==> Same(s, p, q)
  }

  function Both(l: Laws, m: Laws): Laws {
    Laws(l.constants || m.constants, l.signs || m.signs, l.fma || m.fma)
  }

  lemma EquivalentTrans(l: Laws, m: Laws, p: Ir, q: Ir, r: Ir)
    requires Equivalent(l, p, q) && Equivalent(m, q, r)
    ensures Equivalent(Both(l, m), p, r)
  {
    forall s: Machine | Obeys(s, Both(l, m))
      ensures Same(s, p, r)
    {
      assert Obeys(s, l) && Obeys(s, m);
      hide Same, Obeys;
      SameTrans(s, p, q, r);
    }
    hide Same;
  }

  // ---------------------------------------------------------------- one rewriting

  predicate Plain(n: Node) {
    !n.dead && !IsEffect(n.op)
  }

  /** Node n has the value of node i, in whatever world. */
  ghost predicate SameThere(s: Machine, p: Ir, i: nat, n: Node)
    requires i < |p.nodes|
  {
    forall codes: Word, world: World, w: World ::
      var v := Vals(s, p.nodes, Env([], codes, world));
      Value(s, n, v, w) == Value(s, p.nodes[i], v, w)
  }

  lemma SameFollows(s: Machine, p: Ir, i: nat, n: Node)
    requires Good(p) && i < |p.nodes| && Plain(p.nodes[i]) && Plain(n) && SameThere(s, p, i, n)
    ensures FollowsAt(s, p, i, n)
  {
    forall codes: Word, world: World
      ensures var e := Env([], codes, world); i < |Vals(s, p.nodes, e)| && Follows(s, p.nodes[i], n, Vals(s, p.nodes, e), i, RunTo(s, p.nodes, i, e))
    {
      var e := Env([], codes, world);
      assert GoodNode(p.nodes, i);
      ValueIs(s, p.nodes, e, i);
      hide Value, RunTo, GoodNode, In;
    }
    hide Follows, Vals, RunTo, SameThere, Good;
  }

  predicate PureInput(p: Ir, m: int) {
    0 <= m < |p.nodes| && !p.nodes[m].dead && (IsUnary(p.nodes[m].op) || IsBinary(p.nodes[m].op) || IsConst(p.nodes[m].op))
  }

  /** FADD or FSUB of a negated value. */
  function Negated(n: Node, neg: Node): Node {
    n.(op := if n.op.FAdd? then FSub else FAdd, in1 := neg.in0)
  }

  function NegatedFirst(n: Node, neg: Node): Node {
    n.(op := FSub, in0 := n.in1, in1 := neg.in0)
  }

  function NegatedProduct(n: Node, mul: Node): Node {
    n.(op := FNMul, in0 := mul.in0, in1 := mul.in1)
  }

  /** FMADD and its like, with the product at input j. */
  function FusedNode(n: Node, mul: Node, first: bool): Node {
    n.(op := if n.op.FAdd? then FMAdd else if first then FNMSub else FMSub,
       in0 := mul.in0, in1 := mul.in1, in2 := if first then n.in1 else n.in0)
  }

  lemma NegatedSame(s: Machine, p: Ir, i: nat)
    requires SignRules(s) && Good(p) && i < |p.nodes| && (p.nodes[i].op.FAdd? || p.nodes[i].op.FSub?)
    requires PureInput(p, p.nodes[i].in1) && p.nodes[p.nodes[i].in1].op.FNeg?
    ensures SameThere(s, p, i, Negated(p.nodes[i], p.nodes[p.nodes[i].in1]))
  {
    var n := p.nodes[i];
    forall codes: Word, world: World, w: World
      ensures var v := Vals(s, p.nodes, Env([], codes, world)); Value(s, Negated(n, p.nodes[n.in1]), v, w) == Value(s, n, v, w)
    {
      InputIs(s, p, n.in1, Env([], codes, world), w);
      hide Vals, In, Good;
    }
    hide Value, Vals, Good, SignRules;
  }

  lemma NegatedFirstSame(s: Machine, p: Ir, i: nat)
    requires SignRules(s) && Good(p) && i < |p.nodes| && p.nodes[i].op.FAdd?
    requires PureInput(p, p.nodes[i].in0) && p.nodes[p.nodes[i].in0].op.FNeg?
    ensures SameThere(s, p, i, NegatedFirst(p.nodes[i], p.nodes[p.nodes[i].in0]))
  {
    var n := p.nodes[i];
    forall codes: Word, world: World, w: World
      ensures var v := Vals(s, p.nodes, Env([], codes, world)); Value(s, NegatedFirst(n, p.nodes[n.in0]), v, w) == Value(s, n, v, w)
    {
      InputIs(s, p, n.in0, Env([], codes, world), w);
      hide Vals, In, Good;
    }
    hide Value, Vals, Good, SignRules;
  }

  lemma NegatedProductSame(s: Machine, p: Ir, i: nat)
    requires SignRules(s) && Good(p) && i < |p.nodes| && p.nodes[i].op.FNeg?
    requires PureInput(p, p.nodes[i].in0) && p.nodes[p.nodes[i].in0].op.FMul?
    ensures SameThere(s, p, i, NegatedProduct(p.nodes[i], p.nodes[p.nodes[i].in0]))
  {
    var n := p.nodes[i];
    forall codes: Word, world: World, w: World
      ensures var v := Vals(s, p.nodes, Env([], codes, world)); Value(s, NegatedProduct(n, p.nodes[n.in0]), v, w) == Value(s, n, v, w)
    {
      InputIs(s, p, n.in0, Env([], codes, world), w);
      hide Vals, In, Good;
    }
    hide Value, Vals, Good, SignRules;
  }

  lemma FusedSame(s: Machine, p: Ir, i: nat, first: bool)
    requires FmaRules(s) && Good(p) && i < |p.nodes| && (p.nodes[i].op.FAdd? || p.nodes[i].op.FSub?)
    requires var m := if first then p.nodes[i].in0 else p.nodes[i].in1; PureInput(p, m) && p.nodes[m].op.FMul?
    ensures var m := if first then p.nodes[i].in0 else p.nodes[i].in1;
      SameThere(s, p, i, FusedNode(p.nodes[i], p.nodes[m], first))
  {
    var n := p.nodes[i];
    var m := if first then n.in0 else n.in1;
    forall codes: Word, world: World, w: World
      ensures var v := Vals(s, p.nodes, Env([], codes, world)); Value(s, FusedNode(n, p.nodes[m], first), v, w) == Value(s, n, v, w)
    {
      InputIs(s, p, m, Env([], codes, world), w);
      hide Vals, In, Good;
    }
    hide Value, Vals, Good, FmaRules;
  }
}
