/** The rewriting passes said at once for all nodes, by the list they start from. */
module X87Parallel {
  import opened Words
  import opened X87IR
  import opened X87Uses
  import opened X87Rules
  import opened X87Optimize

  // ---------------------------------------------------------------- comparisons

  /** From i on, a comparison comes before any FNSTSW. */
  ghost predicate CompareAhead(nodes: seq<Node>, i: int) {
    exists j :: CompareAt(nodes, i, j)
  }

  predicate CompareAt(nodes: seq<Node>, i: int, j: int) {
    0 <= i <= j < |nodes| && LiveCompare(nodes[j]) && forall k :: i <= k < j ==> !LiveStatus(nodes[k])
  }

  /** A comparison whose condition codes the next one overwrites before they are read. */
  ghost predicate Overwritten(nodes: seq<Node>, i: nat)
    requires i < |nodes|
  {
    LiveCompare(nodes[i]) && CompareAhead(nodes, i + 1)
  }

  /** Exactly those of the nodes from n on are dead. */
  ghost predicate OverwrittenDead(p: seq<Node>, q: seq<Node>, n: int) {
    && |q| == |p|
    && forall k :: 0 <= k < |p| ==> q[k] == if k >= n && Overwritten(p, k) then p[k].(dead := true) else p[k]
  }

  lemma AheadStep(nodes: seq<Node>, i: nat)
    requires i < |nodes|
    ensures CompareAhead(nodes, i) <==> LiveCompare(nodes[i]) || (!LiveStatus(nodes[i]) && CompareAhead(nodes, i + 1))
  {
    if CompareAhead(nodes, i) {
      var j :| CompareAt(nodes, i, j);
      assert j > i ==> CompareAt(nodes, i + 1, j);
    }
    if LiveCompare(nodes[i]) {
      assert CompareAt(nodes, i, i);
    } else if !LiveStatus(nodes[i]) && CompareAhead(nodes, i + 1) {
      var j :| CompareAt(nodes, i + 1, j);
      assert CompareAt(nodes, i, j);
    }
  }

  lemma NothingAhead(nodes: seq<Node>)
    ensures !CompareAhead(nodes, |nodes|)
  {
  }

  // ---------------------------------------------------------------- negations and products

  datatype Choice = Leave | Rewrite(w: Rewriting)

  /** k is the product or negation `op`, and used once in the list. */
  predicate UsedOnce(p: Ir, k: int, op: Op) {
    0 <= k < |p.nodes| && p.nodes[k].op == op && !p.nodes[k].dead && Refs(p, k) == 1
  }

  /** A negated product: it becomes FNMUL, and is no negation any more. */
  predicate NegatesProduct(p: Ir, i: int) {
    0 <= i < |p.nodes| && !p.nodes[i].dead && p.nodes[i].op.FNeg? && UsedOnce(p, p.nodes[i].in0, FMul)
  }

  predicate Negation(p: Ir, k: int) {
    UsedOnce(p, k, FNeg) && !NegatesProduct(p, k)
  }

  predicate Sums(n: Node) {
    !n.dead && (n.op.FAdd? || n.op.FSub?)
  }

  /** What the pass that absorbs negations does with node i, and what the one that fuses products does. */
  function ChoiceOf(p: Ir, i: int, fma: bool): Choice
    requires 0 <= i < |p.nodes|
  {
    var n := p.nodes[i];
    if fma then
      if Sums(n) && UsedOnce(p, n.in0, FMul) then Rewrite(FmaFirst)
      else if Sums(n) && UsedOnce(p, n.in1, FMul) then Rewrite(FmaSecond)
      else Leave
    else
      if NegatesProduct(p, i) then Rewrite(NegProduct)
      else if Sums(n) && Negation(p, n.in1) then Rewrite(NegSecond)
      else if Sums(n) && n.op.FAdd? && Negation(p, n.in0) then Rewrite(NegFirst)
      else Leave
  }

  /** Node j absorbs node k. */
  predicate Absorbs(p: Ir, j: int, k: int, fma: bool) {
    0 <= j < |p.nodes| && ChoiceOf(p, j, fma).Rewrite? && Taken(p.nodes[j], ChoiceOf(p, j, fma).w) == k
  }

  predicate Absorbed(p: Ir, k: int, fma: bool, n: int) {
    exists j :: 0 <= j < n && Absorbs(p, j, k, fma)
  }

  /** Node k after the first n nodes have been looked at. */
  function NodeAfter(p: Ir, k: int, fma: bool, n: int): Node
    requires 0 <= k < |p.nodes|
  {
    var c, m := ChoiceOf(p, k, fma), p.nodes[k];
    if k < n && c.Rewrite? then
      var t := Taken(m, c.w);
      if 0 <= t < |p.nodes| then Made(m, p.nodes[t], c.w) else m
    else if Absorbed(p, k, fma, n) then m.(dead := true)
    else m
  }

  /** The list after a whole pass. */
  ghost predicate AllAtOnce(p: Ir, q: Ir, fma: bool) {
    && q.slots == p.slots && |q.nodes| == |p.nodes|
    && forall k :: 0 <= k < |p.nodes| ==> q.nodes[k] == NodeAfter(p, k, fma, |p.nodes|)
  }

  // ---------------------------------------------------------------- the loop, half way

  /** Counters are not too low for nodes still there, and too high only for inputs of absorbed nodes. */
  ghost predicate CountsHold(p: Ir, u: seq<int>, fma: bool, n: int) {
    && |u| == MAX_NODES
    && (forall k :: 0 <= k < MAX_NODES && !Absorbed(p, k, fma, n) ==> u[k] >= Refs(p, k))
    && (forall k :: 0 <= k < MAX_NODES && u[k] > Refs(p, k) ==>
          exists t :: 0 <= t < |p.nodes| && Absorbed(p, t, fma, n) && Count(p.nodes[t], k) > 0)
  }

  ghost predicate HalfWay(p: Ir, q: Ir, u: seq<int>, fma: bool, n: int) {
    && q.slots == p.slots && |q.nodes| == |p.nodes| && CountsHold(p, u, fma, n)
    && forall k :: 0 <= k < |p.nodes| ==> q.nodes[k] == NodeAfter(p, k, fma, n)
  }

  lemma TwoUsers(p: Ir, i: nat, j: nat, k: int)
    requires i < |p.nodes| && j < |p.nodes| && i != j && Count(p.nodes[i], k) > 0 && Count(p.nodes[j], k) > 0
    ensures Refs(p, k) >= 2
  {
    var dead := p.nodes[i].(dead := true);
    NodeRefsSet(p.nodes, i, dead, k);
    NodeRefsSet(p.nodes[i := dead], j, p.nodes[j], k);
  }

  /** An absorbed node is used by the one that absorbs it alone, and comes before it. */
  lemma AbsorbedOnce(p: Ir, j: int, k: int, fma: bool)
    requires Good(p) && Absorbs(p, j, k, fma)
    ensures 0 <= k < j < |p.nodes| && Count(p.nodes[j], k) > 0 && Refs(p, k) == 1 && !p.nodes[k].dead
    ensures ChoiceOf(p, k, fma).Leave?
  {
    assert GoodNode(p.nodes, j);
    hide Refs;
  }

  /** The input m of a live node i, when it is the turn of i. */
  lemma AtTurn(p: Ir, q: Ir, u: seq<int>, fma: bool, i: nat, m: int)
    requires Good(p) && i < |p.nodes| && HalfWay(p, q, u, fma, i) && !p.nodes[i].dead && 0 <= m < i && Count(p.nodes[i], m) > 0
    ensures !Absorbed(p, m, fma, i) && (u[m] == 1 <==> Refs(p, m) == 1)
    ensures q.nodes[m] == NodeAfter(p, m, fma, i) && (ChoiceOf(p, m, fma).Leave? ==> q.nodes[m] == p.nodes[m])
  {
    hide Refs, Count, ChoiceOf;
    forall j | 0 <= j < i && Absorbs(p, j, m, fma)
      ensures false
    {
      AbsorbedOnce(p, j, m, fma);
      TwoUsers(p, i, j, m);
    }
    if u[m] > Refs(p, m) {
      var t :| 0 <= t < |p.nodes| && Absorbed(p, t, fma, i) && Count(p.nodes[t], m) > 0;
      var j :| 0 <= j < i && Absorbs(p, j, t, fma);
      AbsorbedOnce(p, j, t, fma);
      TwoUsers(p, i, t, m);
    }
    UsedBy(p, i, m);
  }

  lemma UsedBy(p: Ir, i: nat, m: int)
    requires i < |p.nodes| && Count(p.nodes[i], m) > 0
    ensures Refs(p, m) >= 1
  {
    NodeRefsSet(p.nodes, i, p.nodes[i], m);
  }

  lemma Untouched(p: Ir, q: Ir, u: seq<int>, fma: bool, i: nat)
    requires Good(p) && i < |p.nodes| && HalfWay(p, q, u, fma, i)
    ensures q.nodes[i] == p.nodes[i] && !Absorbed(p, i, fma, i)
  {
    hide Refs, ChoiceOf;
    forall j | 0 <= j < i && Absorbs(p, j, i, fma)
      ensures false
    {
      AbsorbedOnce(p, j, i, fma);
    }
  }

  /** What a rewritten node is not. */
  lemma MadeOps(p: Ir, k: int, fma: bool)
    requires Good(p) && 0 <= k < |p.nodes| && ChoiceOf(p, k, fma).Rewrite?
    ensures var w := ChoiceOf(p, k, fma).w; var t := Taken(p.nodes[k], w);
      && 0 <= t < k && !p.nodes[k].op.FMul? && !p.nodes[k].dead
      && !Made(p.nodes[k], p.nodes[t], w).op.FMul? && !Made(p.nodes[k], p.nodes[t], w).op.FNeg?
      && (p.nodes[k].op.FNeg? ==> NegatesProduct(p, k))
  {
    assert GoodNode(p.nodes, k);
    hide Refs;
  }

  lemma ProductAtTurn(p: Ir, q: Ir, u: seq<int>, fma: bool, i: nat, m: int)
    requires Good(p) && i < |p.nodes| && HalfWay(p, q, u, fma, i) && !p.nodes[i].dead && 0 <= m < i && Count(p.nodes[i], m) > 0
    ensures SingleUse(q, u, m, FMul) <==> UsedOnce(p, m, FMul)
  {
    AtTurn(p, q, u, fma, i, m);
    if ChoiceOf(p, m, fma).Rewrite? { MadeOps(p, m, fma); }
    hide Refs, Count, ChoiceOf, CountsHold, Made, NegatesProduct;
  }

  lemma NegationAtTurn(p: Ir, q: Ir, u: seq<int>, i: nat, m: int)
    requires Good(p) && i < |p.nodes| && HalfWay(p, q, u, false, i) && !p.nodes[i].dead && 0 <= m < i && Count(p.nodes[i], m) > 0
    ensures SingleUse(q, u, m, FNeg) <==> Negation(p, m)
  {
    AtTurn(p, q, u, false, i, m);
    NegationLeft(p, m);
    if ChoiceOf(p, m, false).Rewrite? { MadeOps(p, m, false); }
    hide Refs, Count, ChoiceOf, CountsHold, Made, NegatesProduct;
  }

  lemma NegationLeft(p: Ir, m: int)
    requires 0 <= m < |p.nodes|
    ensures NegatesProduct(p, m) ==> ChoiceOf(p, m, false).Rewrite?
  {
  }

  /** The inputs of a sum or of a negation. */
  lemma InputsOf(p: Ir, i: nat)
    requires Good(p) && i < |p.nodes| && !p.nodes[i].dead
    ensures Sums(p.nodes[i]) || p.nodes[i].op.FNeg? ==> 0 <= p.nodes[i].in0 < i <= MAX_NODES && Count(p.nodes[i], p.nodes[i].in0) > 0
    ensures Sums(p.nodes[i]) ==> 0 <= p.nodes[i].in1 < i && Count(p.nodes[i], p.nodes[i].in1) > 0
  {
    assert GoodNode(p.nodes, i);
  }

  /** What the loop does with node i is what was said. */
  lemma FmaTurn(p: Ir, q: Ir, u: seq<int>, i: nat)
    requires Good(p) && i < |p.nodes| && HalfWay(p, q, u, true, i)
    ensures ChoiceOf(p, i, true) ==
      if Applies(q, u, i, FmaFirst) then Rewrite(FmaFirst) else if Applies(q, u, i, FmaSecond) then Rewrite(FmaSecond) else Leave
  {
    var n := p.nodes[i];
    Untouched(p, q, u, true, i);
    if Sums(n) {
      InputsOf(p, i);
      ProductAtTurn(p, q, u, true, i, n.in0);
      ProductAtTurn(p, q, u, true, i, n.in1);
    }
    hide HalfWay, SingleUse, UsedOnce, Count;
  }

  lemma NegTurn(p: Ir, q: Ir, u: seq<int>, i: nat)
    requires Good(p) && i < |p.nodes| && HalfWay(p, q, u, false, i)
    ensures ChoiceOf(p, i, false) ==
      if Applies(q, u, i, NegProduct) then Rewrite(NegProduct) else if Applies(q, u, i, NegSecond) then Rewrite(NegSecond)
      else if Applies(q, u, i, NegFirst) then Rewrite(NegFirst) else Leave
  {
    var n := p.nodes[i];
    Untouched(p, q, u, false, i);
    if Sums(n) {
      InputsOf(p, i);
      NegationAtTurn(p, q, u, i, n.in0);
      NegationAtTurn(p, q, u, i, n.in1);
    } else if !n.dead && n.op.FNeg? {
      InputsOf(p, i);
      ProductAtTurn(p, q, u, false, i, n.in0);
    }
    hide HalfWay, SingleUse, UsedOnce, Count, Negation;
  }

  lemma AbsorbedNext(p: Ir, k: int, fma: bool, i: nat)
    ensures Absorbed(p, k, fma, i + 1) <==> Absorbed(p, k, fma, i) || Absorbs(p, i, k, fma)
  {
    hide Absorbs;
  }

  lemma LeaveStep(p: Ir, q: Ir, u: seq<int>, fma: bool, i: nat)
    requires Good(p) && i < |p.nodes| && HalfWay(p, q, u, fma, i) && ChoiceOf(p, i, fma).Leave?
    ensures HalfWay(p, q, u, fma, i + 1)
  {
    hide ChoiceOf, Refs, Count, Made;
    var n := i + 1;
    forall k: int
      ensures Absorbed(p, k, fma, n) == Absorbed(p, k, fma, i)
    {
      AbsorbedNext(p, k, fma, i);
    }
    hide Absorbed;
  }

  /** The node absorbed at the turn of i is still as it was. */
  lemma StillThere(p: Ir, q: Ir, u: seq<int>, fma: bool, i: nat, t: int)
    requires Good(p) && i < |p.nodes| && HalfWay(p, q, u, fma, i) && Absorbs(p, i, t, fma)
    ensures 0 <= t < i && q.nodes[t] == p.nodes[t] && !p.nodes[t].dead && Countable(p.nodes[t], ChoiceOf(p, i, fma).w)
  {
    AbsorbedOnce(p, i, t, fma);
    AbsorbingIsLive(p, i, t, fma);
    AtTurn(p, q, u, fma, i, t);
    hide HalfWay, ChoiceOf;
  }

  lemma AbsorbingIsLive(p: Ir, i: int, t: int, fma: bool)
    requires Good(p) && Absorbs(p, i, t, fma)
    ensures !p.nodes[i].dead && 0 <= t < |p.nodes| && Countable(p.nodes[t], ChoiceOf(p, i, fma).w)
  {
    assert GoodNode(p.nodes, i);
    if 0 <= t < |p.nodes| { assert GoodNode(p.nodes, t); }
    hide Refs;
  }

  lemma CountsStep(p: Ir, u: seq<int>, fma: bool, i: nat, t: int, w: Rewriting)
    requires Good(p) && i < |p.nodes| && CountsHold(p, u, fma, i) && Absorbs(p, i, t, fma) && w == ChoiceOf(p, i, fma).w
    requires 0 <= t < |p.nodes| && Countable(p.nodes[t], w) && !p.nodes[t].dead
    ensures t < MAX_NODES && CountsHold(p, Recounted(u, t, p.nodes[t], w), fma, i + 1)
  {
    hide ChoiceOf, Refs, Absorbs;
    var n := i + 1;
    var v := Recounted(u, t, p.nodes[t], w);
    forall k: int
      ensures Absorbed(p, k, fma, n) <==> Absorbed(p, k, fma, i) || Absorbs(p, i, k, fma)
    {
      AbsorbedNext(p, k, fma, i);
    }
    hide Absorbed;
    forall k | 0 <= k < MAX_NODES
      ensures k != t ==> u[k] <= v[k]
      ensures v[k] > u[k] ==> k == t || Count(p.nodes[t], k) > 0
    {
    }
    hide Recounted, Count;
    assert Absorbed(p, t, fma, n);
    forall k | 0 <= k < MAX_NODES && v[k] > Refs(p, k)
      ensures exists s :: 0 <= s < |p.nodes| && Absorbed(p, s, fma, n) && Count(p.nodes[s], k) > 0
    {
    }
  }

  lemma RewriteStep(p: Ir, q: Ir, u: seq<int>, fma: bool, i: nat, w: Rewriting)
    requires Good(p) && i < |p.nodes| && HalfWay(p, q, u, fma, i) && ChoiceOf(p, i, fma) == Rewrite(w)
    ensures var t := Taken(p.nodes[i], w);
      && q.nodes[i] == p.nodes[i] && 0 <= t < |q.nodes| && t < MAX_NODES && Countable(q.nodes[t], w)
      && HalfWay(p, Rewritten(q, i, w), Recounted(u, t, q.nodes[t], w), fma, i + 1)
  {
    var t, n := Taken(p.nodes[i], w), i + 1;
    assert Absorbs(p, i, t, fma);
    Untouched(p, q, u, fma, i);
    StillThere(p, q, u, fma, i, t);
    CountsStep(p, u, fma, i, t, w);
    AbsorbedOnce(p, i, t, fma);
    var r := Rewritten(q, i, w);
    assert forall k :: 0 <= k < |p.nodes| ==> r.nodes[k] == if k == t then p.nodes[t].(dead := true) else if k == i then Made(p.nodes[i], p.nodes[t], w) else q.nodes[k];
    hide ChoiceOf, Refs, Count, Made, Taken, CountsHold, Rewritten, Recounted, Countable;
    forall k | 0 <= k < |p.nodes|
      ensures r.nodes[k] == NodeAfter(p, k, fma, n)
    {
      AbsorbedNext(p, k, fma, i);
      OnlyAbsorbs(p, i, k, t, fma);
      hide Absorbed;
    }
  }

  lemma OnlyAbsorbs(p: Ir, i: int, k: int, t: int, fma: bool)
    requires Absorbs(p, i, t, fma)
    ensures Absorbs(p, i, k, fma) <==> k == t
  {
    hide ChoiceOf, Taken;
  }

  lemma AtStart(p: Ir, u: seq<int>, fma: bool)
    requires |u| == MAX_NODES && forall k :: 0 <= k < MAX_NODES ==> u[k] == Refs(p, k)
    ensures HalfWay(p, p, u, fma, 0)
  {
    hide ChoiceOf, Refs;
  }

  lemma AtEnd(p: Ir, q: Ir, u: seq<int>, fma: bool)
    requires HalfWay(p, q, u, fma, |p.nodes|)
    ensures AllAtOnce(p, q, fma)
  {
    hide NodeAfter, CountsHold;
  }

  // ---------------------------------------------------------------- one turn

  /** The list and its counters before and after a choice is carried out at i. */
  predicate Did(p: Ir, u: seq<int>, q: Ir, v: seq<int>, i: nat, c: Choice)
    requires |u| == MAX_NODES && i < |p.nodes|
  {
    match c
    case Leave => q == p && v == u
    case Rewrite(w) =>
      var t := Taken(p.nodes[i], w);
      && 0 <= t < |p.nodes| && t < MAX_NODES && Countable(p.nodes[t], w)
      && q == Rewritten(p, i, w) && v == Recounted(u, t, p.nodes[t], w)
  }

  /** The choice of the loop, by the list and the counters as they are at the turn of i. */
  function FmaChoice(p: Ir, u: seq<int>, i: nat): Choice
    requires |u| == MAX_NODES && i < |p.nodes|
  {
    if Applies(p, u, i, FmaFirst) then Rewrite(FmaFirst) else if Applies(p, u, i, FmaSecond) then Rewrite(FmaSecond) else Leave
  }

  function NegChoice(p: Ir, u: seq<int>, i: nat): Choice
    requires |u| == MAX_NODES && i < |p.nodes|
  {
    if Applies(p, u, i, NegProduct) then Rewrite(NegProduct) else if Applies(p, u, i, NegSecond) then Rewrite(NegSecond)
    else if Applies(p, u, i, NegFirst) then Rewrite(NegFirst) else Leave
  }

  lemma Turn(p: Ir, q: Ir, u: seq<int>, r: Ir, v: seq<int>, fma: bool, i: nat)
    requires Good(p) && i < |p.nodes| && HalfWay(p, q, u, fma, i)
    requires Did(q, u, r, v, i, if fma then FmaChoice(q, u, i) else NegChoice(q, u, i))
    ensures HalfWay(p, r, v, fma, i + 1)
  {
    if fma { FmaTurn(p, q, u, i); } else { NegTurn(p, q, u, i); }
    hide HalfWay, ChoiceOf, Applies, Countable, Taken, Rewritten, Recounted;
    match ChoiceOf(p, i, fma)
    case Leave => LeaveStep(p, q, u, fma, i);
    case Rewrite(w) => RewriteStep(p, q, u, fma, i, w);
  }
}
