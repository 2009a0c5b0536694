/** The steps the passes are made of, and the use counts that license them. */
module X87Uses {
  import opened Words
  import opened X87IR

  // ---------------------------------------------------------------- the steps

  function Set(p: Ir, i: nat, n: Node): Ir
    requires i < |p.nodes|
  {
    p.(nodes := p.nodes[i := n])
  }

  function Kill(p: Ir, i: nat): Ir
    requires i < |p.nodes|
  {
    Set(p, i, p.nodes[i].(dead := true))
  }

  function Replaced(x: int, i: int, keep: int): int {
    if x == i then keep else x
  }

  /** Every input i of a live node becomes keep. */
  function RenamedNode(n: Node, i: int, keep: int): Node {
    if n.dead then n
    else n.(in0 := Replaced(n.in0, i, keep), in1 := Replaced(n.in1, i, keep), in2 := Replaced(n.in2, i, keep))
  }

  function RenamedNodes(nodes: seq<Node>, i: int, keep: int): seq<Node> {
    seq(|nodes|, k requires 0 <= k < |nodes| => RenamedNode(nodes[k], i, keep))
  }

  function RenamedSlots(slots: seq<int>, i: int, keep: int): seq<int> {
    seq(|slots|, d requires 0 <= d < |slots| => Replaced(slots[d], i, keep))
  }

  function Renamed(p: Ir, i: int, keep: int): Ir {
    Ir(RenamedNodes(p.nodes, i, keep), RenamedSlots(p.slots, i, keep))
  }

  // ---------------------------------------------------------------- counting uses

  function One(b: bool): nat { if b then 1 else 0 }

  /** How often a node refers to k; FNSTSW's register and stack offset are counted as if they were nodes. */
  function Count(n: Node, k: int): nat {
    if n.dead then 0 else One(n.in0 == k) + One(n.in1 == k) + One(n.in2 == k)
  }

  function NodeRefs(nodes: seq<Node>, k: int): nat {
    if nodes == [] then 0 else NodeRefs(nodes[..|nodes| - 1], k) + Count(nodes[|nodes| - 1], k)
  }

  function SlotRefs(slots: seq<int>, k: int): nat {
    if slots == [] then 0 else SlotRefs(slots[..|slots| - 1], k) + One(slots[|slots| - 1] == k)
  }

  function Refs(p: Ir, k: int): nat {
    NodeRefs(p.nodes, k) + SlotRefs(p.slots, k)
  }

  /** The counters never show less than there is. */
  ghost predicate Covers(p: Ir, uses: seq<int>) {
    |uses| == MAX_NODES && forall k :: 0 <= k < MAX_NODES ==> uses[k] >= Refs(p, k)
  }

  /** What goes in and out of use when node i is replaced. */
  lemma {:induction false} NodeRefsSet(nodes: seq<Node>, i: nat, n: Node, k: int)
    requires i < |nodes|
    ensures NodeRefs(nodes[i := n], k) == NodeRefs(nodes, k) - Count(nodes[i], k) + Count(n, k)
    ensures NodeRefs(nodes, k) >= Count(nodes[i], k)
    decreases |nodes|
  {
    hide Count;
    var m := |nodes| - 1;
    if i == m {
      assert nodes[i := n][..m] == nodes[..m];
    } else {
      assert nodes[i := n][..m] == nodes[..m][i := n];
      NodeRefsSet(nodes[..m], i, n, k);
    }
  }

  lemma RefsSet(p: Ir, i: nat, n: Node, k: int)
    requires i < |p.nodes|
    ensures Refs(Set(p, i, n), k) == Refs(p, k) - Count(p.nodes[i], k) + Count(n, k)
  {
    hide Count;
    NodeRefsSet(p.nodes, i, n, k);
  }

  lemma {:induction false} SlotRefsNone(slots: seq<int>, k: int)
    requires SlotRefs(slots, k) == 0
    ensures k !in slots
  {
    if slots != [] {
      var m := |slots| - 1;
      SlotRefsNone(slots[..m], k);
      assert slots == slots[..m] + [slots[m]];
    }
  }

  /** A node without uses is nobody's input. */
  lemma Unused(p: Ir, k: int, j: nat)
    requires Refs(p, k) == 0 && j < |p.nodes|
    ensures Count(p.nodes[j], k) == 0
    ensures forall d :: 0 <= d < |p.slots| ==> p.slots[d] != k
  {
    hide Count;
    NodeRefsSet(p.nodes, j, p.nodes[j], k);
    SlotRefsNone(p.slots, k);
  }

  lemma {:induction false} NodeRefsRenamed(nodes: seq<Node>, i: int, keep: int, k: int)
    requires i != keep
    ensures NodeRefs(RenamedNodes(nodes, i, keep), k) ==
      (if k == i then 0 else if k == keep then NodeRefs(nodes, keep) + NodeRefs(nodes, i) else NodeRefs(nodes, k))
    decreases |nodes|
  {
    var r := RenamedNodes(nodes, i, keep);
    if nodes != [] {
      var m := |nodes| - 1;
      assert r[..m] == RenamedNodes(nodes[..m], i, keep);
      NodeRefsRenamed(nodes[..m], i, keep, k);
      CountRenamed(nodes[m], i, keep, k);
      hide Count, RenamedNode;
    }
  }

  lemma CountRenamed(n: Node, i: int, keep: int, k: int)
    requires i != keep
    ensures Count(RenamedNode(n, i, keep), k) ==
      (if k == i then 0 else if k == keep then Count(n, keep) + Count(n, i) else Count(n, k))
  {
  }

  lemma {:induction false} SlotRefsRenamed(slots: seq<int>, i: int, keep: int, k: int)
    requires i != keep
    ensures SlotRefs(RenamedSlots(slots, i, keep), k) ==
      (if k == i then 0 else if k == keep then SlotRefs(slots, keep) + SlotRefs(slots, i) else SlotRefs(slots, k))
    decreases |slots|
  {
    var r := RenamedSlots(slots, i, keep);
    if slots != [] {
      var m := |slots| - 1;
      assert r[..m] == RenamedSlots(slots[..m], i, keep);
      SlotRefsRenamed(slots[..m], i, keep, k);
    }
  }

  lemma RefsRenamed(p: Ir, i: int, keep: int, k: int)
    requires i != keep
    ensures Refs(Renamed(p, i, keep), k) ==
      (if k == i then 0 else if k == keep then Refs(p, keep) + Refs(p, i) else Refs(p, k))
  {
    NodeRefsRenamed(p.nodes, i, keep, k);
    SlotRefsRenamed(p.slots, i, keep, k);
  }

  // ---------------------------------------------------------------- killing a value nobody uses

  lemma KillGood(p: Ir, i: nat)
    requires Good(p) && i < |p.nodes| && Refs(p, i) == 0
    ensures Good(Kill(p, i))
  {
    var q := Kill(p, i);
    forall k | 0 <= k < |q.nodes|
      ensures GoodNode(q.nodes, k)
    {
      Unused(p, i, k);
      assert GoodNode(p.nodes, k);
      hide Refs;
    }
    hide GoodNode;
    if |p.nodes| > 0 {
      Unused(p, i, 0);
    }
  }

  lemma KillSame(s: Machine, p: Ir, i: nat)
    requires Good(p) && i < |p.nodes| && Refs(p, i) == 0 && !IsEffect(p.nodes[i].op)
    ensures Same(s, p, Kill(p, i))
  {
    KillGood(p, i);
    forall codes: Word, world: World
      ensures Meaning(s, p, codes, world) == Meaning(s, Kill(p, i), codes, world)
    {
      var e := Env([], codes, world);
      KillFollows(s, p, i, e);
      ValsGrow(s, p.nodes, e, 0, |p.nodes|);
      hide Follows, RunTo, Good, Meaning, Refs;
      assert |p.slots| == 8;
      MeaningFollows(s, p, Kill(p, i), Vals(s, p.nodes, e), codes, world);
    }
    hide Meaning;
  }

  lemma KillFollows(s: Machine, p: Ir, i: nat, e: Env)
    requires Good(p) && i < |p.nodes| && !IsEffect(p.nodes[i].op) && e.vals == []
    ensures var q, v := Kill(p, i), Vals(s, p.nodes, e);
      |v| == |p.nodes| && forall j :: 0 <= j < |v| ==> Follows(s, p.nodes[j], q.nodes[j], v, j, RunTo(s, p.nodes, j, e))
  {
    var q, v := Kill(p, i), Vals(s, p.nodes, e);
    ValsGrow(s, p.nodes, e, 0, |p.nodes|);
    forall j | 0 <= j < |v|
      ensures Follows(s, p.nodes[j], q.nodes[j], v, j, RunTo(s, p.nodes, j, e))
    {
      assert GoodNode(p.nodes, j);
      SelfFollows(s, p.nodes, e, j);
    }
    hide Follows, RunTo;
  }

  // ---------------------------------------------------------------- changing one node

  lemma SetGood(p: Ir, i: nat, n: Node)
    requires Good(p) && i < |p.nodes| && GoodNode(Set(p, i, n).nodes, i)
    requires n.dead == p.nodes[i].dead && IsEffect(n.op) == IsEffect(p.nodes[i].op)
    ensures Good(Set(p, i, n))
  {
    var q := Set(p, i, n);
    forall k | 0 <= k < |q.nodes|
      ensures GoodNode(q.nodes, k)
    {
      assert GoodNode(p.nodes, k);
    }
    hide GoodNode;
  }

  /** Whatever the run starts from, n does at i what the node there does. */
  ghost predicate FollowsAt(s: Machine, p: Ir, i: nat, n: Node)
    requires i < |p.nodes|
  {
    forall codes: Word, world: World ::
      var e := Env([], codes, world);
      i < |Vals(s, p.nodes, e)| && Follows(s, p.nodes[i], n, Vals(s, p.nodes, e), i, RunTo(s, p.nodes, i, e))
  }

  lemma SetSame(s: Machine, p: Ir, i: nat, n: Node)
    requires Good(p) && i < |p.nodes| && Good(Set(p, i, n)) && FollowsAt(s, p, i, n)
    ensures Same(s, p, Set(p, i, n))
  {
    var q := Set(p, i, n);
    forall codes: Word, world: World
      ensures Meaning(s, p, codes, world) == Meaning(s, q, codes, world)
    {
      var e := Env([], codes, world);
      var v := Vals(s, p.nodes, e);
      ValsGrow(s, p.nodes, e, 0, |p.nodes|);
      forall j | 0 <= j < |v|
        ensures Follows(s, p.nodes[j], q.nodes[j], v, j, RunTo(s, p.nodes, j, e))
      {
        assert GoodNode(p.nodes, j);
        SelfFollows(s, p.nodes, e, j);
      }
      hide Follows, RunTo, Good, Meaning, FollowsAt;
      assert |p.slots| == 8;
      MeaningFollows(s, p, q, v, codes, world);
    }
    hide Meaning;
  }

  /** Replacing node i by n, which computes its value from what goes into m, m's only user being i. */
  lemma AbsorbSame(s: Machine, p: Ir, i: nat, n: Node, m: nat)
    requires Good(p) && m < i < |p.nodes| && Good(Set(p, i, n)) && FollowsAt(s, p, i, n)
    requires !IsEffect(p.nodes[m].op) && Refs(p, m) == 1 && Count(p.nodes[i], m) > 0 && Count(n, m) == 0
    ensures var q := Kill(Set(p, i, n), m); Good(q) && Same(s, p, q)
  {
    var q := Set(p, i, n);
    RefsSet(p, i, n, m);
    SetSame(s, p, i, n);
    hide Refs, FollowsAt, Count;
    KillGood(q, m);
    KillSame(s, q, m);
    SameTrans(s, p, q, Kill(q, m));
  }

  /** The value of an input that depends on nothing but its own inputs. */
  lemma InputIs(s: Machine, p: Ir, m: nat, e: Env, world: World)
    requires Good(p) && m < |p.nodes| && !p.nodes[m].dead && e.vals == []
    requires var op := p.nodes[m].op; IsUnary(op) || IsBinary(op) || IsConst(op)
    ensures var v := Vals(s, p.nodes, e);
      |v| == |p.nodes| && In(v, m) == Value(s, p.nodes[m], v, world)
  {
    assert GoodNode(p.nodes, m);
    ValueIs(s, p.nodes, e, m);
    hide GoodNode, Vals, RunTo;
  }

  // ---------------------------------------------------------------- changing one name everywhere

  /** Some live FNSTSW holds the number i in place of a node. */
  predicate NamedByStatus(nodes: seq<Node>, i: int) {
    exists k :: 0 <= k < |nodes| && !nodes[k].dead && nodes[k].op.FStsw? && (nodes[k].in1 == i || nodes[k].in2 == i)
  }

  lemma RenamedGood(p: Ir, i: int, keep: int)
    requires Good(p) && 0 <= keep < i < |p.nodes| && !p.nodes[keep].dead && !IsEffect(p.nodes[keep].op)
    ensures Good(Renamed(p, i, keep))
  {
    var q := Renamed(p, i, keep);
    forall k | 0 <= k < |q.nodes|
      ensures GoodNode(q.nodes, k)
    {
      assert GoodNode(p.nodes, k);
    }
    hide GoodNode;
  }

  lemma NameFollows(s: Machine, p: Ir, i: int, keep: int, e: Env, j: nat)
    requires Good(p) && 0 <= keep < i < |p.nodes| && j < |p.nodes| && e.vals == [] && !NamedByStatus(p.nodes, i)
    requires var v := Vals(s, p.nodes, e); In(v, i) == In(v, keep)
    ensures var v := Vals(s, p.nodes, e);
      |v| == |p.nodes| && Follows(s, p.nodes[j], RenamedNode(p.nodes[j], i, keep), v, j, RunTo(s, p.nodes, j, e))
  {
    var v, n, m, a := Vals(s, p.nodes, e), p.nodes[j], RenamedNode(p.nodes[j], i, keep), RunTo(s, p.nodes, j, e);
    assert GoodNode(p.nodes, j);
    ValsGrow(s, p.nodes, e, 0, |p.nodes|);
    if !n.dead {
      ValueIs(s, p.nodes, e, j);
      assert In(v, m.in0) == In(v, n.in0) && In(v, m.in1) == In(v, n.in1) && In(v, m.in2) == In(v, n.in2);
      SameValue(s, n, v, v, a.world);
      hide In, RunTo, Vals, GoodNode;
      RenamedValue(s, n, m, v, a.world);
    }
  }

  lemma RenamedValue(s: Machine, n: Node, m: Node, v: seq<Word>, world: World)
    requires n.op == m.op && n.imm == m.imm
    requires In(v, m.in0) == In(v, n.in0) && In(v, m.in1) == In(v, n.in1) && In(v, m.in2) == In(v, n.in2)
    ensures Value(s, n, v, world) == Value(s, m, v, world)
  {
    hide In;
  }

  lemma RenamedSame(s: Machine, p: Ir, i: int, keep: int)
    requires Good(p) && 0 <= keep < i < |p.nodes| && !p.nodes[keep].dead && !IsEffect(p.nodes[keep].op) && !NamedByStatus(p.nodes, i)
    requires forall codes: Word, world: World ::
      var v := Vals(s, p.nodes, Env([], codes, world)); In(v, i) == In(v, keep)
    ensures Same(s, p, Renamed(p, i, keep))
  {
    var q := Renamed(p, i, keep);
    RenamedGood(p, i, keep);
    forall codes: Word, world: World
      ensures Meaning(s, p, codes, world) == Meaning(s, q, codes, world)
    {
      var e := Env([], codes, world);
      var v := Vals(s, p.nodes, e);
      ValsGrow(s, p.nodes, e, 0, |p.nodes|);
      hide RunTo, Follows, GoodNode, In;
      forall j | 0 <= j < |v|
        ensures Follows(s, p.nodes[j], q.nodes[j], v, j, RunTo(s, p.nodes, j, e))
      {
        NameFollows(s, p, i, keep, e, j);
      }
      assert In(v, i) == In(v, keep);
      hide NamedByStatus, Meaning;
      MeaningFollows(s, p, q, v, codes, world);
    }
    hide Meaning;
  }
}
