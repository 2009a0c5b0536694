/** The passes as they run, in place on the nodes and slots of a run (struct Context). */
module X87Passes {
  import opened Words
  import X87Model
  import opened X87IR
  import opened X87Uses
  import opened X87Rules
  import opened X87Optimize
  import opened X87ConstArith
  import opened X87Parallel

  /** The counters are exactly right. */
  ghost predicate Exact(p: Ir, uses: seq<int>) {
    |uses| == MAX_NODES && forall k :: 0 <= k < MAX_NODES ==> uses[k] == Refs(p, k)
  }

  lemma ExactCovers(p: Ir, uses: seq<int>)
    requires Exact(p, uses)
    ensures Covers(p, uses)
  {
    hide Refs;
  }

  lemma ExactReady(p: Ir, uses: seq<int>)
    requires Sound(p) && Exact(p, uses)
    ensures uses == Counters(p) && Ready(Work(p, uses))
  {
    hide Refs, Sound;
  }

  lemma ConstRunNext(w: Work, i: nat)
    requires Ready(w) && i < |w.ir.nodes|
    ensures Shaped(w) && Ready(ConstStep(w, i)) && |ConstStep(w, i).ir.nodes| == |w.ir.nodes|
    ensures ConstRun(w, i) == ConstRun(ConstStep(w, i), i + 1)
  {
    hide Ready, ConstStep, Shaped;
    ConstStepReady(w, i);
  }

  lemma ConstRunEnds(w: Work)
    requires Ready(w)
    ensures ConstRun(w, |w.ir.nodes|) == w
  {
    hide Ready;
  }

  lemma ReadySound(w: Work)
    requires Ready(w)
    ensures Sound(w.ir)
  {
  }

  lemma NamesSet(nodes: seq<Node>, i: nat, n: Node)
    requires i < |nodes| && !LiveStatus(nodes[i]) && !LiveStatus(n)
    ensures SameNames(nodes, nodes[i := n])
  {
  }

  lemma NamesSelf(nodes: seq<Node>)
    ensures SameNames(nodes, nodes)
  {
  }

  lemma KillExact(p: Ir, uses: seq<int>, i: nat)
    requires Exact(p, uses) && i < |p.nodes| && !p.nodes[i].dead
    requires p.nodes[i].in0 < MAX_NODES && p.nodes[i].in1 < MAX_NODES && p.nodes[i].in2 < MAX_NODES
    ensures Exact(Kill(p, i), AllBumped(uses, p.nodes[i], -1))
  {
    var n, after := p.nodes[i], AllBumped(uses, p.nodes[i], -1);
    hide Refs, Count;
    forall k | 0 <= k < MAX_NODES
      ensures after[k] == Refs(Kill(p, i), k)
    {
      AllBumpedIs(uses, n, -1, k);
      RefsSet(p, i, n.(dead := true), k);
      DeadCount(n, k);
    }
    hide AllBumped;
  }

  /** Every live value from node i on is used. */
  ghost predicate UsedFrom(p: Ir, i: nat) {
    forall k :: i <= k < |p.nodes| && Plain(p.nodes[k]) ==> Refs(p, k) > 0
  }

  /** A killed node uses earlier ones only. */
  lemma KillUsed(p: Ir, i: nat)
    requires Good(p) && i < |p.nodes| && Plain(p.nodes[i]) && UsedFrom(p, i + 1)
    ensures UsedFrom(Kill(p, i), i)
  {
    assert GoodNode(p.nodes, i);
    var n, q := p.nodes[i], Kill(p, i);
    hide Refs, Good;
    forall k | i <= k < |q.nodes| && Plain(q.nodes[k])
      ensures Refs(q, k) > 0
    {
      RefsSet(p, i, n.(dead := true), k);
      assert Count(n, k) == 0;
    }
  }

  lemma {:induction false} SlotRefsNext(slots: seq<int>, d: nat, k: int)
    requires d < |slots|
    ensures SlotRefs(slots[..d + 1], k) == SlotRefs(slots[..d], k) + One(slots[d] == k)
  {
    assert slots[..d + 1][..d] == slots[..d];
  }

  lemma NodeRefsNext(nodes: seq<Node>, i: nat, k: int)
    requires i < |nodes|
    ensures NodeRefs(nodes[..i + 1], k) == NodeRefs(nodes[..i], k) + Count(nodes[i], k)
  {
    assert nodes[..i + 1][..i] == nodes[..i];
  }

  class Context {
    var nodes: seq<Node>
    var slots: seq<int>

    constructor (p: Ir)
      ensures Form() == p
    {
      nodes, slots := p.nodes, p.slots;
    }

    function Form(): Ir
      reads this
    {
      Ir(nodes, slots)
    }

    // -------------------------------------------------------------- use counts

    method CountSlots() returns (uses: seq<int>)
      requires Sound(Form())
      ensures |uses| == MAX_NODES && forall k :: 0 <= k < MAX_NODES ==> uses[k] == SlotRefs(slots, k)
    {
      hide GoodNode, PairedAt, SlotRefs;
      uses := seq(MAX_NODES, k => 0);
      NoSlots();
      for d := 0 to |slots|
        invariant |uses| == MAX_NODES && forall k :: 0 <= k < MAX_NODES ==> uses[k] == SlotRefs(slots[..d], k)
      {
        assert ValueBefore(nodes, slots[d], |nodes|);
        forall k ensures SlotRefs(slots[..d + 1], k) == SlotRefs(slots[..d], k) + One(slots[d] == k) { SlotRefsNext(slots, d, k); }
        if slots[d] >= 0 {
          uses := uses[slots[d] := uses[slots[d]] + 1];
        }
      }
      assert slots[..|slots|] == slots;
    }

    lemma NoSlots()
      ensures forall k :: SlotRefs(slots[..0], k) == 0 && NodeRefs(nodes[..0], k) == 0
    {
    }

    /** How often every node is named. */
    method CountUses() returns (uses: seq<int>)
      requires Sound(Form())
      ensures Exact(Form(), uses)
    {
      hide GoodNode, PairedAt, SlotRefs, NodeRefs;
      uses := CountSlots();
      NoSlots();
      for i := 0 to |nodes|
        invariant |uses| == MAX_NODES && forall k :: 0 <= k < MAX_NODES ==> uses[k] == NodeRefs(nodes[..i], k) + SlotRefs(slots, k)
      {
        var n := nodes[i];
        forall k ensures NodeRefs(nodes[..i + 1], k) == NodeRefs(nodes[..i], k) + Count(n, k) { NodeRefsNext(nodes, i, k); }
        if !n.dead {
          Bounds(Form(), i);
          forall k | 0 <= k < MAX_NODES ensures AllBumped(uses, n, 1)[k] == uses[k] + Count(n, k) { AllBumpedIs(uses, n, 1, k); }
          hide AllBumped, Count;
          uses := AllBumped(uses, n, 1);
        }
      }
      assert nodes[..|nodes|] == nodes;
    }

    // -------------------------------------------------------------- dead comparisons

    /** Comparisons whose condition codes are overwritten unread are killed. */
    method DeadCompares()
      requires Sound(Form())
      modifies this
      ensures Sound(Form()) && SameNames(old(nodes), nodes) && Equivalent(NONE, old(Form()), Form())
      ensures slots == old(slots) && OverwrittenDead(old(nodes), nodes, 0)
    {
      hide Sound, Equivalent, SameNames, CompareAhead;
      NamesSelf(nodes);
      NothingAhead(nodes);
      var overwritten := false;
      ghost var last := 0;
      EquivalentSelf(NONE, Form());
      var i := |nodes|;
      while i > 0
        invariant 0 <= i <= |nodes| && SameNames(old(nodes), nodes) && Sound(Form()) && Equivalent(NONE, old(Form()), Form())
        invariant overwritten ==> i <= last < |nodes| && LiveCompare(nodes[last]) && forall k :: i <= k < last ==> !LiveStatus(nodes[k])
        invariant slots == old(slots) && OverwrittenDead(old(nodes), nodes, i) && (overwritten <==> CompareAhead(old(nodes), i))
      {
        i := i - 1;
        AheadStep(old(nodes), i);
        assert nodes[i] == old(nodes)[i];
        if !nodes[i].dead {
          if nodes[i].op.FStsw? {
            overwritten := false;
          } else if IsCompare(nodes[i].op) {
            if overwritten {
              DeadCompareStep(Form(), i, last);
              NamesSet(nodes, i, nodes[i].(dead := true));
              NamesTrans(old(nodes), nodes, nodes[i := nodes[i].(dead := true)]);
              EquivalentTrans(NONE, NONE, old(Form()), Form(), Kill(Form(), i));
              nodes := nodes[i := nodes[i].(dead := true)];
            } else {
              overwritten, last := true, i;
            }
          }
        }
      }
    }

    // -------------------------------------------------------------- dead values

    /** Backward: a value without uses is killed, and gives up its inputs. */
    method Sweep(u: seq<int>) returns (uses: seq<int>)
      requires Sound(Form()) && Exact(Form(), u)
      modifies this
      ensures Sound(Form()) && Exact(Form(), uses) && SameNames(old(nodes), nodes) && UsedFrom(Form(), 0)
      ensures Equivalent(NONE, old(Form()), Form())
    {
      hide PairedAt, GoodNode, Equivalent, Refs, SameNames;
      uses := u;
      EquivalentSelf(NONE, Form());
      NamesSelf(nodes);
      var i := |nodes|;
      while i > 0
        invariant 0 <= i <= |nodes| && SameNames(old(nodes), nodes) && Sound(Form()) && Exact(Form(), uses) && Equivalent(NONE, old(Form()), Form())
        invariant UsedFrom(Form(), i)
      {
        i := i - 1;
        var n := nodes[i];
        if !n.dead && !IsEffect(n.op) && uses[i] == 0 {
          ExactCovers(Form(), uses);
          KillStep(Form(), uses, i);
          KillExact(Form(), uses, i);
          KillUsed(Form(), i);
          EquivalentTrans(NONE, NONE, old(Form()), Form(), Kill(Form(), i));
          NamesSet(nodes, i, n.(dead := true));
          NamesTrans(old(nodes), nodes, nodes[i := n.(dead := true)]);
          uses := AllBumped(uses, n, -1);
          nodes := nodes[i := n.(dead := true)];
        }
      }
    }

    /** Dead-store elimination: afterwards every live value is used. */
    method Dse()
      requires Sound(Form())
      modifies this
      ensures Sound(Form()) && SameNames(old(nodes), nodes) && UsedFrom(Form(), 0) && Equivalent(NONE, old(Form()), Form())
    {
      hide Sound, Exact, UsedFrom, Equivalent, SameNames;
      var uses := CountUses();
      uses := Sweep(uses);
      ghost var mid := Form();
      uses := Sweep(uses);
      NamesTrans(old(nodes), mid.nodes, nodes);
      EquivalentTrans(NONE, NONE, old(Form()), mid, Form());
    }

    // -------------------------------------------------------------- rewritings

    /** One rewriting in place. */
    method Rewrite(i: nat, w: Rewriting, u: seq<int>) returns (uses: seq<int>)
      requires Sound(Form()) && Covers(Form(), u) && i < |nodes| && Applies(Form(), u, i, w)
      modifies this
      ensures Sound(Form()) && Covers(Form(), uses) && SameNames(old(nodes), nodes) && Equivalent(LawsOf(w), old(Form()), Form())
      ensures Did(old(Form()), u, Form(), uses, i, Choice.Rewrite(w))
    {
      assert |u| == MAX_NODES;
      hide Sound, Covers, Equivalent, Recounted;
      RewritingStep(Form(), u, i, w);
      var n := nodes[i];
      var m := Taken(n, w);
      RewritingNames(Form(), u, i, w);
      hide Applies, SameNames;
      uses := Recounted(u, m, nodes[m], w);
      nodes := nodes[i := Made(n, nodes[m], w)];
      nodes := nodes[m := nodes[m].(dead := true)];
    }

    method FnegAt(i: nat, u: seq<int>) returns (uses: seq<int>)
      requires Sound(Form()) && Covers(Form(), u) && i < |nodes|
      modifies this
      ensures Sound(Form()) && Covers(Form(), uses) && SameNames(old(nodes), nodes) && Equivalent(SIGNS, old(Form()), Form())
      ensures Did(old(Form()), u, Form(), uses, i, NegChoice(old(Form()), u, i))
    {
      hide Sound, Refs, Equivalent, SameNames;
      EquivalentSelf(SIGNS, Form());
      NamesSelf(nodes);
      uses := u;
      var n := nodes[i];
      if !n.dead {
        if n.op.FAdd? || n.op.FSub? {
          if SingleUse(Form(), u, n.in1, FNeg) {
            uses := Rewrite(i, NegSecond, u);
          } else if n.op.FAdd? && SingleUse(Form(), u, n.in0, FNeg) {
            uses := Rewrite(i, NegFirst, u);
          }
        } else if n.op.FNeg? && SingleUse(Form(), u, n.in0, FMul) {
          uses := Rewrite(i, NegProduct, u);
        }
      }
    }
  
    /** FNEG goes into FADD, FSUB and FMUL. */
    method FnegFold()
      requires Sound(Form())
      modifies this
      ensures Sound(Form()) && SameNames(old(nodes), nodes) && Equivalent(SIGNS, old(Form()), Form())
      ensures AllAtOnce(old(Form()), Form(), false)
    {
      var uses := CountUses();
      ExactCovers(Form(), uses);
      hide Sound, Exact, Covers, Equivalent, SameNames;
      EquivalentSelf(SIGNS, Form());
      NamesSelf(nodes);
      AtStart(Form(), uses, false);
      for i := 0 to |nodes|
        invariant SameNames(old(nodes), nodes) && Sound(Form()) && Covers(Form(), uses) && Equivalent(SIGNS, old(Form()), Form())
        invariant |nodes| == |old(nodes)| && HalfWay(old(Form()), Form(), uses, false, i)
      {
        ghost var p, u := Form(), uses;
        uses := FnegAt(i, uses);
        EquivalentTrans(SIGNS, SIGNS, old(Form()), p, Form());
        NamesTrans(old(nodes), p.nodes, nodes);
        Turn(old(Form()), p, u, Form(), uses, false, i);
      }
      AtEnd(old(Form()), Form(), uses, false);
    }

    method FmaAt(i: nat, u: seq<int>) returns (uses: seq<int>)
      requires Sound(Form()) && Covers(Form(), u) && i < |nodes|
      modifies this
      ensures Sound(Form()) && Covers(Form(), uses) && SameNames(old(nodes), nodes) && Equivalent(FMA, old(Form()), Form())
      ensures Did(old(Form()), u, Form(), uses, i, FmaChoice(old(Form()), u, i))
    {
      hide Sound, Refs, Equivalent, SameNames;
      EquivalentSelf(FMA, Form());
      NamesSelf(nodes);
      uses := u;
      var n := nodes[i];
      if !n.dead && (n.op.FAdd? || n.op.FSub?) {
        if SingleUse(Form(), u, n.in0, FMul) {
          uses := Rewrite(i, FmaFirst, u);
        } else if SingleUse(Form(), u, n.in1, FMul) {
          uses := Rewrite(i, FmaSecond, u);
        }
      }
    }

    /** Multiply and add become one. */
    method Fma()
      requires Sound(Form())
      modifies this
      ensures Sound(Form()) && SameNames(old(nodes), nodes) && Equivalent(FMA, old(Form()), Form())
      ensures AllAtOnce(old(Form()), Form(), true)
    {
      var uses := CountUses();
      ExactCovers(Form(), uses);
      hide Sound, Exact, Covers, Equivalent, SameNames;
      EquivalentSelf(FMA, Form());
      NamesSelf(nodes);
      AtStart(Form(), uses, true);
      for i := 0 to |nodes|
        invariant SameNames(old(nodes), nodes) && Sound(Form()) && Covers(Form(), uses) && Equivalent(FMA, old(Form()), Form())
        invariant |nodes| == |old(nodes)| && HalfWay(old(Form()), Form(), uses, true, i)
      {
        ghost var p, u := Form(), uses;
        uses := FmaAt(i, uses);
        EquivalentTrans(FMA, FMA, old(Form()), p, Form());
        NamesTrans(old(nodes), p.nodes, nodes);
        Turn(old(Form()), p, u, Form(), uses, true, i);
      }
      AtEnd(old(Form()), Form(), uses, true);
    }

    // -------------------------------------------------------------- constants

    /** Every use of i becomes one of keep. */
    method RenameAll(i: nat, keep: int)
      modifies this
      ensures Form() == Renamed(old(Form()), i, keep)
    {
      hide RenamedNode, Replaced;
      for k := 0 to |nodes|
        invariant |nodes| == |old(nodes)| && slots == old(slots)
        invariant forall j :: 0 <= j < |nodes| ==> nodes[j] == if j < k then RenamedNode(old(nodes)[j], i, keep) else old(nodes)[j]
      {
        nodes := nodes[k := RenamedNode(nodes[k], i, keep)];
      }
      assert nodes == RenamedNodes(old(nodes), i, keep);
      for d := 0 to |slots|
        invariant |slots| == |old(slots)| && nodes == RenamedNodes(old(nodes), i, keep)
        invariant forall j :: 0 <= j < |slots| ==> slots[j] == if j < d then Replaced(old(slots)[j], i, keep) else old(slots)[j]
      {
        slots := slots[d := Replaced(slots[d], i, keep)];
      }
    }

    /** One use of the constant less. */
    method Release(c: int, u: seq<int>) returns (uses: seq<int>)
      requires |u| == MAX_NODES && 0 <= c < |nodes| <= MAX_NODES
      modifies this
      ensures Work(Form(), uses) == Released(old(Form()), u, c)
    {
      uses := u[c := u[c] - 1];
      if uses[c] == 0 {
        nodes := nodes[c := nodes[c].(dead := true)];
      }
    }

    method FoldInto(i: nat, keep: int, c: int, u: seq<int>) returns (uses: seq<int>)
      requires |u| == MAX_NODES && i < |nodes| <= MAX_NODES && 0 <= keep < i && 0 <= c < |nodes|
      modifies this
      ensures Work(Form(), uses) == Folded(Work(old(Form()), u), i, keep, c)
    {
      hide RenamedNodes, RenamedSlots, Released;
      RenameAll(i, keep);
      RenamedLength(old(Form()), i, keep);
      uses := u[keep := u[keep] + u[i] - 1][i := 0];
      nodes := nodes[i := nodes[i].(dead := true)];
      uses := Release(c, uses);
    }

    lemma RenamedLength(p: Ir, i: int, keep: int)
      ensures |Renamed(p, i, keep).nodes| == |p.nodes|
    {
    }

    method ConstAt(i: nat, u: seq<int>) returns (uses: seq<int>)
      requires Shaped(Work(Form(), u)) && i < |nodes|
      modifies this
      ensures Work(Form(), uses) == ConstStep(Work(old(Form()), u), i)
    {
      hide FoldAt, Folded, Released, GoodNode;
      uses := u;
      var n, w := nodes[i], Work(Form(), u);
      if n.dead {
        return;
      }
      var f := FoldAt(nodes, i);
      if f.FoldTo? {
        FoldInputs(Form(), i);
        uses := FoldInto(i, f.keep, f.c, u);
      } else if Invertible(w, n) {
        var cn := nodes[n.in1];
        nodes := nodes[n.in1 := cn.(imm := Reciprocal(cn.imm))];
        nodes := nodes[i := n.(op := FMul)];
      } else if TestsZero(w, n) {
        nodes := nodes[i := n.(op := FTst, in1 := -1)];
        uses := Release(n.in1, u);
      }
    }

    /** Constant arithmetic; X87ConstArith.ConstArithExact says when the result means the same. */
    method ConstArith()
      requires Sound(Form())
      modifies this
      ensures var w := Work(old(Form()), Counters(old(Form()))); Ready(w) && Form() == ConstRun(w, 0).ir
      ensures Sound(Form()) && |nodes| == |old(nodes)|
    {
      hide Ready, Sound, Exact, Counters, Shaped, ConstStep, ConstRun;
      var uses := CountUses();
      ghost var w := Work(Form(), uses);
      ExactReady(Form(), uses);
      for i := 0 to |nodes|
        invariant |nodes| == |old(nodes)| && Ready(Work(Form(), uses)) && ConstRun(Work(Form(), uses), i) == ConstRun(w, 0)
      {
        ConstRunNext(Work(Form(), uses), i);
        uses := ConstAt(i, uses);
      }
      ConstRunEnds(Work(Form(), uses));
      ReadySound(Work(Form(), uses));
    }

    // -------------------------------------------------------------- comparison and FNSTSW fused

    /** Flags of the lowering only. */
    method Mark(i: nat)
      requires Sound(Form()) && i < |nodes|
      modifies this
      ensures Sound(Form()) && SameNames(old(nodes), nodes) && slots == old(slots) && Equivalent(NONE, old(Form()), Form())
      ensures nodes == old(nodes)[i := old(nodes)[i].(fused := true)]
    {
      MarkStep(Form(), i);
      nodes := nodes[i := nodes[i].(fused := true)];
    }

    /** An FNSTSW that is paired with a comparison is fused with it. */
    method FuseStatus()
      requires Sound(Form())
      modifies this
      ensures Sound(Form()) && SameNames(old(nodes), nodes) && Equivalent(NONE, old(Form()), Form())
      ensures forall k :: 0 <= k < |nodes| && LiveStatus(nodes[k]) && nodes[k].in0 >= 0 ==>
        nodes[k].in0 < k && nodes[k].fused && nodes[nodes[k].in0].fused
    {
      hide Equivalent, GoodNode, SameNames;
      NamesSelf(nodes);
      EquivalentSelf(NONE, Form());
      for i := 0 to |nodes|
        invariant |nodes| == |old(nodes)| && Sound(Form()) && SameNames(old(nodes), nodes) && Equivalent(NONE, old(Form()), Form())
        invariant forall k :: 0 <= k < i && LiveStatus(nodes[k]) && nodes[k].in0 >= 0 ==>
          nodes[k].in0 < k && nodes[k].fused && nodes[nodes[k].in0].fused
      {
        var n := nodes[i];
        assert PairedAt(nodes, i);
        if !n.dead && n.op.FStsw? && 0 <= n.in0 < |nodes| && IsCompare(nodes[n.in0].op) {
          var clean := true;
          var j := n.in0 + 1;
          while j < i
            invariant n.in0 < j <= i && clean
          {
            if !nodes[j].dead && IsCompare(nodes[j].op) {
              clean := false;
              break;
            }
            j := j + 1;
          }
          if clean {
            ghost var p := Form();
            Mark(n.in0);
            ghost var q := Form();
            Mark(i);
            EquivalentTrans(NONE, NONE, old(Form()), p, q);
            EquivalentTrans(NONE, NONE, old(Form()), q, Form());
            NamesTrans(old(nodes), p.nodes, q.nodes);
            NamesTrans(old(nodes), q.nodes, nodes);
          }
        }
      }
    }

    // -------------------------------------------------------------- optimize

    /**
     All passes, without the opt-in f32 ones.  `mid` is what the constant pass starts from: the list
     keeps what it means if and only if that pass folds no node whose number an FNSTSW holds.
     */
    method Optimize() returns (ghost mid: Ir)
      requires Sound(Form())
      modifies this
      ensures Sound(Form()) && Ready(Work(mid, Counters(mid))) && Equivalent(NONE, old(Form()), mid) && SameNames(old(nodes), mid.nodes)
      ensures NoHit(Work(mid, Counters(mid)), 0) <==> Equivalent(ALL, old(Form()), Form())
    {
      hide Sound, Ready, Equivalent, NoHit, ConstRun, Counters, UsedFrom, SameNames;
      DeadCompares();
      mid := Form();
      ConstArith();
      ghost var p1 := Form();
      Dse();
      ghost var p2 := Form();
      FnegFold();
      ghost var p3 := Form();
      Fma();
      ghost var p4 := Form();
      FuseStatus();
      EquivalentTrans(NONE, SIGNS, p1, p2, p3);
      EquivalentTrans(SIGNS, FMA, p1, p3, p4);
      EquivalentTrans(Both(SIGNS, FMA), NONE, p1, p4, Form());
      NamesTrans(p1.nodes, p2.nodes, p3.nodes);
      NamesTrans(p1.nodes, p3.nodes, p4.nodes);
      NamesTrans(p1.nodes, p4.nodes, nodes);
      OnlyConstants(old(Form()), Work(mid, Counters(mid)), Form());
    }
  }

  const ALL := Laws(true, true, true)

  /** Of all passes only the constant one can go wrong. */
  lemma OnlyConstants(p: Ir, w: Work, q: Ir)
    requires Ready(w) && Equivalent(NONE, p, w.ir) && SameNames(p.nodes, w.ir.nodes)
    requires Equivalent(Both(SIGNS, FMA), ConstRun(w, 0).ir, q) && SameNames(ConstRun(w, 0).ir.nodes, q.nodes)
    ensures NoHit(w, 0) <==> Equivalent(ALL, p, q)
  {
    var r := ConstRun(w, 0).ir;
    NamesExact(w);
    assert Both(NONE, CONSTANTS) == CONSTANTS && Both(CONSTANTS, Both(SIGNS, FMA)) == ALL;
    assert |p.nodes| == |q.nodes| && forall k :: 0 <= k < |p.nodes| ==> LiveStatus(p.nodes[k]) == LiveStatus(q.nodes[k]);
    assert SameNames(p.nodes, q.nodes) ==> SameNames(w.ir.nodes, r.nodes);
    hide Ready, Equivalent, LiveStatus, ConstRun, SameNames;
    if NoHit(w, 0) {
      ConstRunSame(w, 0);
      EquivalentTrans(NONE, CONSTANTS, p, w.ir, r);
      EquivalentTrans(CONSTANTS, Both(SIGNS, FMA), p, r, q);
    } else if Equivalent(ALL, p, q) {
      EquivalentNames(ALL, p, q);
    }
  }

  /** Neither an arithmetic node nor its input is an FNSTSW. */
  lemma RewritingNames(p: Ir, uses: seq<int>, i: nat, w: Rewriting)
    requires |uses| == MAX_NODES && i < |p.nodes| && Applies(p, uses, i, w) && 0 <= Taken(p.nodes[i], w) < |p.nodes|
    ensures SameNames(p.nodes, Rewritten(p, i, w).nodes)
  {
  }

  lemma MarkStep(p: Ir, i: nat)
    requires Sound(p) && i < |p.nodes|
    ensures var q := Set(p, i, p.nodes[i].(fused := true)); Sound(q) && Equivalent(NONE, p, q)
  {
    var q := Set(p, i, p.nodes[i].(fused := true));
    assert GoodNode(p.nodes, i);
    assert GoodNode(q.nodes, i);
    SetGood(p, i, q.nodes[i]);
    StaysPaired(p, q);
    forall s: Machine | Obeys(s, NONE)
      ensures Same(s, p, q)
    {
      forall codes: Word, world: World
        ensures Meaning(s, p, codes, world) == Meaning(s, q, codes, world)
      {
        MarkRun(s, p, i, |p.nodes|, Env([], codes, world));
        hide RunTo;
      }
      hide Meaning;
    }
    hide Same, Obeys;
  }

  lemma {:induction false} MarkRun(s: Machine, p: Ir, i: nat, k: nat, e: Env)
    requires i < |p.nodes| && k <= |p.nodes|
    ensures RunTo(s, p.nodes, k, e) == RunTo(s, Set(p, i, p.nodes[i].(fused := true)).nodes, k, e)
  {
    if k > 0 {
      MarkRun(s, p, i, k - 1, e);
    }
  }

  /** The condition codes that a paired FNSTSW reads are those of its comparison. */
  lemma {:induction false} PairedCodes(s: Machine, p: Ir, f: nat, k: nat, e: Env)
    requires f < k <= |p.nodes| && LiveCompare(p.nodes[f]) && forall j :: f < j < k ==> !LiveCompare(p.nodes[j])
    ensures RunTo(s, p.nodes, k, e).codes == Codes(s, p.nodes[f], RunTo(s, p.nodes, f, e).vals)
  {
    hide Codes, Value;
    if k - 1 > f {
      PairedCodes(s, p, f, k - 1, e);
    }
  }

  /** So the lowering may keep them in a register. */
  lemma FusedReads(s: Machine, p: Ir, k: nat, e: Env)
    requires Sound(p) && k < |p.nodes| && LiveStatus(p.nodes[k]) && p.nodes[k].in0 >= 0
    ensures var f := p.nodes[k].in0; f < k && RunTo(s, p.nodes, k, e).codes == Codes(s, p.nodes[f], RunTo(s, p.nodes, f, e).vals)
  {
    assert PairedAt(p.nodes, k);
    hide Good, RunTo, Codes;
    PairedCodes(s, p, p.nodes[k].in0, k, e);
  }

  // ---------------------------------------------------------------- the laws are needed

  /** A product and a sum or difference of three constants. */
  function ProductAnd(op: Op, first: bool, a: Word, b: Word, c: Word): Ir {
    Ir([Simple(ConstF64, -1, -1, -1, a), Simple(ConstF64, -1, -1, -1, b), Simple(ConstF64, -1, -1, -1, c),
        Simple(FMul, 0, 1, -1, 0), Simple(op, if first then 3 else 2, if first then 2 else 3, -1, 0)],
       [4, -2, -3, -4, -5, -6, -7, -8])
  }

  lemma ProductGood(op: Op, first: bool, a: Word, b: Word, c: Word)
    requires op.FAdd? || op.FSub?
    ensures Good(ProductAnd(op, first, a, b, c))
  {
    ProductNodes(op, first, a, b, c);
    ProductGoodNodes(op, first, a, b, c);
    hide ProductAnd, GoodNode;
  }

  lemma ProductNodes(op: Op, first: bool, a: Word, b: Word, c: Word)
    ensures var p := ProductAnd(op, first, a, b, c);
      var n := p.nodes;
      && |n| == 5 && |p.slots| == 8 && p.slots[0] == 4 && (forall d :: 1 <= d < 8 ==> p.slots[d] < 0)
      && n[0] == Simple(ConstF64, -1, -1, -1, a) && n[1] == Simple(ConstF64, -1, -1, -1, b) && n[2] == Simple(ConstF64, -1, -1, -1, c)
      && n[3] == Simple(FMul, 0, 1, -1, 0) && n[4] == Simple(op, if first then 3 else 2, if first then 2 else 3, -1, 0)
  {
  }

  lemma ProductGoodNodes(op: Op, first: bool, a: Word, b: Word, c: Word)
    requires op.FAdd? || op.FSub?
    ensures var n := ProductAnd(op, first, a, b, c).nodes;
      |n| == 5 && forall k :: 0 <= k < 5 ==> GoodNode(n, k)
  {
    ProductNodes(op, first, a, b, c);
    var n := ProductAnd(op, first, a, b, c).nodes;
    hide ProductAnd;
    assert GoodNode(n, 0) && GoodNode(n, 1) && GoodNode(n, 2);
    assert GoodNode(n, 3) && GoodNode(n, 4);
    hide GoodNode;
  }

  lemma ProductValue(s: Machine, op: Op, first: bool, a: Word, b: Word, c: Word, e: Env)
    requires (op.FAdd? || op.FSub?) && e.vals == []
    ensures var v, m := Vals(s, ProductAnd(op, first, a, b, c).nodes, e), s.binary(FMul, a, b);
      |v| == 5 && v[4] == if first then s.binary(op, m, c) else s.binary(op, c, m)
  {
    var p := ProductAnd(op, first, a, b, c);
    ProductGood(op, first, a, b, c);
    InputIs(s, p, 0, e, e.world);
    InputIs(s, p, 1, e, e.world);
    InputIs(s, p, 2, e, e.world);
    InputIs(s, p, 3, e, e.world);
    InputIs(s, p, 4, e, e.world);
    hide Vals, Good;
  }

  function FusedOp(op: Op, first: bool): Op {
    if op.FAdd? then FMAdd else if first then FNMSub else FMSub
  }

  /** The same list after pass_fma. */
  function FusedProduct(op: Op, first: bool, a: Word, b: Word, c: Word): Ir {
    Rewritten(ProductAnd(op, first, a, b, c), 4, if first then FmaFirst else FmaSecond)
  }

  lemma FusedNodes(op: Op, first: bool, a: Word, b: Word, c: Word)
    requires op.FAdd? || op.FSub?
    ensures var n := FusedProduct(op, first, a, b, c).nodes;
      && |n| == 5 && n[4] == Simple(FusedOp(op, first), 0, 1, 2, 0)
      && n[0] == Simple(ConstF64, -1, -1, -1, a) && n[1] == Simple(ConstF64, -1, -1, -1, b) && n[2] == Simple(ConstF64, -1, -1, -1, c)
  {
  }

  lemma FusedGood(op: Op, first: bool, a: Word, b: Word, c: Word)
    requires op.FAdd? || op.FSub?
    ensures var n := FusedProduct(op, first, a, b, c).nodes;
      |n| == 5 && GoodNode(n, 0) && GoodNode(n, 1) && GoodNode(n, 2) && GoodNode(n, 4)
  {
    FusedNodes(op, first, a, b, c);
    hide FusedProduct;
  }

  lemma FusedProductValue(s: Machine, op: Op, first: bool, a: Word, b: Word, c: Word, e: Env)
    requires (op.FAdd? || op.FSub?) && e.vals == []
    ensures var v := Vals(s, FusedProduct(op, first, a, b, c).nodes, e);
      |v| == 5 && v[4] == s.fma(FusedOp(op, first), a, b, c)
  {
    var n := FusedProduct(op, first, a, b, c).nodes;
    FusedNodes(op, first, a, b, c);
    FusedGood(op, first, a, b, c);
    hide FusedProduct, GoodNode;
    ConstIs(s, n, e, 0);
    ConstIs(s, n, e, 1);
    ConstIs(s, n, e, 2);
    FmaIs(s, n, e, 4);
    hide Vals, RunTo, Value;
  }

  lemma FmaIs(s: Machine, nodes: seq<Node>, e: Env, k: nat)
    requires k < |nodes| && e.vals == [] && GoodNode(nodes, k) && !nodes[k].dead && IsFma(nodes[k].op)
    ensures var v, n := Vals(s, nodes, e), nodes[k];
      |v| == |nodes| && v[k] == s.fma(n.op, In(v, n.in0), In(v, n.in1), In(v, n.in2))
  {
    ValueIs(s, nodes, e, k);
    hide Vals, RunTo, GoodNode, In;
  }

  lemma ConstIs(s: Machine, nodes: seq<Node>, e: Env, k: nat)
    requires k < |nodes| && e.vals == [] && GoodNode(nodes, k) && !nodes[k].dead && nodes[k].op.ConstF64?
    ensures |Vals(s, nodes, e)| == |nodes| && Vals(s, nodes, e)[k] == nodes[k].imm
  {
    ValueIs(s, nodes, e, k);
    hide Vals, RunTo, GoodNode, In;
  }

  /** Without effects only the values matter. */
  lemma {:induction false} PlainRun(s: Machine, nodes: seq<Node>, k: nat, e: Env)
    requires k <= |nodes| && forall j :: 0 <= j < k ==> !IsEffect(nodes[j].op)
    ensures RunTo(s, nodes, k, e).codes == e.codes && RunTo(s, nodes, k, e).world == e.world
  {
    hide Value;
    if k > 0 {
      PlainRun(s, nodes, k - 1, e);
    }
  }

  lemma OneSlot(s: Machine, p: Ir, q: Ir, codes: Word, world: World)
    requires |p.nodes| == |q.nodes| == 5 && p.slots == q.slots && |p.slots| == 8 && p.slots[0] == 4
    requires forall d :: 1 <= d < 8 ==> p.slots[d] < 0
    requires forall j :: 0 <= j < 5 ==> !IsEffect(p.nodes[j].op) && !IsEffect(q.nodes[j].op)
    ensures var e := Env([], codes, world);
      var v, w := Vals(s, p.nodes, e), Vals(s, q.nodes, e);
      |v| == |w| == 5 && (Meaning(s, p, codes, world) == Meaning(s, q, codes, world) <==> v[4] == w[4])
  {
    var e := Env([], codes, world);
    PlainRun(s, p.nodes, 5, e);
    PlainRun(s, q.nodes, 5, e);
    ValsGrow(s, p.nodes, e, 5, 5);
    ValsGrow(s, q.nodes, e, 5, 5);
    hide RunTo;
    var x, y := Meaning(s, p, codes, world), Meaning(s, q, codes, world);
    assert x.slots[0] == Computed(Vals(s, p.nodes, e)[4]) && y.slots[0] == Computed(Vals(s, q.nodes, e)[4]);
    assert forall d :: 1 <= d < 8 ==> x.slots[d] == y.slots[d];
    assert x.slots[0] == y.slots[0] ==> x.slots == y.slots;
  }

  /** Fusing a product keeps the meaning exactly when the fused operation is the two it replaces. */
  lemma FmaExact(s: Machine, op: Op, first: bool, a: Word, b: Word, c: Word)
    requires op.FAdd? || op.FSub?
    ensures Same(s, ProductAnd(op, first, a, b, c), FusedProduct(op, first, a, b, c)) <==>
      s.fma(FusedOp(op, first), a, b, c) ==
        if first then s.binary(op, s.binary(FMul, a, b), c) else s.binary(op, c, s.binary(FMul, a, b))
  {
    var p, q := ProductAnd(op, first, a, b, c), FusedProduct(op, first, a, b, c);
    forall codes: Word, world: World
      ensures Meaning(s, p, codes, world) == Meaning(s, q, codes, world) <==>
        s.fma(FusedOp(op, first), a, b, c) ==
          if first then s.binary(op, s.binary(FMul, a, b), c) else s.binary(op, c, s.binary(FMul, a, b))
    {
      ProductShape(op, first, a, b, c);
      hide ProductAnd, FusedProduct, IsEffect, Meaning, Vals, FusedOp;
      OneSlot(s, p, q, codes, world);
      ProductValue(s, op, first, a, b, c, Env([], codes, world));
      FusedProductValue(s, op, first, a, b, c, Env([], codes, world));
    }
    hide Meaning, ProductAnd, FusedProduct, FusedOp;
    var world := World(map[], [], X87Model.Flags(false, false, false, false), 0);
    assert Same(s, p, q) ==> Meaning(s, p, 0, world) == Meaning(s, q, 0, world);
  }

  lemma ProductShape(op: Op, first: bool, a: Word, b: Word, c: Word)
    requires op.FAdd? || op.FSub?
    ensures var p, q := ProductAnd(op, first, a, b, c), FusedProduct(op, first, a, b, c);
      && |p.nodes| == |q.nodes| == 5 && p.slots == q.slots && |p.slots| == 8 && p.slots[0] == 4
      && (forall d :: 1 <= d < 8 ==> p.slots[d] < 0)
      && forall j :: 0 <= j < 5 ==> !IsEffect(p.nodes[j].op) && !IsEffect(q.nodes[j].op)
  {
  }

  // ---------------------------------------------------------------- over all lists

  lemma ProductSound(op: Op, first: bool, a: Word, b: Word, c: Word)
    requires op.FAdd? || op.FSub?
    ensures Sound(ProductAnd(op, first, a, b, c))
  {
    ProductGood(op, first, a, b, c);
    ProductShape(op, first, a, b, c);
    hide Good, FusedProduct, ProductAnd;
  }

  /** The product is used once. */
  lemma ProductRefs(op: Op, first: bool, a: Word, b: Word, c: Word)
    ensures Refs(ProductAnd(op, first, a, b, c), 3) == 1
  {
    ProductNodes(op, first, a, b, c);
    var p := ProductAnd(op, first, a, b, c);
    hide ProductAnd;
    assert p.nodes[..5] == p.nodes && p.slots[..8] == p.slots;
    assert Count(p.nodes[0], 3) == 0 && Count(p.nodes[1], 3) == 0 && Count(p.nodes[2], 3) == 0;
    assert Count(p.nodes[3], 3) == 0 && Count(p.nodes[4], 3) == 1;
    FirstNodes(p.nodes);
    NodeRefsNext(p.nodes, 3, 3);
    NodeRefsNext(p.nodes, 4, 3);
    hide Count, NodeRefs, SlotRefs;
    NoSlotRefs(p.slots, 8);
  }

  lemma FirstNodes(nodes: seq<Node>)
    requires |nodes| == 5 && Count(nodes[0], 3) == 0 && Count(nodes[1], 3) == 0 && Count(nodes[2], 3) == 0
    ensures NodeRefs(nodes[..3], 3) == 0
  {
    hide Count;
    assert NodeRefs(nodes[..0], 3) == 0;
    NodeRefsNext(nodes, 0, 3);
    NodeRefsNext(nodes, 1, 3);
    NodeRefsNext(nodes, 2, 3);
  }

  lemma {:induction false} NoSlotRefs(slots: seq<int>, n: nat)
    requires n <= |slots| && forall d :: 0 <= d < n ==> slots[d] != 3
    ensures SlotRefs(slots[..n], 3) == 0
  {
    if n > 0 {
      NoSlotRefs(slots, n - 1);
      SlotRefsNext(slots, n - 1, 3);
      hide SlotRefs;
    }
  }

  /** Somewhere in a well-formed list pass_fma fuses node i. */
  ghost predicate Fuses(p: Ir, uses: seq<int>, i: nat, w: Rewriting) {
    && Sound(p) && Covers(p, uses) && i < |p.nodes| && (w.FmaFirst? || w.FmaSecond?)
    && Applies(p, uses, i, w) && 0 <= Taken(p.nodes[i], w) < |p.nodes|
  }

  function FmaOf(first: bool): Rewriting {
    if first then FmaFirst else FmaSecond
  }

  lemma ProductFuses(op: Op, first: bool, a: Word, b: Word, c: Word)
    requires op.FAdd? || op.FSub?
    ensures var p := ProductAnd(op, first, a, b, c); Fuses(p, Counters(p), 4, FmaOf(first))
  {
    ProductSound(op, first, a, b, c);
    ProductRefs(op, first, a, b, c);
    ProductNodes(op, first, a, b, c);
    hide ProductAnd, Refs, Sound;
  }

  lemma ConstantsDecide(s: Machine, op: Op, first: bool, a: Word, b: Word, c: Word)
    requires op.FAdd? || op.FSub?
    requires forall p: Ir, uses: seq<int>, i: nat, w: Rewriting :: Fuses(p, uses, i, w) ==> Same(s, p, Rewritten(p, i, w))
    ensures s.fma(FusedOp(op, first), a, b, c) ==
      if first then s.binary(op, s.binary(FMul, a, b), c) else s.binary(op, c, s.binary(FMul, a, b))
  {
    var p := ProductAnd(op, first, a, b, c);
    ProductFuses(op, first, a, b, c);
    assert FusedProduct(op, first, a, b, c) == Rewritten(p, 4, FmaOf(first));
    hide Fuses, Same, Rewritten, ProductAnd, FusedProduct, FusedOp, Counters;
    FmaExact(s, op, first, a, b, c);
  }

  /** All fusions, in all lists, keep the meaning on a machine exactly when it obeys the laws. */
  lemma FmaLawExact(s: Machine)
    ensures (forall p: Ir, uses: seq<int>, i: nat, w: Rewriting :: Fuses(p, uses, i, w) ==> Same(s, p, Rewritten(p, i, w)))
      <==> FmaRules(s)
  {
    if forall p: Ir, uses: seq<int>, i: nat, w: Rewriting :: Fuses(p, uses, i, w) ==> Same(s, p, Rewritten(p, i, w)) {
      forall a: Word, b: Word, c: Word
        ensures s.binary(FAdd, s.binary(FMul, a, b), c) == s.fma(FMAdd, a, b, c)
        ensures s.binary(FAdd, c, s.binary(FMul, a, b)) == s.fma(FMAdd, a, b, c)
        ensures s.binary(FSub, s.binary(FMul, a, b), c) == s.fma(FNMSub, a, b, c)
        ensures s.binary(FSub, c, s.binary(FMul, a, b)) == s.fma(FMSub, a, b, c)
      {
        ConstantsDecide(s, FAdd, true, a, b, c);
        ConstantsDecide(s, FAdd, false, a, b, c);
        ConstantsDecide(s, FSub, true, a, b, c);
        ConstantsDecide(s, FSub, false, a, b, c);
      }
      hide Fuses, Same, Rewritten;
    }
    if FmaRules(s) {
      forall p: Ir, uses: seq<int>, i: nat, w: Rewriting | Fuses(p, uses, i, w)
        ensures Same(s, p, Rewritten(p, i, w))
      {
        hide Sound, Covers, Applies, FmaRules, Same, Rewritten;
        RewritingStep(p, uses, i, w);
        assert Obeys(s, LawsOf(w));
      }
    }
  }
}
