/**
 A fused pair of which only the first instruction is counted in its run.  Six kinds of pairs end the
 run as they should.  FXCH with a popping operation lends the tick of the FXCH to the operation and
 translates it as outside a run, which goes wrong when the cache is open.
 */
module X87Lent {
  import opened Words
  import opened X87Model
  import opened X87Deferred
  import opened X87Refinement
  import opened X87Runs
  import opened X87Translator
  import opened X87Ops
  import opened X87Program
  import opened X87Fused
  import opened X87FusedRuns
  import opened X87Fusions

  /** What the fused translation makes of c with this counter, and with the cache open or not. */
  function Translated(fpu: Fpu, c: Cached, f: Fusion, run: int, open: bool): Cached {
    if f.FxchArithp? && run == 1 && open then LentFused(fpu, c, f.fn, f.reversed)
    else End(Fused(fpu, c, f, InRun(f, run)), run <= 2)
  }

  /** What the pair means as the last of a run, or outside. */
  function Wanted(fpu: Fpu, c: Cached, f: Fusion, run: int): Cached {
    End(Fused(fpu, c, f, run > 0), run <= 2)
  }

  /** While the cache is closed nothing is pending. */
  predicate Consistent(c: Cached, open: bool) {
    !open ==> Settled(c)
  }

  // ---------------------------------------------------------------- one pair

  lemma PopDeferred(c: Cached)
    requires Settled(c)
    ensures DeferPop(c).plan.pops == 1 && DeferPop(c).plan.dirty && DeferPop(c).plan.pushes == 0 && !DeferPop(c).plan.permDirty
    ensures DeferPop(c).top == Inc(c.top) && DeferPop(c).mem == c.mem
  {
  }

  /** With nothing pending, a deferred pop that is flushed at once is a pop. */
  lemma PopEnded(c: Cached)
    requires Settled(c)
    ensures Leave(End(Popped(c, true), true)) == Leave(End(Popped(c, false), true))
  {
    PopDeferred(c);
    var d := DeferPop(c);
    OneTag(c.mem.tags, c.top);
    EndSettled(Through(c, X87Model.Pop(c.mem)));
    hide DeferPop, SetTags, Inc;
    assert End(d, true).mem == X87Model.Pop(c.mem);
  }

  lemma OneTag(tags: Tags, t: Depth)
    ensures SetTags(tags, Inc(t) - 1, 1, EMPTY) == tags[t := EMPTY]
  {
    var s := SetTags(tags, Inc(t) - 1, 1, EMPTY);
    forall k: Depth
      ensures s[k] == if k == t then EMPTY else tags[k]
    {
    }
    hide SetTags;
  }

  lemma ClosedIsRight(fpu: Fpu, c: Cached, f: Fusion)
    requires f.FxchArithp? && Settled(c)
    ensures Leave(Translated(fpu, c, f, 1, false)) == Leave(Wanted(fpu, c, f, 1))
  {
    var v := Combine(fpu, f.fn, Turned(f.fn, f.reversed), Read(c, 1), Read(c, 0));
    WriteSettled(c, 1, v);
    hide Write, Combine, Read, End, Popped, Settled;
    PopEnded(Write(c, 1, v));
  }

  /** The state after FLD ST(0): a push is pending, and memory holds the TOP before it. */
  lemma AfterFld(fpu: Fpu, a: Arch)
    ensures var c := Body(fpu, Enter(a), Fld(0));
      && c.top == Dec(a.mem.sw.top) && c.mem.sw == a.mem.sw
      && c.plan == FRESH.(dirty := true, pushes := 1, lag := 1)
      && c.mem.st == a.mem.st[Dec(a.mem.sw.top) := Get(a.mem, 0)] && c.mem.tags == a.mem.tags
  {
    assert Phys(Dec(a.mem.sw.top), 0) == Dec(a.mem.sw.top);
    hide Dec, Phys;
  }

  /** TOP in memory ends one above what was there, whatever TOP was. */
  lemma LentTop(fpu: Fpu, c: Cached, fn: Fn, reversed: bool)
    ensures LentFused(fpu, c, fn, reversed).mem.sw == c.mem.sw.(top := Inc(c.mem.sw.top))
  {
    hide Combine, SetTags, Permuted, Inc;
  }

  lemma WantedTop(fpu: Fpu, a: Arch, f: Fusion)
    requires f.FxchArithp?
    ensures Wanted(fpu, Body(fpu, Enter(a), Fld(0)), f, 1).mem.sw.top == a.mem.sw.top
  {
    var c := Body(fpu, Enter(a), Fld(0));
    AfterFld(fpu, a);
    hide Body, Combine, Read, Phys, Dec, SetTags;
    var w := Write(c, 1, Combine(fpu, f.fn, Turned(f.fn, f.reversed), Read(c, 1), Read(c, 0)));
    assert w.plan == c.plan && w.mem.sw == c.mem.sw;
    hide Write;
    assert DeferPop(w).plan.dirty == false && DeferPop(w).mem.sw == w.mem.sw;
  }

  lemma NotInc(t: Depth)
    ensures Inc(t) != t
  {
  }

  lemma GuardedIsRight(fpu: Fpu, c: Cached, f: Fusion, run: int, open: bool)
    requires f.FxchArithp? && Consistent(c, open) && !(run == 1 && open)
    ensures Leave(Translated(fpu, c, f, run, open)) == Leave(Wanted(fpu, c, f, run))
  {
    hide Settled, End, Fused, Leave;
    if run == 1 {
      hide Translated, Wanted;
      ClosedIsRight(fpu, c, f);
    }
  }

  lemma LentIsWrong(fpu: Fpu, a: Arch, f: Fusion)
    requires f.FxchArithp?
    ensures var c := Body(fpu, Enter(a), Fld(0));
      Leave(Translated(fpu, c, f, 1, true)) != Leave(Wanted(fpu, c, f, 1))
  {
    var c := Body(fpu, Enter(a), Fld(0));
    AfterFld(fpu, a);
    LentTop(fpu, c, f.fn, f.reversed);
    WantedTop(fpu, a, f);
    NotInc(a.mem.sw.top);
    hide Body, LentFused, Wanted, Inc, Enter;
    assert Leave(Translated(fpu, c, f, 1, true)).mem.sw.top != Leave(Wanted(fpu, c, f, 1)).mem.sw.top;
  }

  const SOME_FPU: Fpu := Fpu((fn, x, y) => 0, (u, x) => 0, (x, y) => Equal, (x, y) => 0, (f, x, y, z) => 0)
  const SOME_STATE: Arch := Arch(
    X87(0, StatusWord(0, 0, 0, 0, 0, 0, 0), [0, 0, 0, 0, 0, 0, 0, 0], [0, 0, 0, 0, 0, 0, 0, 0]),
    Flags(false, false, false, false), 0)

  /**
   FXCH with a popping operation keeps its meaning from all states if and only if it is not the case
   that the FXCH has the last tick of a run whose cache is open.
   */
  lemma LentTickExact(f: Fusion, run: int, open: bool)
    requires f.FxchArithp?
    ensures (forall fpu: Fpu, c: Cached :: Consistent(c, open) ==>
        Leave(Translated(fpu, c, f, run, open)) == Leave(Wanted(fpu, c, f, run)))
      <==> !(run == 1 && open)
  {
    hide Translated, Wanted, Body, Settled, Leave;
    if run == 1 && open {
      LentIsWrong(SOME_FPU, SOME_STATE, f);
      assert Consistent(Body(SOME_FPU, Enter(SOME_STATE), Fld(0)), open);
    } else {
      forall fpu: Fpu, c: Cached | Consistent(c, open)
        ensures Leave(Translated(fpu, c, f, run, open)) == Leave(Wanted(fpu, c, f, run))
      {
        GuardedIsRight(fpu, c, f, run, open);
      }
    }
  }

  /** The other six kinds keep it with any counter. */
  lemma OthersKeepMeaning(fpu: Fpu, c: Cached, f: Fusion, run: int, open: bool)
    requires !f.FxchArithp?
    ensures Translated(fpu, c, f, run, open) == Wanted(fpu, c, f, run)
  {
  }

  /** With the tick lent, the status word is right exactly when memory already held the right TOP. */
  lemma LentStatus(fpu: Fpu, c: Cached, a: Arch, f: Fusion, tags: bool)
    requires f.FxchArithp? && Refines(c, a, tags)
    ensures Translated(fpu, c, f, 1, true).mem.sw == EagerFused(fpu, a, f).mem.sw <==> c.plan.lag == 0
  {
    LentTop(fpu, c, f.fn, f.reversed);
    assert c.mem.sw.(top := c.top) == a.mem.sw && c.plan.lag == (c.mem.sw.top - c.top) % 8;
    IncInjective(c.mem.sw.top, c.top);
    hide Refines, LentFused, Inc, Combine, Get;
  }

  lemma IncInjective(t: Depth, u: Depth)
    ensures Inc(t) == Inc(u) <==> t == u
    ensures (t - u) % 8 == 0 <==> t == u
  {
  }

  // ---------------------------------------------------------------- runs that end inside a pair

  /** How many x86 instructions an item stands for. */
  function Consumed(item: Item): nat {
    if item.Single? then 1 else 2
  }

  /** The counter n reaches the last item, and may end inside it. */
  predicate EndsInLast(items: seq<Item>, n: int)
    decreases |items|
  {
    if items == [] then n == 0
    else if |items| == 1 then 1 <= n <= Consumed(items[0])
    else n > Consumed(items[0]) && EndsInLast(items[1..], n - Consumed(items[0]))
  }

  predicate Opens(item: Item) {
    item.Both? || !item.op.Fstsw?
  }

  function ItemBy(fpu: Fpu, c: Cached, item: Item, n: int, open: bool): Cached {
    match item
    case Single(op) => Deferred(fpu, c, op, n == 1)
    case Both(f) => Translated(fpu, c, f, n, open)
  }

  /** The items as translated with the counter n; `open` says whether the cache is. */
  function RunBy(fpu: Fpu, c: Cached, items: seq<Item>, n: int, open: bool): Cached
    decreases |items|
  {
    if items == [] then c
    else RunBy(fpu, ItemBy(fpu, c, items[0], n, open), items[1..], n - Consumed(items[0]), open || Opens(items[0]))
  }

  /** The last item is FXCH with a popping operation, and only the FXCH is counted. */
  predicate LendsLast(items: seq<Item>, n: int)
    decreases |items|
  {
    items != [] &&
    if |items| == 1 then items[0].Both? && items[0].fusion.FxchArithp? && n == 1
    else LendsLast(items[1..], n - Consumed(items[0]))
  }

  lemma ItemWhole(fpu: Fpu, c: Cached, item: Item, n: int, open: bool, last: bool)
    requires n >= 1 && (last <==> n <= Consumed(item)) && !(last && item.Both? && item.fusion.FxchArithp? && n == 1)
    ensures ItemBy(fpu, c, item, n, open) == DeferItem(fpu, c, item, last)
  {
    hide Deferred, End, Fused;
  }

  /** A run whose counter ends inside its last pair means what the whole run does, unless that pair lends its tick. */
  lemma {:induction false} RunByWhole(fpu: Fpu, c: Cached, items: seq<Item>, n: int, open: bool)
    requires EndsInLast(items, n) && !LendsLast(items, n)
    ensures RunBy(fpu, c, items, n, open) == DeferItems(fpu, c, items)
    decreases |items|
  {
    if items != [] {
      ItemWhole(fpu, c, items[0], n, open, |items| == 1);
      hide ItemBy, DeferItem;
      if |items| == 1 {
        assert items[1..] == [];
      } else {
        RunByWhole(fpu, DeferItem(fpu, c, items[0], false), items[1..], n - Consumed(items[0]), open || Opens(items[0]));
      }
    }
  }

  /** Nothing before the last item opens the cache. */
  predicate OpensLast(items: seq<Item>) {
    forall i :: 0 <= i < |items| - 1 ==> !Opens(items[i])
  }

  lemma StatusSettled(fpu: Fpu, c: Cached, last: bool)
    requires Settled(c)
    ensures Settled(Deferred(fpu, c, Fstsw, last))
  {
    hide EncodeSw;
  }

  /** And if it does, but the cache was still closed. */
  lemma {:induction false} RunByClosed(fpu: Fpu, c: Cached, items: seq<Item>, n: int)
    requires EndsInLast(items, n) && LendsLast(items, n) && OpensLast(items) && Settled(c)
    ensures Leave(RunBy(fpu, c, items, n, false)) == Leave(DeferItems(fpu, c, items))
    decreases |items|
  {
    if |items| == 1 {
      assert items[1..] == [];
      ClosedIsRight(fpu, c, items[0].fusion);
      hide Translated, Fused, End;
    } else {
      assert !Opens(items[0]);
      StatusSettled(fpu, c, false);
      hide Settled, Deferred;
      assert forall i :: 0 <= i < |items[1..]| - 1 ==> items[1..][i] == items[i + 1];
      RunByClosed(fpu, Deferred(fpu, c, Fstsw, false), items[1..], n - 1);
    }
  }

  /** FLD ST(0); FXCH, FADDP, where FADDP is not counted. */
  const CUT: seq<Item> := [Single(Fld(0)), Both(FxchArithp(Add, false))]

  lemma CutSteps(fpu: Fpu, c: Cached)
    ensures RunBy(fpu, c, CUT, 2, false) == LentFused(fpu, Body(fpu, c, Fld(0)), Add, false)
  {
    hide Body, LentFused;
    var d := Body(fpu, c, Fld(0));
    assert ItemBy(fpu, c, CUT[0], 2, false) == d;
    assert CUT[1..] == [CUT[1]] && [CUT[1]][1..] == [];
    assert RunBy(fpu, d, [CUT[1]], 1, true) == RunBy(fpu, LentFused(fpu, d, Add, false), [], -1, true);
  }

  lemma CutEager(fpu: Fpu, a: Arch)
    ensures var x, e := Get(a.mem, 0), EagerRun(fpu, a, Flat(CUT));
      e.mem.sw.top == a.mem.sw.top && Get(e.mem, 0) == fpu.binary(Add, x, x)
  {
    var f := FxchArithp(Add, false);
    var b := Eager(fpu, a, Fld(0));
    FlatRun(fpu, a, CUT);
    assert CUT[1..] == [Both(f)] && [Both(f)][1..] == [] && Flat([]) == [];
    FlatRun(fpu, b, [Both(f)]);
    CutPair(fpu, a);
    hide Eager, Pair, Get, Inc, Phys;
  }

  /** Both registers hold the same value when they are exchanged and added. */
  lemma CutPair(fpu: Fpu, a: Arch)
    ensures var x, e := Get(a.mem, 0), Pair(fpu, Eager(fpu, a, Fld(0)), FxchArithp(Add, false));
      e.mem.sw.top == a.mem.sw.top && Get(e.mem, 0) == fpu.binary(Add, x, x)
  {
    DownAndUp(a.mem.sw.top);
    hide Inc, Dec, Phys;
  }

  /** What a lent tick computes: the registers of the TOP in memory are added, and then that TOP is popped. */
  lemma LentAdds(fpu: Fpu, c: Cached)
    requires !c.plan.permDirty
    ensures var m, d := c.mem, LentFused(fpu, c, Add, false);
      && d.mem.sw.top == Inc(m.sw.top)
      && Get(d.mem, 0) == fpu.binary(Add, Get(m, 1), Get(m, 0))
  {
    LentTop(fpu, c, Add, false);
    FirstTwo(c.mem.sw.top);
    FirstTwo(Inc(c.mem.sw.top));
    hide Inc, Phys, SetTags;
  }

  lemma OldRegisters(m: X87, v: Word)
    ensures var n := m.(st := m.st[Dec(m.sw.top) := v]); Get(n, 0) == Get(m, 0) && Get(n, 1) == Get(m, 1)
  {
  }

  /**
   From every state the run FLD ST(0); FXCH, FADDP ends with TOP one too high in memory, and instead of
   ST(0) + ST(0) it has added the two registers below the one just loaded.
   */
  lemma CutRun(fpu: Fpu, a: Arch)
    ensures EndsInLast(CUT, 2) && LendsLast(CUT, 2)
    ensures var x, y := Get(a.mem, 0), Get(a.mem, 1);
      var d, e := RunBy(fpu, Enter(a), CUT, 2, false), EagerRun(fpu, a, Flat(CUT));
      && e.mem.sw.top == a.mem.sw.top && Get(e.mem, 0) == fpu.binary(Add, x, x)
      && d.mem.sw.top == Inc(a.mem.sw.top) && Get(d.mem, 0) == fpu.binary(Add, y, x)
  {
    CutEager(fpu, a);
    CutSteps(fpu, Enter(a));
    AfterFld(fpu, a);
    LentAdds(fpu, Body(fpu, Enter(a), Fld(0)));
    OldRegisters(a.mem, Get(a.mem, 0));
    assert CUT[1..] == [CUT[1]];
    hide RunBy, EagerRun, Body, LentFused, Get, Inc, Dec, Flat, Enter;
    var c := Body(fpu, Enter(a), Fld(0));
    assert c.mem == a.mem.(st := c.mem.st, cw := c.mem.cw);
    SameGet(c.mem, a.mem.(st := c.mem.st), 0);
    SameGet(c.mem, a.mem.(st := c.mem.st), 1);
  }

  lemma SameGet(m: X87, n: X87, d: Depth)
    requires m.st == n.st && m.sw == n.sw
    ensures Get(m, d) == Get(n, d)
  {
  }
}
