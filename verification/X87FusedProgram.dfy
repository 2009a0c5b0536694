/** A run translated with fusions, from machine state to machine state. */
module X87FusedProgram {
  import opened Words
  import opened X87Model
  import opened X87Deferred
  import opened Arm
  import opened Translation
  import opened X87Code
  import opened X87Translator
  import opened Addressing
  import opened OperandAccess
  import opened X87Ops
  import opened X87Program
  import opened X87Fused
  import opened X87FusedRuns
  import opened X87Fusions
  import opened X87Lent

  /** A counter as set_run takes it, which reaches the last item. */
  predicate IsRun(items: seq<Item>, n: int) {
    2 <= n < 0x8000 && EndsInLast(items, n)
  }

  predicate Reads(item: Item) {
    if item.Single? then item.op.Fstsw? else ReadsAx(item.fusion)
  }

  predicate ReadsAny(items: seq<Item>) {
    items != [] && (Reads(items[0]) || ReadsAny(items[1..]))
  }

  /** Where every FLDCW of the run finds its operand; not through RAX, once FNSTSW has written it. */
  ghost predicate ItemsFit(s: State, b: Word, items: seq<Item>, operands: seq<Operand>, ctx: Context, read: bool)
    requires |operands| == |items|
    decreases |items|
  {
    items == [] ||
    (&& (items[0].Single? && items[0].op.Fldcw? ==>
          OperandFits(s, b, operands[0], ctx, items[0].op.value) && (read ==> !UsesRax(operands[0])))
     && ItemsFit(s, b, items[1..], operands[1..], ctx, read || Reads(items[0])))
  }

  /** No fused FLD ST(7) looks past the end of a pending permutation. */
  predicate PermFits(p: Plan, items: seq<Item>)
    decreases |items|
  {
    items == [] ||
    (&& (items[0].Both? && items[0].fusion.FstpFld? && items[0].fusion.src == Register(7) ==> !p.permDirty)
     && PermFits(ItemPlan(p, items[0], |items| == 1), items[1..]))
  }

  /** The driver ticks once per instruction consumed; at zero ticks do nothing, and the mask is made complete. */
  method TickAll(t: Translator, n: nat)
    requires t.runRemaining >= 0 && 1 <= n <= 2 && (t.Idle() || Stranded(t))
    modifies t`runRemaining, t`gprsValid, t`topDirty, t`pushCount, t`popCount, t`c, t.r`freeGpr
    ensures t.runRemaining == if old(t.runRemaining) > n then old(t.runRemaining) - n else 0
    ensures t.runRemaining > 0 ==> t.c == old(t.c) && t.gprsValid == old(t.gprsValid)
    ensures Leave(t.c) == Leave(old(t.c)) && t.r.Valid() && t.MachineAt(t.r.cur)
    ensures old(t.Idle()) ==> t.Idle()
    ensures old(Stranded(t)) ==> t.gprsValid && {22, 23, 28} <= t.r.freeGpr
  {
    Apart(t);
    hide t.Idle, t.MachineAt, Stranded, Leave;
    ghost var stranded := Stranded(t);
    for i := 0 to n
      invariant if stranded then Stranded(t) && t.runRemaining == 0 && t.c == old(t.c) else t.Idle()
      invariant t.runRemaining == if old(t.runRemaining) > i then old(t.runRemaining) - i else 0
      invariant t.runRemaining > 0 ==> t.c == old(t.c) && t.gprsValid == old(t.gprsValid)
      invariant Leave(t.c) == Leave(old(t.c))
    {
      if t.runRemaining > 0 {
        SameLeave(t.c);
        Tick(t);
      }
    }
    if t.runRemaining == 0 {
      CompleteMask(t);
    } else {
      IdleFacts(t);
    }
  }

  /** Outside runs the mask is made complete, whether the cache is closed or not. */
  method CompleteMask(t: Translator)
    requires t.runRemaining == 0 && (t.Idle() || Stranded(t))
    modifies t.r`freeGpr
    ensures t.r.Valid() && t.MachineAt(t.r.cur)
    ensures old(t.Idle()) ==> t.Idle()
    ensures old(Stranded(t)) ==> t.gprsValid && {22, 23, 28} <= t.r.freeGpr
  {
    hide Arm.Reaches, Image, Outside, StatusInRax;
    t.r.freeGpr := GPR_POOL;
  }

  lemma SameLeave(c: Cached)
    ensures Leave(Rest(c)) == Leave(c)
  {
  }

  lemma Apart(t: Translator)
    ensures t.Idle() ==> !Stranded(t)
    ensures Stranded(t) ==> t.runRemaining == 0
  {
  }

  lemma IdleFacts(t: Translator)
    requires t.Idle()
    ensures t.r.Valid() && t.MachineAt(t.r.cur)
  {
  }

  /** One step of the driver: an instruction or a fusion. */
  method TranslateItem(t: Translator, item: Item, o: Operand, ctx: Context, fold: bool)
    requires t.Idle() && t.runRemaining >= 1
    requires item.Single? ==> OperandReady(t, item.op, o, ctx)
    requires item.Both? ==> InBounds(t.c, item.fusion)
    modifies t, t.r
    ensures t.start == old(t.start) && t.statusRead == (old(t.statusRead) || Reads(item))
    ensures t.runRemaining == if item.Both? && item.fusion.FxchArithp? && old(t.runRemaining) == 1 then 0 else old(t.runRemaining)
    ensures t.c == ItemBy(t.start.fpu, old(t.c), item, old(t.runRemaining), old(t.gprsValid))
    ensures if item.Both? && old(LendsOpen(t, item.fusion)) then Stranded(t)
      else t.Idle() && (t.runRemaining > 0 ==> t.gprsValid == (old(t.gprsValid) || Opens(item)))
  {
    hide t.Idle, Stranded, OperandReady, InBounds, Deferred, Fused, End, LentFused;
    match item {
      case Single(op) => TranslateOp(t, op, o, ctx, fold);
      case Both(f) => TranslateFusion(t, f);
    }
  }

  /** An item that is not the last does not use up the counter. */
  lemma ItemsStep(fpu: Fpu, c: Cached, items: seq<Item>, i: nat, n: int, open: bool)
    requires i < |items| - 1 && EndsInLast(items[i..], n)
    ensures n > Consumed(items[i]) && EndsInLast(items[i + 1..], n - Consumed(items[i]))
    ensures RunBy(fpu, c, items[i..], n, open) ==
      RunBy(fpu, ItemBy(fpu, c, items[i], n, open), items[i + 1..], n - Consumed(items[i]), open || Opens(items[i]))
    ensures ItemBy(fpu, c, items[i], n, open).plan == ItemPlan(c.plan, items[i], |items| - i == 1)
    ensures ReadsAny(items[i..]) == (Reads(items[i]) || ReadsAny(items[i + 1..]))
    ensures LendsLast(items[i..], n) == LendsLast(items[i + 1..], n - Consumed(items[i]))
  {
    assert items[i..][0] == items[i] && items[i..][1..] == items[i + 1..];
    hide ItemBy, DeferItem, ItemPlan;
    ItemWhole(fpu, c, items[i], n, open, false);
    ItemPlanIs(fpu, c, items[i], false);
  }

  lemma FitsStep(s: State, b: Word, items: seq<Item>, operands: seq<Operand>, ctx: Context, read: bool, p: Plan, i: nat)
    requires |operands| == |items| && i < |items|
    requires ItemsFit(s, b, items[i..], operands[i..], ctx, read) && PermFits(p, items[i..])
    ensures items[i].Single? && items[i].op.Fldcw? ==>
      OperandFits(s, b, operands[i], ctx, items[i].op.value) && (read ==> !UsesRax(operands[i]))
    ensures items[i].Both? && items[i].fusion.FstpFld? && items[i].fusion.src == Register(7) ==> !p.permDirty
    ensures ItemsFit(s, b, items[i + 1..], operands[i + 1..], ctx, read || Reads(items[i]))
    ensures PermFits(ItemPlan(p, items[i], |items| - i == 1), items[i + 1..])
  {
    hide OperandFits, UsesRax, ItemPlan, Reads;
    assert items[i..][0] == items[i] && items[i..][1..] == items[i + 1..];
    assert operands[i..][0] == operands[i] && operands[i..][1..] == operands[i + 1..];
  }

  lemma ItemReady(t: Translator, item: Item, o: Operand, ctx: Context)
    requires item.Single? && item.op.Fldcw? ==>
      OperandFits(t.start, t.b, o, ctx, item.op.value) && (t.statusRead ==> !UsesRax(o))
    requires item.Both? && item.fusion.FstpFld? && item.fusion.src == Register(7) ==> !t.c.plan.permDirty
    ensures item.Single? ==> OperandReady(t, item.op, o, ctx)
    ensures item.Both? ==> InBounds(t.c, item.fusion)
  {
    hide OperandFits, UsesRax;
  }

  /** Does one of the first i items open the cache? */
  predicate OpensBefore(items: seq<Item>, i: nat)
    requires i <= |items|
  {
    exists j :: 0 <= j < i && Opens(items[j])
  }

  lemma OpensNext(items: seq<Item>, i: nat)
    requires i < |items|
    ensures OpensBefore(items, i + 1) <==> OpensBefore(items, i) || Opens(items[i])
    ensures OpensBefore(items, |items| - 1) <==> !OpensLast(items)
  {
    hide Opens;
    if Opens(items[i]) {
      assert 0 <= i < i + 1 && Opens(items[i]);
    }
  }

  /** All items but the last. */
  method TranslateFirst(t: Translator, items: seq<Item>, operands: seq<Operand>, ctx: Context, fold: bool, n: int)
    requires t.Idle() && t.runRemaining == n && !t.gprsValid && IsRun(items, n) && |operands| == |items|
    requires ItemsFit(t.start, t.b, items, operands, ctx, t.statusRead) && PermFits(t.c.plan, items)
    modifies t, t.r
    ensures items != [] && t.Idle() && t.start == old(t.start)
    ensures var i := |items| - 1;
      && EndsInLast(items[i..], t.runRemaining) && t.gprsValid == OpensBefore(items, i)
      && RunBy(t.start.fpu, t.c, items[i..], t.runRemaining, t.gprsValid) == RunBy(t.start.fpu, old(t.c), items, n, false)
      && LendsLast(items[i..], t.runRemaining) == LendsLast(items, n)
      && (t.statusRead || ReadsAny(items[i..])) == (old(t.statusRead) || ReadsAny(items))
      && ItemsFit(t.start, t.b, items[i..], operands[i..], ctx, t.statusRead) && PermFits(t.c.plan, items[i..])
  {
    hide t.Idle, Stranded, OperandReady, OperandFits, UsesRax, InBounds, ItemsFit, PermFits, ReadsAny, Reads, RunBy, ItemBy, ItemPlan, LendsLast, Opens;
    ghost var c0, read0 := t.c, t.statusRead;
    Whole(items, operands, n);
    hide EndsInLast, OpensBefore;
    NothingOpened(items);
    var i := 0;
    while i < |items| - 1
      invariant 0 <= i <= |items| - 1 && t.Idle() && t.start == old(t.start)
      invariant EndsInLast(items[i..], t.runRemaining) && t.runRemaining >= 1 && t.gprsValid == OpensBefore(items, i)
      invariant RunBy(t.start.fpu, t.c, items[i..], t.runRemaining, t.gprsValid) == RunBy(t.start.fpu, c0, items, n, false)
      invariant LendsLast(items[i..], t.runRemaining) == LendsLast(items, n)
      invariant (t.statusRead || ReadsAny(items[i..])) == (read0 || ReadsAny(items))
      invariant ItemsFit(t.start, t.b, items[i..], operands[i..], ctx, t.statusRead) && PermFits(t.c.plan, items[i..])
    {
      ItemsStep(t.start.fpu, t.c, items, i, t.runRemaining, t.gprsValid);
      FitsStep(t.start, t.b, items, operands, ctx, t.statusRead, t.c.plan, i);
      ItemReady(t, items[i], operands[i], ctx);
      OpensNext(items, i);
      TranslateItem(t, items[i], operands[i], ctx, fold);
      TickAll(t, Consumed(items[i]));
      i := i + 1;
    }
  }

  lemma Whole(items: seq<Item>, operands: seq<Operand>, n: int)
    requires EndsInLast(items, n) && n > 0
    ensures items[0..] == items && operands[0..] == operands && items != []
  {
  }

  lemma NothingOpened(items: seq<Item>)
    ensures !OpensBefore(items, 0)
  {
  }

  /** The last item, whose counter may end inside it. */
  lemma LastItem(fpu: Fpu, c: Cached, items: seq<Item>, n: int, open: bool)
    requires items != [] && EndsInLast(items[|items| - 1..], n)
    ensures var i := items[|items| - 1];
      && 1 <= n <= Consumed(i) <= 2
      && RunBy(fpu, c, items[|items| - 1..], n, open) == ItemBy(fpu, c, i, n, open)
      && LendsLast(items[|items| - 1..], n) == (i.Both? && i.fusion.FxchArithp? && n == 1)
      && ReadsAny(items[|items| - 1..]) == Reads(i)
  {
    hide ItemBy;
    var i := items[|items| - 1];
    assert items[|items| - 1..] == [i] && [i][1..] == [];
    assert RunBy(fpu, ItemBy(fpu, c, i, n, open), [], n - Consumed(i), open || Opens(i)) == ItemBy(fpu, c, i, n, open);
  }

  /**
   A run of instructions and fusions with its counter.  If the last tick is lent while the cache is
   open, the cache stays open after the run, with its three registers in the mask.
   */
  method TranslateItems(t: Translator, items: seq<Item>, operands: seq<Operand>, ctx: Context, fold: bool, n: int)
    requires t.Idle() && t.runRemaining <= 0 && IsRun(items, n) && |operands| == |items|
    requires ItemsFit(t.start, t.b, items, operands, ctx, t.statusRead) && PermFits(t.c.plan, items)
    modifies t, t.r
    ensures Untouched(t, 0, old(t.start), old(t.statusRead) || ReadsAny(items)) && t.r.Valid() && t.MachineAt(t.r.cur)
    ensures Leave(t.c) == Leave(RunBy(t.start.fpu, old(t.c), items, n, false))
    ensures if LendsLast(items, n) && !OpensLast(items) then t.gprsValid && {22, 23, 28} <= t.r.freeGpr else t.Idle()
  {
    hide t.Idle, t.MachineAt, Stranded, OperandReady, OperandFits, UsesRax, InBounds, ItemsFit, PermFits, ReadsAny, Reads, RunBy, ItemBy, LendsLast, Opens, EndsInLast, OpensBefore, OpensLast, Leave;
    Unpinned(t);
    StartRun(t, n);
    TranslateFirst(t, items, operands, ctx, fold, n);
    var k := |items| - 1;
    LastItem(t.start.fpu, t.c, items, t.runRemaining, t.gprsValid);
    FitsStep(t.start, t.b, items, operands, ctx, t.statusRead, t.c.plan, k);
    ItemReady(t, items[k], operands[k], ctx);
    OpensNext(items, k);
    TranslateItem(t, items[k], operands[k], ctx, fold);
    TickAll(t, Consumed(items[k]));
  }

  /** The fused FLD ST(7) after FSTP would be a stack fault anyway. */
  lemma {:induction false} NoFaultInBounds(fpu: Fpu, a: Arch, p: Plan, items: seq<Item>)
    requires NoFault(fpu, a, items)
    ensures PermFits(p, items)
    decreases |items|
  {
    if items != [] {
      var i := items[0];
      if i.Both? && i.fusion.FstpFld? {
        StoreReads(fpu, a, i.fusion);
      }
      hide Eager, SafeFusion, Safe, ItemPlan;
      NoFaultInBounds(fpu, EagerItem(fpu, a, i), ItemPlan(p, i, |items| == 1), items[1..]);
    }
  }

  /**
   The meaning of the emitted code of a run with fusions, also if its counter ends inside the last one;
   every other guest register and cell is as it was.
   */
  method CompileItems(offset: nat, items: seq<Item>, operands: seq<Operand>, ctx: Context, fold: bool, n: int,
                      ghost s: State, ghost b: Word, ghost a: Arch) returns (code: seq<Instr>)
    requires offset < 0x100_0000 && s.skip == 0 && b == X(s.x[X18] + offset)
    requires Image(s, b, a.mem) && s.flags == a.flags && s.x[0] % TWO16 == a.ax
    requires IsRun(items, n) && |operands| == |items| && ItemsFit(s, b, items, operands, ctx, false) && PermFits(FRESH, items)
    ensures var t, m := Run(code, s), Leave(RunBy(s.fpu, Enter(a), items, n, false));
      && Image(t, b, m.mem) && t.flags == m.flags && t.skip == 0 && Outside(s, t, b)
      && t.x[0] == if ReadsAny(items) then StatusInRax(s.x[0], m.ax) else s.x[0]
  {
    hide Reaches, Image, Outside, ItemsFit, PermFits, ReadsAny, RunBy, StatusInRax, Step, IsRun;
    var r := new TranslationResult(s);
    var t := new Translator(r, offset, b, a);
    TranslateItems(t, items, operands, ctx, fold, n);
    ReachesIsRun(r.code, r.init, r.cur);
    hide Run;
    code := r.code;
  }
}
