/**
 The translation driver: translate_instruction and the hook around it take turns with the stock
 translator in allocating scratch registers from one free mask, while the x87 cache keeps some
 of them pinned (Translator.cpp, CustomTranslationHook.cpp, X87Cache.cpp).
 */
module Driver {
  import opened Words
  import opened Bits
  import opened Arm
  import opened Translation
  import opened BitmaskImmediate
  import opened Lookahead

  const BASE: Reg := 22
  const TOP: Reg := 23
  const ST_BASE: Reg := 28

  /** A base address kept in a scratch register, and the guest registers it was computed from. */
  datatype Carried = Carried(gpr: Reg, uses: set<Lookahead.Guest>)

  // ---------------------------------------------------------------- masks as bits

  /** The bits k .. n - 1 of the mask of a register set, as a number. */
  function MaskBits(s: set<Reg>, k: nat, n: nat): nat
    requires k <= n <= 32
    decreases n - k
  {
    if k == n then 0 else (if k in s then 1 else 0) + 2 * MaskBits(s, k + 1, n)
  }

  function BitCount(v: nat): nat {
    if v == 0 then 0 else v % 2 + BitCount(v / 2)
  }

  function Above(s: set<Reg>, k: nat): set<Reg> {
    set r | r in s && k <= r
  }

  lemma {:induction false} MaskCount(s: set<Reg>, k: nat)
    requires k <= 32
    ensures BitCount(MaskBits(s, k, 32)) == |Above(s, k)|
    decreases 32 - k
  {
    if k == 32 {
      assert Above(s, k) == {};
    } else {
      MaskCount(s, k + 1);
      if k in s {
        assert Above(s, k) == Above(s, k + 1) + {k as Reg};
      } else {
        assert Above(s, k) == Above(s, k + 1);
      }
      var rest := MaskBits(s, k + 1, 32);
      BitCountStep(rest, if k in s then 1 else 0);
    }
  }

  lemma BitCountStep(v: nat, b: Bit)
    ensures BitCount(b + 2 * v) == b + BitCount(v)
  {
    assert (b + 2 * v) / 2 == v && (b + 2 * v) % 2 == b;
  }

  /** v & (v - 1) clears exactly one bit. */
  lemma {:induction false} ClearLowest(v: nat)
    requires v > 0
    ensures And(v, v - 1) < v && BitCount(And(v, v - 1)) == BitCount(v) - 1
  {
    hide And, BitCount;
    var h := v / 2;
    AndStep(v, v - 1);
    BitCountStep(h, v % 2);
    if v % 2 == 1 {
      assert (v - 1) / 2 == h;
      AndSelf(h);
      BitCountStep(h, 0);
    } else {
      assert (v - 1) / 2 == h - 1;
      ClearLowest(h);
      BitCountStep(And(h, h - 1), 0);
    }
  }

  /** while (v) { v &= v - 1; have++; } */
  method PopCount(s: set<Reg>) returns (have: nat)
    ensures have == |s|
  {
    var v := MaskBits(s, 0, 32);
    MaskCount(s, 0);
    assert Above(s, 0) == s;
    hide And, MaskBits, BitCount;
    have := 0;
    while v != 0
      invariant have + BitCount(v) == |s|
      decreases v
    {
      ClearLowest(v);
      v := And(v, v - 1);
      have := have + 1;
    }
    NoBits();
  }

  lemma NoBits()
    ensures BitCount(0) == 0
  {
  }

  // ---------------------------------------------------------------- components outside the model

  /**
   What the whole-run compiler, the two-instruction fusions and the single translators decide on
   one call: how many instructions the compiler and the fusions take (zero: they decline), whether the compiler
   gives carried registers back, what it carries out of its run, whether the fusion is FXCH with a
   popping operation, which lends its tick, and whether a translator opens the cache.
   */
  datatype Outcome = Outcome(compiled: nat, gaveBack: bool, bases: seq<Option<Carried>>, rc: Option<Reg>,
                             fused: Option<nat>, lends: bool, opens: bool)

  /** Fused are two to four instructions that are there, the first an x87 instruction with a translator. */
  predicate Possible(w: Outcome, instrs: seq<Insn>, idx: nat)
    requires idx < |instrs|
  {
    && CarryFits(w.bases, w.rc)
    && (w.fused.Some? ==> 2 <= w.fused.value <= 4 && idx + w.fused.value <= |instrs| && instrs[idx].handled)
  }

  // ---------------------------------------------------------------- pieces of a block

  datatype Taker = Compiler | Fusion | Single | Stock

  /** What one call of the hook has translated, and which component did. */
  datatype Piece = Piece(first: nat, count: nat, taker: Taker)

  /** As many instructions as the component says it took. */
  predicate TakenBy(p: Piece, instrs: seq<Insn>, w: Outcome)
    requires p.first < |instrs|
  {
    && p.count > 0 && p.first + p.count <= |instrs|
    && match p.taker
       case Compiler => p.count <= w.compiled
       case Fusion => w.fused == Some(p.count)
       case Single => p.count == 1 && w.fused.None? && instrs[p.first].handled && !instrs[p.first].disabled
       case Stock => p.count == 1 && w.fused.None? && (instrs[p.first].disabled || !instrs[p.first].handled)
  }

  /** Each piece begins where the one before ends, the first at zero; n is where the last one ends. */
  predicate Consecutive(ps: seq<Piece>, n: nat) {
    if ps == [] then n == 0
    else
      var p := ps[|ps| - 1];
      p.first + p.count == n && Consecutive(ps[..|ps| - 1], p.first)
  }

  /** Piece i has instruction k. */
  predicate Has(ps: seq<Piece>, i: int, k: nat) {
    0 <= i < |ps| && ps[i].first <= k < ps[i].first + ps[i].count
  }

  /** Consecutive pieces have every instruction exactly once. */
  lemma {:induction false} EveryOnce(ps: seq<Piece>, n: nat, k: nat)
    requires Consecutive(ps, n)
    ensures k < n <==> exists i :: Has(ps, i, k)
    ensures forall i, j :: Has(ps, i, k) && Has(ps, j, k) ==> i == j
    decreases |ps|
  {
    if ps != [] {
      var l := |ps| - 1;
      var front := ps[..l];
      EveryOnce(front, ps[l].first, k);
      forall i: int
        ensures i != l ==> Has(ps, i, k) == Has(front, i, k)
      {
      }
      if k < ps[l].first {
        var i :| Has(front, i, k);
        assert Has(ps, i, k);
      } else if k < n {
        assert Has(ps, l, k);
      }
    }
  }

  // ---------------------------------------------------------------- the counter

  /** The counter of a run that starts at idx; zero if none does. */
  function FreshRun(o: Options, instrs: seq<Insn>, idx: nat): int
    requires idx <= |instrs|
  {
    var n := RunLength(instrs[idx..], o);
    if n >= 2 then Int16(n) else 0
  }

  /** An x87 instruction that is not disabled or, with keepalive on, a transcendental. */
  predicate Ours(i: Insn, o: Options) {
    (i.handled && !i.disabled) || (!i.handled && o.keepalive && i.transcendental)
  }

  /**
   Without the bridge, if exactly n instructions from idx on are ours, the counter is n as a 16-bit number,
   and zero if n is below two.
   */
  lemma FreshRunIs(o: Options, instrs: seq<Insn>, idx: nat, n: nat)
    requires !o.bridge && idx + n <= |instrs|
    requires forall i :: idx <= i < idx + n ==> Ours(instrs[i], o)
    requires idx + n < |instrs| ==> !Ours(instrs[idx + n], o)
    ensures FreshRun(o, instrs, idx) == if n < 2 then 0 else (n + 0x8000) % 0x1_0000 - 0x8000
  {
    var s := instrs[idx..];
    PlainRun(s, o);
    var m := RunLength(s, o);
    hide RunLength;
    assert forall i :: 0 <= i < |s| ==> s[i] == instrs[idx + i];
    assert m < |s| ==> Ours(s[m], o) == Ours(instrs[idx + m], o);
    assert n < |s| ==> Ours(s[n], o) == Ours(instrs[idx + n], o);
  }

  /** A run that is counted lies in the block; not cut to 16 bits, it ends on an instruction that is ours. */
  predicate Counts(o: Options, instrs: seq<Insn>, idx: nat, run: int) {
    run > 0 ==>
      && idx + run <= |instrs|
      && (forall i :: idx <= i < idx + run ==> Ours(instrs[i], o) || (o.bridge && Admissible(instrs[i])))
      && (|instrs| < 0x8000 ==> Ours(instrs[idx + run - 1], o))
  }

  lemma SmallInt16(n: nat)
    ensures Int16(n) <= n && (n < 0x8000 ==> Int16(n) == n)
  {
  }

  lemma FreshRunCounts(o: Options, instrs: seq<Insn>, idx: nat)
    requires idx <= |instrs|
    ensures Counts(o, instrs, idx, FreshRun(o, instrs, idx))
  {
    var s := instrs[idx..];
    RunContents(s, o);
    SmallInt16(RunLength(s, o));
    assert forall i :: 0 <= i < |s| ==> s[i] == instrs[idx + i];
    hide RunLength, Int16;
    var run := FreshRun(o, instrs, idx);
    forall i | idx <= i < idx + run
      ensures Ours(instrs[i], o) || (o.bridge && Admissible(instrs[i]))
    {
      assert instrs[i] == s[i - idx];
    }
  }

  /** What is left after k instructions. */
  lemma CountsLater(o: Options, instrs: seq<Insn>, idx: nat, run: int, k: nat, left: int)
    requires Counts(o, instrs, idx, run) && (left <= 0 || left == run - k)
    ensures Counts(o, instrs, idx + k, left)
  {
    hide Ours, Admissible;
  }

  lemma TakenIs(p: Piece, instrs: seq<Insn>, w: Outcome, o: Options, run: int)
    requires p.first < |instrs| && Possible(w, instrs, p.first) && Counts(o, instrs, p.first, run)
    requires p.taker.Compiler? ==> run >= 2 && w.compiled > 0 && p.count == if w.compiled < run then w.compiled else run
    requires p.taker.Fusion? ==> w.fused == Some(p.count)
    requires p.taker.Single? ==> p.count == 1 && w.fused.None? && instrs[p.first].handled && !instrs[p.first].disabled
    requires p.taker.Stock? ==> p.count == 1 && w.fused.None? && (instrs[p.first].disabled || !instrs[p.first].handled)
    ensures TakenBy(p, instrs, w)
  {
    hide CarryFits, Ours, Admissible;
  }

  /** Registers the compiler may carry: scratch, not X29, none of the cache's own. */
  predicate Carryable(r: Reg) {
    GprScratch(r) && r != X29 && r != BASE && r != TOP && r != ST_BASE
  }

  /** At most two registers are carried, the rounding-control one included. */
  predicate CarryFits(bases: seq<Option<Carried>>, rc: Option<Reg>) {
    && |bases| == 2
    && (rc.Some? ==> Carryable(rc.value) && (bases[0].None? || bases[1].None?))
    && (bases[0].Some? ==> Carryable(bases[0].value.gpr))
    && (bases[1].Some? ==> Carryable(bases[1].value.gpr))
  }

  function CarriedSet(bases: seq<Option<Carried>>, rc: Option<Reg>): set<Reg>
    requires |bases| == 2
  {
    (if bases[0].Some? then {bases[0].value.gpr} else {})
    + (if bases[1].Some? then {bases[1].value.gpr} else {})
    + (if rc.Some? then {rc.value} else {})
  }

  const FIXED: set<Reg> := {BASE, TOP, ST_BASE}

  lemma PoolSize()
    ensures |GPR_POOL| == 8
  {
    assert GPR_POOL == {22, 23, 24, 25, 26, 27, 28, 29};
  }

  /** Removing p from the pool leaves at least 8 - |p|. */
  lemma FreeAtLeast(p: set<Reg>, n: nat)
    requires |p| <= n
    ensures |GPR_POOL - p| >= 8 - n
  {
    PoolSize();
    var common := GPR_POOL * p;
    SubsetCount(common, p);
    assert GPR_POOL == (GPR_POOL - p) + common;
    assert (GPR_POOL - p) !! common;
  }

  lemma {:induction false} SubsetCount(a: set<Reg>, b: set<Reg>)
    requires a <= b
    ensures |a| <= |b|
  {
    assert b == a + (b - a) && a !! (b - a);
  }

  lemma CarriedCount(bases: seq<Option<Carried>>, rc: Option<Reg>)
    requires CarryFits(bases, rc)
    ensures |CarriedSet(bases, rc)| <= 2
  {
  }

  lemma UnionCount(a: set<Reg>, b: set<Reg>)
    ensures |a + b| <= |a| + |b|
  {
    assert a + b == a + (b - a) && a !! (b - a);
    SubsetCount(b - a, b);
  }

  // ---------------------------------------------------------------- the driver

  class TranslationDriver {
    const options: Options
    const cacheOff: bool
    const compilerOff: bool

    var runRemaining: int
    var gprsValid: bool
    var bases: seq<Option<Carried>>
    var rc: Option<Reg>
    var prevBlock: int
    var freeGpr: set<Reg>

    constructor (options: Options, cacheOff: bool, compilerOff: bool)
      ensures Inv() && freeGpr == GPR_POOL && runRemaining == 0
      ensures this.options == options
    {
      this.options, this.cacheOff, this.compilerOff := options, cacheOff, compilerOff;
      runRemaining, gprsValid, bases, rc := 0, false, [None, None], None;
      prevBlock, freeGpr := 0, GPR_POOL;
    }

    function Pinned(): set<Reg>
      requires |bases| == 2
      reads this`gprsValid, this`bases, this`rc
    {
      (if gprsValid then FIXED else {}) + CarriedSet(bases, rc)
    }

    predicate CarriedAny()
      requires |bases| == 2
      reads this`bases, this`rc
    {
      bases[0].Some? || bases[1].Some? || rc.Some?
    }

    /** Nothing is pinned outside a run, and nothing is carried before the cache is open. */
    predicate Pins()
      reads this`runRemaining, this`gprsValid, this`bases, this`rc
    {
      && CarryFits(bases, rc)
      && (runRemaining <= 0 ==> !gprsValid)
      && (!gprsValid ==> !CarriedAny())
    }

    /** The mask excludes the pins, exactly. */
    predicate Excluded()
      reads this
    {
      Pins() && freeGpr == GPR_POOL - Pinned()
    }

    /** Between calls: the mask excludes the pins, unless the hook has just made it complete again. */
    predicate Inv()
      reads this
    {
      Pins() && (freeGpr == GPR_POOL - Pinned() || (freeGpr == GPR_POOL && (options.bridge || options.keepalive)))
    }

    /** However much is pinned, three registers are free; five when nothing is carried. */
    lemma ManyFree()
      requires Excluded()
      ensures |freeGpr| >= 3 && (!CarriedAny() ==> |freeGpr| >= 5)
    {
      var fixed := if gprsValid then FIXED else {};
      CarriedCount(bases, rc);
      UnionCount(fixed, CarriedSet(bases, rc));
      FreeAtLeast(Pinned(), if CarriedAny() then 5 else 3);
    }

    // -------------------------------------------------------------- X87Cache

    method CarriedRelease()
      requires Pins()
      modifies this`bases, this`rc, this`freeGpr
      ensures Pins() && !CarriedAny()
      ensures freeGpr == old(freeGpr) + CarriedSet(old(bases), old(rc))
    {
      freeGpr := freeGpr + CarriedSet(bases, rc);
      bases, rc := [None, None], None;
    }

    /** No carried base was computed from one of these guest registers. */
    predicate KeptBy(written: set<Lookahead.Guest>)
      requires |bases| == 2
      reads this`bases
    {
      && (bases[0].Some? ==> bases[0].value.uses * written == {})
      && (bases[1].Some? ==> bases[1].value.uses * written == {})
    }

    /** Bases computed from a guest register that is being written are no longer valid. */
    method CarriedDropWritten(written: set<Lookahead.Guest>)
      requires Pins()
      modifies this`bases
      ensures Pins()
      ensures forall i :: 0 <= i < 2 ==>
        bases[i] == if old(bases)[i].Some? && old(bases)[i].value.uses * written != {} then None else old(bases)[i]
      ensures old(KeptBy(written)) ==> bases == old(bases)
    {
      var b0 := if bases[0].Some? && bases[0].value.uses * written != {} then None else bases[0];
      var b1 := if bases[1].Some? && bases[1].value.uses * written != {} then None else bases[1];
      assert bases == [bases[0], bases[1]];
      bases := [b0, b1];
    }

    method Invalidate()
      modifies this`runRemaining, this`gprsValid, this`bases, this`rc, this`freeGpr
      ensures Excluded() && freeGpr == GPR_POOL && runRemaining == 0 && Pinned() == {} && Nothing() && |freeGpr| == 8
    {
      runRemaining, gprsValid, bases, rc := 0, false, [None, None], None;
      freeGpr := GPR_POOL;
      PoolSize();
    }

    method Tick()
      requires CarryFits(bases, rc)
      modifies this`runRemaining, this`gprsValid, this`bases, this`rc
      ensures CarryFits(bases, rc) && (old(Pins()) ==> Pins())
      ensures runRemaining == if old(runRemaining) > 0 then old(runRemaining) - 1 else old(runRemaining)
      ensures runRemaining > 0 || old(runRemaining) <= 0 ==> gprsValid == old(gprsValid) && bases == old(bases) && rc == old(rc)
    {
      if runRemaining > 0 {
        runRemaining := runRemaining - 1;
        if runRemaining == 0 {
          gprsValid, bases, rc := false, [None, None], None;
        }
      }
    }

    /** After a translation of our own: one tick per instruction, then the mask is computed afresh. */
    method Finish(consumed: nat)
      requires CarryFits(bases, rc)
      modifies this`runRemaining, this`gprsValid, this`bases, this`rc, this`freeGpr
      ensures CarryFits(bases, rc) && (old(Pins()) ==> Excluded())
      ensures runRemaining == if old(runRemaining) <= 0 then old(runRemaining) else if consumed < old(runRemaining) then old(runRemaining) - consumed else 0
      ensures runRemaining > 0 || old(runRemaining) <= 0 ==> gprsValid == old(gprsValid) && bases == old(bases) && rc == old(rc)
      ensures runRemaining <= 0 ==> freeGpr == GPR_POOL
    {
      for i := 0 to consumed
        invariant CarryFits(bases, rc) && (old(Pins()) ==> Pins())
        invariant runRemaining == if old(runRemaining) <= 0 then old(runRemaining) else if i < old(runRemaining) then old(runRemaining) - i else 0
        invariant runRemaining > 0 || old(runRemaining) <= 0 ==> gprsValid == old(gprsValid) && bases == old(bases) && rc == old(rc)
      {
        Tick();
      }
      if Pins() {
        NoPins();
      }
      freeGpr := if runRemaining > 0 then GPR_POOL - Pinned() else GPR_POOL;
    }

    lemma NoPins()
      requires Pins()
      ensures runRemaining <= 0 ==> GPR_POOL - Pinned() == GPR_POOL
    {
    }

    // -------------------------------------------------------------- the parts that allocate

    lemma ReleasedExactly()
      requires Pins()
      ensures (GPR_POOL - Pinned()) + CarriedSet(bases, rc) == GPR_POOL - (if gprsValid then FIXED else {})
    {
    }

    method Release()
      requires Excluded()
      modifies this`bases, this`rc, this`freeGpr
      ensures Excluded() && !CarriedAny()
    {
      ReleasedExactly();
      CarriedRelease();
    }

    /** The whole-run compiler allocates from the mask; it takes at most the run, and what it pins is its outcome. */
    method Compile(w: Outcome) returns (consumed: nat)
      requires Excluded() && runRemaining >= 2 && CarryFits(w.bases, w.rc)
      modifies this`gprsValid, this`bases, this`rc, this`freeGpr
      ensures consumed == if w.compiled < runRemaining then w.compiled else runRemaining
      ensures Pins() && (consumed == 0 ==> Excluded() && gprsValid == old(gprsValid))
    {
      consumed := if w.compiled < runRemaining then w.compiled else runRemaining;
      if consumed > 0 {
        gprsValid := true;
        bases, rc := [None, None], None;
        if runRemaining > consumed {
          bases, rc := w.bases, w.rc;
        }
      } else if w.gaveBack {
        Release();
      }
    }

    /** A fusion or a single translator: it may open the cache, taking the three fixed slots. */
    method TranslateX87(w: Outcome)
      requires Excluded() && !CarriedAny()
      modifies this`gprsValid
      ensures Pins() && (gprsValid == old(gprsValid) || runRemaining > 0)
    {
      if runRemaining > 0 && !gprsValid && w.opens {
        assert FIXED <= freeGpr;
        gprsValid := true;
      }
    }

    /**
     FXCH with a popping operation: the counter is lowered while the operation is translated and
     raised again unless that was the last tick.  With the cache open, that leaves it open outside runs.
     */
    method FuseLending(w: Outcome)
      requires Excluded()
      modifies this`runRemaining, this`gprsValid
      ensures runRemaining == if old(runRemaining) == 1 then 0 else old(runRemaining)
      ensures gprsValid == old(gprsValid) || runRemaining > 0
      ensures Pins() <==> !(old(runRemaining) == 1 && old(gprsValid))
    {
      var borrowed := runRemaining > 0;
      if borrowed {
        runRemaining := runRemaining - 1;
      }
      if runRemaining > 0 && !gprsValid && w.opens {
        assert FIXED <= freeGpr;
        gprsValid := true;
      }
      if borrowed && runRemaining > 0 {
        runRemaining := runRemaining + 1;
      }
    }

    /** The flush before a runtime routine: four scratch registers besides the pins. */
    method RuntimeFlush()
      requires Excluded() && !CarriedAny()
      ensures {24, 25, 26, 27} <= freeGpr
    {
    }

    /** The stock translator allocates whatever the mask offers, and leaves some mask behind. */
    method StockTranslate(i: Insn, left: set<Reg>)
      requires Excluded()
      requires Admissible(i) ==> |freeGpr| > i.demand.value
      modifies this`freeGpr
      ensures freeGpr == left
    {
      freeGpr := left;
    }

    // -------------------------------------------------------------- translate_instruction

    /** No run, nothing pinned, all scratch registers free. */
    predicate Nothing()
      reads this
    {
      runRemaining == 0 && !gprsValid && bases == [None, None] && rc == None && freeGpr == GPR_POOL
    }

    /** What a lent tick leaves behind: an open cache outside runs, and a complete mask. */
    predicate Stranded()
      reads this
    {
      CarryFits(bases, rc) && runRemaining == 0 && gprsValid && !CarriedAny() && freeGpr == GPR_POOL
    }

    /** The counter with which the instruction at idx is translated. */
    function Counted(block: int, instrs: seq<Insn>, idx: nat): int
      requires idx <= |instrs|
      reads this`runRemaining, this`prevBlock
    {
      var kept := if block != prevBlock then 0 else runRemaining;
      if kept > 0 || cacheOff then kept
      else if RunLength(instrs[idx..], options) >= 2 then FreshRun(options, instrs, idx)
      else kept
    }

    /** What is left of a run in this block lies ahead of idx. */
    predicate Ahead(block: int, instrs: seq<Insn>, idx: nat)
      reads this`runRemaining, this`prevBlock
    {
      block == prevBlock ==> Counts(options, instrs, idx, runRemaining)
    }

    lemma CountedAhead(block: int, instrs: seq<Insn>, idx: nat)
      requires idx <= |instrs| && Ahead(block, instrs, idx)
      ensures Counts(options, instrs, idx, Counted(block, instrs, idx))
    {
      FreshRunCounts(options, instrs, idx);
      hide RunLength, FreshRun, Ours, Admissible;
    }

    /** Outside a run, how long the one that starts here is. */
    method CountRun(instrs: seq<Insn>, idx: nat)
      requires idx <= |instrs|
      modifies this`runRemaining
      ensures runRemaining ==
        if old(runRemaining) > 0 || cacheOff || RunLength(instrs[idx..], options) < 2 then old(runRemaining)
        else FreshRun(options, instrs, idx)
    {
      if runRemaining <= 0 {
        if !cacheOff {
          var run := Lookahead.Lookahead(instrs, idx, options);
          if run >= 2 {
            runRemaining := Int16(run);
          }
        }
      }
    }

    /**
     New block: forget everything.  New run: count it.  Afterwards the mask is trustworthy, unless a
     tick was lent before in this block: then a run that starts finds its cache open, and its three
     registers in the mask if neither switch makes the driver look.
     */
    method Prepare(block: int, instrs: seq<Insn>, idx: nat)
      requires (Inv() || Stranded()) && idx < |instrs|
      modifies this
      ensures prevBlock == block && runRemaining == old(Counted(block, instrs, idx))
      ensures old(Inv()) || block != old(prevBlock) ==> Excluded()
      ensures old(runRemaining) > 0 && block == old(prevBlock) ==>
        runRemaining == old(runRemaining) && gprsValid == old(gprsValid) && bases == old(bases) && rc == old(rc)
      ensures old(Inv()) && !(old(runRemaining) > 0 && block == old(prevBlock)) ==> !gprsValid
      ensures old(Stranded()) && block == old(prevBlock) ==>
        && gprsValid
        && (Excluded() <==> runRemaining > 0 && (options.bridge || options.keepalive))
        && (!(options.bridge || options.keepalive) ==> FIXED <= freeGpr)
    {
      hide FreshRun, RunLength;
      if block != prevBlock {
        Invalidate();
        prevBlock := block;
      }
      CountRun(instrs, idx);
      if (options.bridge || options.keepalive) && runRemaining > 0 {
        freeGpr := freeGpr - Pinned();
      }
    }

    /** A tick is lent while the cache is open. */
    predicate Lent(block: int, w: Outcome)
      reads this`runRemaining, this`gprsValid, this`prevBlock
    {
      w.fused.Some? && w.lends && runRemaining == 1 && gprsValid && block == prevBlock
    }

    /** The whole-run compiler, for two instructions or more. */
    method TryCompile(w: Outcome) returns (consumed: nat)
      requires Excluded() && CarryFits(w.bases, w.rc)
      modifies this`runRemaining, this`gprsValid, this`bases, this`rc, this`freeGpr
      ensures Excluded()
      ensures consumed == if compilerOff || old(runRemaining) < 2 then 0 else if w.compiled < old(runRemaining) then w.compiled else old(runRemaining)
      ensures runRemaining == old(runRemaining) - consumed
      ensures consumed == 0 ==> gprsValid == old(gprsValid)
    {
      if !compilerOff && runRemaining >= 2 {
        consumed := Compile(w);
        if consumed > 0 {
          Finish(consumed);
        }
      } else {
        consumed := 0;
      }
    }

    /** A fused pair, and the ticks for it. */
    method Fuse(w: Outcome)
      requires Excluded() && !CarriedAny() && w.fused.Some?
      modifies this`runRemaining, this`gprsValid, this`bases, this`rc, this`freeGpr
      ensures Excluded() <==> !(w.lends && old(runRemaining) == 1 && old(gprsValid))
      ensures Excluded() || Stranded()
      ensures w.fused.value >= 2 ==>
        runRemaining == if old(runRemaining) <= 0 then old(runRemaining) else if w.fused.value < old(runRemaining) then old(runRemaining) - w.fused.value else 0
    {
      if w.lends {
        FuseLending(w);
      } else {
        TranslateX87(w);
      }
      Finish(w.fused.value);
    }

    /** Does the compiler take the instruction, with this counter? */
    predicate Compiles(w: Outcome, run: int) {
      !compilerOff && run >= 2 && w.compiled > 0
    }

    method TranslateInstruction(block: int, instrs: seq<Insn>, idx: nat, w: Outcome) returns (next: Option<nat>, taker: Taker)
      requires Inv() && idx < |instrs| && Possible(w, instrs, idx)
      modifies this
      ensures Excluded() <==> !old(Lent(block, w))
      ensures old(Lent(block, w)) ==> Stranded() && next.Some?
      ensures next.None? && Admissible(instrs[idx]) ==> |freeGpr| > instrs[idx].demand.value
      ensures var i := instrs[idx];
        next.None? && (i.disabled || (!(options.keepalive && i.transcendental) && !(options.bridge && Admissible(i)))) ==> Nothing()
      ensures next.None? ==> options.bridge || options.keepalive || Pinned() == {}
      // what is taken, and how far the counter goes
      ensures prevBlock == block
      ensures var i, run := instrs[idx], old(Counted(block, instrs, idx));
        if Compiles(w, run) then
          var n := if w.compiled < run then w.compiled else run;
          next == Some(idx + n) && taker == Compiler && runRemaining == run - n
        else if w.fused.Some? then
          && next == Some(idx + w.fused.value) && taker == Fusion
          && runRemaining == if run <= 0 then run else if w.fused.value < run then run - w.fused.value else 0
        else if i.handled && !i.disabled then
          next == Some(idx + 1) && taker == Single && runRemaining == if run <= 0 then run else run - 1
        else
          next == None && taker == Stock && (runRemaining == 0 || (!i.handled && runRemaining == run - 1 >= 0))
    {
      hide CarriedSet, Counted, Pinned, GPR_POOL;
      var i := instrs[idx];
      Prepare(block, instrs, idx);
      var consumed := TryCompile(w);
      if consumed > 0 {
        return Some(idx + consumed), Compiler;
      }
      if CarriedAny() && i.handled {
        Release();
      }
      if w.fused.Some? {
        Fuse(w);
        return Some(idx + w.fused.value), Fusion;
      }
      var own := TranslateAlone(i, w);
      if own {
        return Some(idx + 1), Single;
      }
      return None, Stock;
    }

    /** Neither compiled nor fused: refused, translated alone, or not an instruction of ours. */
    method TranslateAlone(i: Insn, w: Outcome) returns (own: bool)
      requires Excluded() && (i.handled ==> !CarriedAny())
      modifies this
      ensures Excluded()
      ensures own <==> i.handled && !i.disabled
      ensures if own then runRemaining == (if old(runRemaining) <= 0 then old(runRemaining) else old(runRemaining) - 1)
        else runRemaining == 0 || (!i.handled && runRemaining == old(runRemaining) - 1 >= 0)
      ensures prevBlock == old(prevBlock)
      ensures !own && (i.disabled || (!(options.keepalive && i.transcendental) && !(options.bridge && Admissible(i)))) ==> Nothing()
      ensures !own && Admissible(i) ==> |freeGpr| > i.demand.value
      ensures !own ==> options.bridge || options.keepalive || Pinned() == {}
    {
      hide CarriedSet, Pinned, GPR_POOL;
      if i.disabled {
        Invalidate();
        return false;
      }
      if i.handled {
        TranslateX87(w);
        Finish(1);
        return true;
      }
      HandOver(i);
      return false;
    }

    /** The default case: a routine that keeps the cache, a bridged instruction, or the end of the run. */
    method HandOver(i: Insn)
      requires Excluded()
      modifies this
      ensures Excluded()
      ensures Admissible(i) ==> |freeGpr| > i.demand.value
      ensures old(runRemaining) > 1 && ((options.keepalive && i.transcendental) || (options.bridge && Admissible(i))) ==>
        runRemaining == old(runRemaining) - 1 && gprsValid == old(gprsValid)
      ensures runRemaining == 0 || runRemaining == old(runRemaining) - 1 >= 0
      ensures !(options.keepalive && i.transcendental) && !(options.bridge && Admissible(i)) ==> Nothing()
      ensures prevBlock == old(prevBlock)
      ensures options.bridge || options.keepalive || Pinned() == {}
    {
      hide CarriedSet, Pinned, GPR_POOL;
      if runRemaining > 0 && options.keepalive && i.transcendental {
        KeepAlive();
      } else if runRemaining > 0 && options.bridge && Admissible(i) {
        Bridge(i);
      } else {
        Invalidate();
      }
    }

    /** A routine that keeps the fixed registers: deferred state is written, carried registers are given back. */
    method KeepAlive()
      requires Excluded() && runRemaining > 0
      modifies this`runRemaining, this`gprsValid, this`bases, this`rc, this`freeGpr
      ensures Excluded() && |freeGpr| > MAX_BRIDGE_DEMAND
      ensures runRemaining == old(runRemaining) - 1 && (runRemaining > 0 ==> gprsValid == old(gprsValid))
    {
      hide CarriedSet;
      if CarriedAny() {
        Release();
      }
      RuntimeFlush();
      Finish(1);
      KeptFree();
    }

    lemma KeptFree()
      requires Excluded()
      ensures !CarriedAny() ==> |freeGpr| > MAX_BRIDGE_DEMAND
    {
      ManyFree();
    }

    /** Without carried registers at most three of the eight are pinned. */
    lemma FixedRoom()
      requires Pins()
      ensures !CarriedAny() ==> |GPR_POOL - Pinned()| >= 5
    {
      if !CarriedAny() {
        assert Pinned() == if gprsValid then FIXED else {};
        FreeAtLeast(Pinned(), 3);
      }
    }

    /** Carried registers are given back unless more than the demand is free without them. */
    method MakeRoom(i: Insn)
      requires Pins() && Admissible(i)
      modifies this`bases, this`rc, this`freeGpr
      ensures Pins() && |GPR_POOL - Pinned()| > i.demand.value
      ensures old(|GPR_POOL - Pinned()|) > i.demand.value && old(KeptBy(i.written)) ==> bases == old(bases) && rc == old(rc)
    {
      hide CarriedSet;
      if CarriedAny() {
        CarriedDropWritten(i.written);
      }
      var need := i.demand.value;
      var have := PopCount(GPR_POOL - Pinned());
      if have <= need && CarriedAny() {
        CarriedRelease();
      }
      FixedRoom();
    }

    method Bridge(i: Insn)
      requires Excluded() && runRemaining > 0 && Admissible(i)
      modifies this`runRemaining, this`gprsValid, this`bases, this`rc, this`freeGpr
      ensures Excluded() && |freeGpr| > i.demand.value
      ensures runRemaining == old(runRemaining) - 1 && (runRemaining > 0 ==> gprsValid == old(gprsValid))
    {
      hide CarriedSet, CarryFits;
      MakeRoom(i);
      Finish(1);
      NoPins();
      PoolSize();
    }

    // -------------------------------------------------------------- the hook

    /**
     One call of the hook, with any outcome of the components outside: whoever translates finds
     the pins out of the mask (the requirements of Compile, TranslateX87, FuseLending, RuntimeFlush
     and StockTranslate), even though the mask is made complete after each stock translation.  The
     invariant is kept exactly if no tick is lent with the cache open.
     */
    method HookTranslate(block: int, instrs: seq<Insn>, idx: nat, w: Outcome, left: set<Reg>) returns (piece: Piece)
      requires Inv() && idx < |instrs| && Possible(w, instrs, idx) && Ahead(block, instrs, idx)
      modifies this
      ensures Inv() <==> !old(Lent(block, w))
      ensures old(Lent(block, w)) ==> Stranded()
      ensures piece.first == idx && TakenBy(piece, instrs, w) && prevBlock == block
      ensures Ahead(block, instrs, idx + piece.count)
      // the end of a run stays where it is while the run lasts
      ensures runRemaining > 0 ==> idx + piece.count + runRemaining == idx + old(Counted(block, instrs, idx))
    {
      hide Counted, Counts, Lent, Possible, Admissible, Pinned, Excluded, Inv, Stranded, Nothing, TakenBy;
      ghost var run := Counted(block, instrs, idx);
      CountedAhead(block, instrs, idx);
      var next, taker := TranslateInstruction(block, instrs, idx, w);
      Either();
      if next.Some? {
        piece := Piece(idx, next.value - idx, taker);
      } else {
        HandToStock(instrs[idx], left);
        piece := Piece(idx, 1, taker);
      }
      CountsLater(options, instrs, idx, run, piece.count, runRemaining);
      TakenIs(piece, instrs, w, options, run);
    }

    /** The stock translator takes its turn, and the mask is made complete afterwards. */
    method HandToStock(i: Insn, left: set<Reg>)
      requires Excluded() && (Admissible(i) ==> |freeGpr| > i.demand.value)
      requires options.bridge || options.keepalive || Pinned() == {}
      modifies this`freeGpr
      ensures Inv()
    {
      hide CarriedSet;
      StockTranslate(i, left);
      freeGpr := GPR_POOL;
      assert Pinned() == {} ==> GPR_POOL - Pinned() == GPR_POOL;
    }

    lemma Either()
      ensures Excluded() ==> Inv()
      ensures Stranded() ==> !Inv()
    {
      hide CarriedSet, Pinned;
    }

    /** A whole block, piece by piece, with any outcomes, up to a lent tick. */
    method TranslateBlock(block: int, instrs: seq<Insn>, outcomes: seq<Outcome>, left: seq<set<Reg>>) returns (pieces: seq<Piece>, idx: nat, lost: bool)
      requires Inv() && Ahead(block, instrs, 0) && |outcomes| == |instrs| && |left| == |instrs|
      requires forall i :: 0 <= i < |instrs| ==> Possible(outcomes[i], instrs, i)
      modifies this
      ensures Inv() <==> !lost
      ensures lost ==> Stranded() && exists i :: 0 <= i < |instrs| && outcomes[i].fused.Some? && outcomes[i].lends
      ensures Consecutive(pieces, idx) && idx <= |instrs| && (!lost ==> idx == |instrs|)
      ensures forall p :: p in pieces ==> p.first < |instrs| && TakenBy(p, instrs, outcomes[p.first])
    {
      hide Inv, Stranded, TakenBy, Ahead, Possible, Counted, Consecutive;
      pieces, idx, lost := [], 0, false;
      NoPieces();
      while idx < |instrs| && !lost
        invariant idx <= |instrs| && Consecutive(pieces, idx) && Ahead(block, instrs, idx)
        invariant Inv() <==> !lost
        invariant lost ==> Stranded() && exists i :: 0 <= i < |instrs| && outcomes[i].fused.Some? && outcomes[i].lends
        invariant forall p :: p in pieces ==> p.first < |instrs| && TakenBy(p, instrs, outcomes[p.first])
        decreases |instrs| - idx
      {
        lost := Lent(block, outcomes[idx]);
        var p := HookTranslate(block, instrs, idx, outcomes[idx], left[idx]);
        TakenSize(p, instrs, outcomes[idx]);
        OnePiece(pieces, p);
        pieces, idx := pieces + [p], idx + p.count;
      }
    }
  }

  lemma NoPieces()
    ensures Consecutive([], 0)
  {
  }

  lemma OnePiece(ps: seq<Piece>, p: Piece)
    requires Consecutive(ps, p.first)
    ensures Consecutive(ps + [p], p.first + p.count)
  {
    assert (ps + [p])[..|ps|] == ps;
  }

  lemma TakenSize(p: Piece, instrs: seq<Insn>, w: Outcome)
    requires p.first < |instrs| && TakenBy(p, instrs, w)
    ensures p.count > 0 && p.first + p.count <= |instrs|
  {
  }
}
