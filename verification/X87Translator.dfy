/**
 The per-instruction x87 translators with their cross-instruction cache (TranslatorX87.cpp,
 TranslatorX87Internal.hpp, struct X87Cache).  The ghost field `c` is the abstract state the
 emitted code has reached; every method says how it moves.
 */
module X87Translator {
  import opened Words
  import opened X87Model
  import opened X87Deferred
  import opened Arm
  import opened Translation
  import opened X87Code
  import opened PermFlush

  /** Outside the X87State, the scratch registers and RAX nothing has changed; for RAX see MachineAt. */
  ghost predicate Outside(s: State, t: State, b: Word) {
    && t.w == s.w && t.fpu == s.fpu && t.tls == s.tls
    && (forall r: Reg :: 0 < r && !GprScratch(r) ==> t.x[r] == s.x[r])
    && (forall r: Reg :: !FprScratch(r) ==> t.d[r] == s.d[r])
    && (forall a: Word :: a < b || b + 6 <= a ==> Read16(t, a) == Read16(s, a))
    && (forall a: Word :: a < b + 8 || b + 0x48 <= a ==> Read64(t, a) == Read64(s, a))
  }

  /** Writing scratch registers and the flags only. */
  lemma ScratchOnly(s: State, t: State, u: State, b: Word, m: X87, xs: set<Reg>)
    requires Outside(s, t, b) && Image(t, b, m) && u == t.(x := u.x, flags := u.flags) && KeepsX(t, u, xs)
    requires forall r :: r in xs ==> GprScratch(r)
    ensures Outside(s, u, b) && Image(u, b, m) && u.x[0] == t.x[0] && u.x[X18] == t.x[X18]
  {
    hide EncodeSw, EncodeTags;
  }

  /** RAX after FNSTSW AX: bits 31 to 16 survive, bits 63 to 32 do not. */
  function StatusInRax(rax: Word, ax: Half): Word {
    W(rax) - rax % TWO16 + ax
  }

  lemma KeptX(s: State, t: State, b: Word, tmp: Reg)
    requires Keeps(s, t, b, {tmp}, {})
    ensures forall k: Reg :: k != tmp ==> t.x[k] == s.x[k]
  {
  }

  lemma ImageFits(s: State, b: Word, m: X87)
    requires Image(s, b, m)
    ensures b + 0x48 <= TWO64
  {
  }

  lemma SelfOutside(s: State, b: Word)
    ensures Outside(s, s, b)
  {
  }

  /** X22 := the address of the X87State, X23 := TOP. */
  method EmitBaseAndTop(r: TranslationResult, offset: nat, ghost b: Word, ghost m: X87)
    requires r.Valid() && offset < 0x100_0000 && Image(r.cur, b, m) && b == X(r.cur.x[X18] + offset)
    modifies r`code, r`cur
    ensures r.Valid() && r.cur == old(r.cur).(x := r.cur.x) && KeepsX(old(r.cur), r.cur, {22, 23})
    ensures r.cur.x[22] == b && r.cur.x[23] == m.sw.top
  {
    hide Reaches, EncodeSw, EncodeTags;
    EmitBase(r, offset, 22);
    EmitLoadTop(r, offset, 22, 23, b, m);
  }

  class Translator {
    const r: TranslationResult
    const offset: nat

    // struct X87Cache
    var runRemaining: int
    var gprsValid: bool
    var topDirty: bool
    var pushCount: nat
    var popCount: int
    var perm: Perm
    var permDirty: bool

    ghost const b: Word
    ghost var start: State
    ghost var statusRead: bool
    ghost var lent: bool
    ghost var c: Cached

    constructor (r: TranslationResult, offset: nat, ghost b: Word, ghost a: Arch)
      requires r.Valid() && r.freeGpr == GPR_POOL && r.freeFpr == FPR_POOL
      requires offset < 0x100_0000 && b == X(r.cur.x[X18] + offset)
      requires Image(r.cur, b, a.mem) && r.cur.flags == a.flags && r.cur.x[0] % TWO16 == a.ax
      ensures Idle() && c == Enter(a) && runRemaining == 0
      ensures this.r == r && this.offset == offset && this.b == b && start == r.cur && !statusRead
    {
      hide Reaches, Image, Outside, EncodeSw, EncodeTags;
      ImageFits(r.cur, b, a.mem);
      SelfOutside(r.cur, b);
      this.r, this.offset, this.b, this.start := r, offset, b, r.cur;
      runRemaining, gprsValid, topDirty, pushCount, popCount := 0, false, false, 0, 0;
      perm, permDirty := IDENTITY, false;
      c, statusRead, lent := Enter(a), false, false;
    }

    /** The pinned registers: X22 holds the base, X23 TOP, X28 the address of st[0]. */
    function StBase(): int
      reads this`gprsValid
    {
      if gprsValid then 28 else -1
    }

    ghost predicate Bookkeeping()
      reads this
    {
      && c.plan.dirty == topDirty && c.plan.pushes == pushCount && c.plan.pops == popCount
      && c.plan.perm == perm && c.plan.permDirty == permDirty
      && pushCount <= 8 && -128 <= popCount < 128
      && (!gprsValid ==> !topDirty && pushCount == 0 && popCount == 0 && c.top == c.mem.sw.top)
    }

    ghost predicate MachineAt(s: State)
      reads this
    {
      && Image(s, b, c.mem)
      && b + 0x48 <= TWO64
      && b == X(s.x[X18] + offset)
      && s.flags == c.flags
      && s.x[0] % TWO16 == c.ax
      && s.x[0] == (if statusRead then StatusInRax(start.x[0], c.ax) else start.x[0])
      && Outside(start, s, b)
    }

    /**
     Between Begin and End, with the scratch registers `xs` and `ds` in use.  The cache is open
     inside runs only, unless the last tick of a run was lent.
     */
    ghost predicate Working(xs: set<Reg>, ds: set<Reg>)
      reads this, r
    {
      && r.Valid()
      && offset < 0x100_0000
      && Bookkeeping()
      && MachineAt(r.cur)
      && (if lent then runRemaining == 0 && gprsValid else (runRemaining > 0 <==> gprsValid))
      && r.cur.x[22] == b && r.cur.x[23] == c.top
      && (gprsValid ==> r.cur.x[28] == b + 8)
      && (forall reg: Reg :: reg in r.freeGpr <==>
            GprScratch(reg) && reg != 22 && reg != 23 && !(gprsValid && reg == 28) && reg !in xs)
      && (forall reg: Reg :: reg in r.freeFpr <==> FprScratch(reg) && reg !in ds)
    }

    /** Between instructions. */
    ghost predicate Idle()
      reads this, r
    {
      && r.Valid()
      && offset < 0x100_0000
      && !lent
      && Bookkeeping()
      && MachineAt(r.cur)
      && (gprsValid ==> runRemaining > 0 && r.cur.x[22] == b && r.cur.x[23] == c.top && r.cur.x[28] == b + 8)
      && (forall reg: Reg :: reg in r.freeGpr <==> GprScratch(reg) && !(gprsValid && reg in {22, 23, 28}))
      && (forall reg: Reg :: reg in r.freeFpr <==> FprScratch(reg))
    }

    /** What a snippet that changed only memory of the X87State and scratch registers leaves as it was. */
    lemma KeptAll(s: State, xs: set<Reg>, ds: set<Reg>)
      requires Outside(start, s, b) && Keeps(s, r.cur, b, xs, ds)
      requires forall k :: k in xs ==> Temp(k)
      requires forall k :: k in ds ==> FprScratch(k)
      ensures Outside(start, r.cur, b) && r.cur.flags == s.flags && r.cur.fpu == s.fpu
      ensures r.cur.x[0] == s.x[0] && r.cur.x[X18] == s.x[X18]
      ensures r.cur.x[22] == s.x[22] && r.cur.x[23] == s.x[23] && r.cur.x[28] == s.x[28]
      ensures forall k: Reg :: k !in ds ==> r.cur.d[k] == s.d[k]
    {
    }

    /** alloc_free_gpr and free_gpr while an instruction is being translated. */
    method Take(ghost xs: set<Reg>, ghost ds: set<Reg>) returns (t: Reg)
      requires Working(xs, ds) && 27 !in xs
      modifies r`freeGpr
      ensures Working(xs + {t}, ds) && t !in xs && Temp(t)
      ensures forall k :: Temp(k) && k !in xs ==> t <= k
    {
      hide Reaches, MachineAt;
      assert 27 in r.freeGpr;
      t := r.AllocFreeGpr();
    }

    method Give(t: Reg, ghost xs: set<Reg>, ghost ds: set<Reg>)
      requires Working(xs + {t}, ds) && t !in xs && Temp(t)
      modifies r`freeGpr
      ensures Working(xs, ds)
    {
      hide Reaches, MachineAt;
      r.FreeGpr(t);
    }

    method TakeFpr(ghost xs: set<Reg>, ghost ds: set<Reg>) returns (t: Reg)
      requires Working(xs, ds) && 31 !in ds
      modifies r`freeFpr
      ensures Working(xs, ds + {t}) && t !in ds && FprScratch(t)
      ensures forall k :: FprScratch(k) && k !in ds ==> t <= k
    {
      hide Reaches, MachineAt;
      assert 31 in r.freeFpr;
      t := r.AllocFreeFpr();
    }

    method GiveFpr(t: Reg, ghost xs: set<Reg>, ghost ds: set<Reg>)
      requires Working(xs, ds + {t}) && t !in ds && FprScratch(t)
      modifies r`freeFpr
      ensures Working(xs, ds)
    {
      hide Reaches, MachineAt;
      r.FreeFpr(t);
    }

    // -------------------------------------------------------------- entering and leaving

    method Begin()
      requires Idle()
      modifies this`gprsValid, r
      ensures Working({}, {}) && c == old(c) && !lent && (gprsValid <==> runRemaining > 0)
    {
      hide Reaches, Image, Outside, StatusInRax;
      if runRemaining > 0 && gprsValid {
        return;
      }
      var base := r.AllocGpr(0);
      var top := r.AllocGpr(1);
      EmitBaseAndTop(r, offset, b, c.mem);
      if runRemaining > 0 {
        var st := r.AllocGpr(6);
        r.EmitAddImm(true, false, false, 8, base, st);
        gprsValid := true;
      }
      ScratchOnly(start, old(r.cur), r.cur, b, c.mem, {22, 23, 28});
    }

    // -------------------------------------------------------------- flushing

    method FlushTop(tmp: Reg, ghost xs: set<Reg>, ghost ds: set<Reg>)
      requires Working(xs, ds) && tmp in xs && Temp(tmp)
      modifies this`topDirty, this`c, r`code, r`cur
      ensures Working(xs, ds) && c == X87Deferred.FlushTop(old(c))
      ensures forall k: Reg :: k in ds ==> r.cur.d[k] == old(r.cur.d[k])
      ensures forall k: Reg :: k != tmp ==> r.cur.x[k] == old(r.cur.x[k])
    {
      hide Reaches, Image, Outside, StatusInRax, Keeps;
      if topDirty {
        EmitStoreTop(r, 22, 23, tmp, b, c.mem, c.top);
        KeptAll(old(r.cur), {tmp}, {});
        KeptX(old(r.cur), r.cur, b, tmp);
        c := X87Deferred.FlushTop(c);
        topDirty := false;
      }
    }

    method FlushDeferredPops(tmp: Reg, ghost xs: set<Reg>, ghost ds: set<Reg>)
      requires Working(xs, ds) && tmp in xs && Temp(tmp) && TwoFree(xs)
      modifies this`popCount, this`c, r
      ensures Working(xs, ds) && c == FlushPops(old(c))
      ensures forall k: Reg :: k in ds ==> r.cur.d[k] == old(r.cur.d[k])
    {
      hide Reaches, Image, Outside, StatusInRax, Keeps, SetTags;
      if popCount > 0 {
        var tmp2 := Take(xs, ds);
        var tagw := Take(xs + {tmp2}, ds);
        EmitTagSetEmptyBatch(r, 22, 23, tmp, tmp2, tagw, popCount, b, c.mem, c.top);
        KeptAll(old(r.cur), {tmp, tmp2, tagw}, {});
        c := FlushPops(c);
        popCount := 0;
        Give(tagw, xs + {tmp2}, ds);
        Give(tmp2, xs, ds);
      }
    }

    method FlushDeferredPushes(tmp: Reg, tmp2: Reg, ghost xs: set<Reg>, ghost ds: set<Reg>)
      requires Working(xs, ds) && tmp in xs && tmp2 in xs && tmp != tmp2 && Temp(tmp) && Temp(tmp2) && 27 !in xs
      modifies this`pushCount, this`c, r
      ensures Working(xs, ds) && c == FlushPushes(old(c))
      ensures forall k: Reg :: k in ds ==> r.cur.d[k] == old(r.cur.d[k])
    {
      hide Reaches, MachineAt, FlushPushes;
      if pushCount == 1 {
        FlushOnePush(tmp, tmp2, xs, ds);
      } else if pushCount > 1 {
        var tagw := Take(xs, ds);
        FlushPushBatch(tmp, tmp2, tagw, xs + {tagw}, ds);
        Give(tagw, xs, ds);
      } else {
        NoPushes(c);
      }
    }

    method FlushOnePush(tmp: Reg, tmp2: Reg, ghost xs: set<Reg>, ghost ds: set<Reg>)
      requires Working(xs, ds) && tmp in xs && tmp2 in xs && tmp != tmp2 && Temp(tmp) && Temp(tmp2) && pushCount == 1
      modifies this`pushCount, this`c, r`code, r`cur
      ensures Working(xs, ds) && c == FlushPushes(old(c))
      ensures forall k: Reg :: k in ds ==> r.cur.d[k] == old(r.cur.d[k])
    {
      hide Reaches, Image, Outside, StatusInRax, Keeps, SetTags;
      SingleTag(c.mem.tags, c.top);
      EmitTagClear(r, 22, 23, tmp, tmp2, b, c.mem, c.top);
      KeptAll(old(r.cur), {tmp, tmp2}, {});
      c := FlushPushes(c);
      pushCount := 0;
    }

    method FlushPushBatch(tmp: Reg, tmp2: Reg, tagw: Reg, ghost xs: set<Reg>, ghost ds: set<Reg>)
      requires Working(xs, ds) && {tmp, tmp2, tagw} <= xs && Temp(tmp) && Temp(tmp2) && Temp(tagw)
      requires tmp != tmp2 && tagw != tmp && tagw != tmp2 && pushCount > 1
      modifies this`pushCount, this`c, r`code, r`cur
      ensures Working(xs, ds) && c == FlushPushes(old(c))
      ensures forall k: Reg :: k in ds ==> r.cur.d[k] == old(r.cur.d[k])
    {
      hide Reaches, Image, Outside, StatusInRax, Keeps, SetTags;
      EmitTagSetValidBatch(r, 22, 23, tmp, tmp2, tagw, pushCount, b, c.mem, c.top);
      KeptAll(old(r.cur), {tmp, tmp2, tagw}, {});
      c := FlushPushes(c);
      pushCount := 0;
    }

    method FlushTags(tmp: Reg, tmp2: Reg, ghost xs: set<Reg>, ghost ds: set<Reg>)
      requires Working(xs, ds) && tmp in xs && tmp2 in xs && tmp != tmp2 && Temp(tmp) && Temp(tmp2) && TwoFree(xs)
      modifies this`pushCount, this`popCount, this`c, r
      ensures Working(xs, ds) && c == X87Deferred.FlushTags(old(c))
    {
      hide Reaches, MachineAt, FlushPops, FlushPushes;
      FlushDeferredPops(tmp, xs, ds);
      FlushDeferredPushes(tmp, tmp2, xs, ds);
    }

    /** Materialize the deferred exchanges. */
    method FlushPermutation(tmp: Reg, ghost xs: set<Reg>, ghost ds: set<Reg>)
      requires Working(xs, ds) && tmp in xs && Temp(tmp) && 30 !in ds && 31 !in ds
      modifies this`perm, this`permDirty, this`c, r
      ensures Working(xs, ds) && c == FlushPerm(old(c))
      ensures forall k: Reg :: k in ds ==> r.cur.d[k] == old(r.cur.d[k])
    {
      hide Reaches, MachineAt, Permuted;
      if permDirty {
        var save := TakeFpr(xs, ds);
        var chain := TakeFpr(xs, ds + {save});
        WritePermutation(tmp, save, chain, xs, ds + {save} + {chain});
        GiveFpr(chain, xs, ds + {save});
        GiveFpr(save, xs, ds);
      }
    }

    method WritePermutation(tmp: Reg, save: Reg, chain: Reg, ghost xs: set<Reg>, ghost ds: set<Reg>)
      requires Working(xs, ds) && tmp in xs && Temp(tmp) && save in ds && chain in ds && save != chain
      requires FprScratch(save) && FprScratch(chain) && permDirty
      modifies this`perm, this`permDirty, this`c, r`code, r`cur
      ensures Working(xs, ds) && c == FlushPerm(old(c))
      ensures forall k: Reg :: k != save && k != chain ==> r.cur.d[k] == old(r.cur.d[k])
    {
      hide Reaches, Image, Outside, StatusInRax, Keeps, Permuted;
      EmitPermFlush(r, 22, 23, tmp, perm, StBase(), save, chain, b, c.mem, c.top);
      KeptAll(old(r.cur), {tmp}, {save, chain});
      c := FlushPerm(c);
      perm, permDirty := IDENTITY, false;
    }

    // -------------------------------------------------------------- push and pop

    /** Everything a new deferred push must find written. */
    method PreparePush(tmp: Reg, tmp2: Reg, ghost xs: set<Reg>, ghost ds: set<Reg>)
      requires Working(xs, ds) && tmp in xs && tmp2 in xs && tmp != tmp2 && Temp(tmp) && Temp(tmp2)
      requires TwoFree(xs) && 30 !in ds && 31 !in ds
      modifies this`topDirty, this`pushCount, this`popCount, this`perm, this`permDirty, this`c, r
      ensures Working(xs, ds) && c == BeforePush(old(c))
      ensures forall k: Reg :: k in ds ==> r.cur.d[k] == old(r.cur.d[k])
    {
      hide Reaches, MachineAt, FlushPops, FlushPushes, X87Deferred.FlushTop, FlushPerm;
      FlushDeferredPops(tmp, xs, ds);
      if pushCount >= 8 {
        FlushDeferredPushes(tmp, tmp2, xs, ds);
      }
      if pushCount == 0 {
        FlushTop(tmp, xs, ds);
      }
      FlushPermutation(tmp, xs, ds);
    }

    method MoveTopRegister(up: bool, ghost xs: set<Reg>, ghost ds: set<Reg>)
      requires Working(xs, ds) && runRemaining > 0
      modifies this`c, r`code, r`cur
      ensures Working(xs, ds) && c == old(c).(top := if up then Inc(old(c).top) else Dec(old(c).top))
      ensures forall k: Reg :: k in ds ==> r.cur.d[k] == old(r.cur.d[k])
    {
      hide Reaches, Image, Outside, StatusInRax;
      EmitMoveTop(r, up, 1, 23, c.top);
      ScratchOnly(start, old(r.cur), r.cur, b, c.mem, {23});
      c := c.(top := if up then Inc(c.top) else Dec(c.top));
    }

    method StoreTopRegister(tmp: Reg, ghost xs: set<Reg>, ghost ds: set<Reg>)
      requires Working(xs, ds) && tmp in xs && Temp(tmp)
      modifies this`c, r`code, r`cur
      ensures Working(xs, ds) && c == old(c).(mem := old(c).mem.(sw := old(c).mem.sw.(top := old(c).top)))
    {
      hide Reaches, Image, Outside, StatusInRax, Keeps;
      EmitStoreTop(r, 22, 23, tmp, b, c.mem, c.top);
      KeptAll(old(r.cur), {tmp}, {});
      c := c.(mem := c.mem.(sw := c.mem.sw.(top := c.top)));
    }

    method Push(tmp: Reg, tmp2: Reg, ghost xs: set<Reg>, ghost ds: set<Reg>)
      requires Working(xs, ds) && !lent && tmp in xs && tmp2 in xs && tmp != tmp2 && Temp(tmp) && Temp(tmp2)
      requires TwoFree(xs) && 30 !in ds && 31 !in ds
      modifies this`topDirty, this`pushCount, this`popCount, this`perm, this`permDirty, this`c, r
      ensures Working(xs, ds)
      ensures c == if runRemaining > 0 then DeferPush(old(c)) else Through(old(c), X87Model.Push(old(c).mem))
      ensures forall k: Reg :: k in ds ==> r.cur.d[k] == old(r.cur.d[k])
    {
      hide Working, DeferPush, X87Model.Push;
      if runRemaining > 0 {
        CachedPush(tmp, tmp2, xs, ds);
      } else {
        PlainPush(tmp, tmp2, xs, ds);
      }
    }

    method CachedPush(tmp: Reg, tmp2: Reg, ghost xs: set<Reg>, ghost ds: set<Reg>)
      requires Working(xs, ds) && tmp in xs && tmp2 in xs && tmp != tmp2 && Temp(tmp) && Temp(tmp2)
      requires TwoFree(xs) && 30 !in ds && 31 !in ds && runRemaining > 0
      modifies this`topDirty, this`pushCount, this`popCount, this`perm, this`permDirty, this`c, r
      ensures Working(xs, ds) && c == DeferPush(old(c))
      ensures forall k: Reg :: k in ds ==> r.cur.d[k] == old(r.cur.d[k])
    {
      hide Working, BeforePush, DeferPush;
      ghost var c0 := c;
      PreparePush(tmp, tmp2, xs, ds);
      PreparedTop(c0);
      MoveTopRegister(false, xs, ds);
      SettlePush(c0, xs, ds);
    }

    method SettlePush(ghost c0: Cached, ghost xs: set<Reg>, ghost ds: set<Reg>)
      requires Working(xs, ds) && runRemaining > 0 && c == BeforePush(c0).(top := Dec(BeforePush(c0).top))
      modifies this`topDirty, this`pushCount, this`c
      ensures Working(xs, ds) && c == DeferPush(c0)
    {
      hide Reaches, Image, Outside, StatusInRax, BeforePush;
      PreparedTop(c0);
      c := DeferPush(c0);
      topDirty, pushCount := true, pushCount + 1;
    }

    method PlainPush(tmp: Reg, tmp2: Reg, ghost xs: set<Reg>, ghost ds: set<Reg>)
      requires Working(xs, ds) && !lent && tmp in xs && tmp2 in xs && tmp != tmp2 && Temp(tmp) && Temp(tmp2) && runRemaining <= 0
      modifies this`c, r`code, r`cur
      ensures Working(xs, ds) && c == Through(old(c), X87Model.Push(old(c).mem))
      ensures forall k: Reg :: k in ds ==> r.cur.d[k] == old(r.cur.d[k])
    {
      hide Reaches, Image, Outside, StatusInRax, Keeps, X87Model.Push;
      EmitPush(r, 22, 23, tmp, tmp2, b, c.mem);
      KeptButTop(old(r.cur), {23, tmp, tmp2});
      c := Through(c, X87Model.Push(c.mem));
    }

    lemma KeptButTop(s: State, xs: set<Reg>)
      requires Outside(start, s, b) && Keeps(s, r.cur, b, xs, {})
      requires forall k :: k in xs ==> Temp(k) || k == 23
      ensures Outside(start, r.cur, b) && r.cur.flags == s.flags && r.cur.fpu == s.fpu
      ensures r.cur.x[0] == s.x[0] && r.cur.x[X18] == s.x[X18]
      ensures r.cur.x[22] == s.x[22] && r.cur.x[28] == s.x[28]
      ensures forall k: Reg :: r.cur.d[k] == s.d[k]
    {
    }

    method Pop(tmp: Reg, ghost xs: set<Reg>, ghost ds: set<Reg>)
      requires Working(xs, ds) && !lent && tmp in xs && Temp(tmp) && 27 !in xs && 30 !in ds && 31 !in ds
      modifies this`topDirty, this`pushCount, this`popCount, this`perm, this`permDirty, this`c, r
      ensures Working(xs, ds)
      ensures c == if runRemaining > 0 then DeferPop(old(c)) else Through(old(c), X87Model.Pop(old(c).mem))
    {
      hide Reaches, Image, Outside, StatusInRax, Keeps, FlushPerm, X87Model.Pop;
      if runRemaining > 0 {
        CachedPop(tmp, xs, ds);
      } else {
        var tmp2 := Take(xs, ds);
        EmitPop(r, 22, 23, tmp, tmp2, b, c.mem);
        KeptButTop(old(r.cur), {23, tmp, tmp2});
        c := Through(c, X87Model.Pop(c.mem));
        topDirty := false;
        Give(tmp2, xs, ds);
      }
    }

    method CachedPop(tmp: Reg, ghost xs: set<Reg>, ghost ds: set<Reg>)
      requires Working(xs, ds) && tmp in xs && Temp(tmp) && 30 !in ds && 31 !in ds && runRemaining > 0
      modifies this`topDirty, this`pushCount, this`popCount, this`perm, this`permDirty, this`c, r
      ensures Working(xs, ds) && c == DeferPop(old(c))
    {
      hide Reaches, Image, Outside, StatusInRax, FlushPerm, Plan.AfterPop;
      ghost var c0 := c;
      FlushPermutation(tmp, xs, ds);
      MoveTopRegister(true, xs, ds);
      if pushCount > 0 && !topDirty {
        StoreTopRegister(tmp, xs, ds);
      }
      SettlePop(c0, xs, ds);
    }

    /** The bookkeeping of a pop: cancel the youngest deferred push, or defer the pop itself. */
    method SettlePop(ghost c0: Cached, ghost xs: set<Reg>, ghost ds: set<Reg>)
      requires Working(xs, ds) && runRemaining > 0 && c0.plan.PermFlushed() == c.plan
      requires c == DeferPop(c0).(plan := c.plan)
      modifies this`topDirty, this`pushCount, this`popCount, this`c
      ensures Working(xs, ds) && c == DeferPop(c0)
    {
      hide Reaches, Image, Outside, StatusInRax, DeferPop;
      if pushCount > 0 {
        pushCount := pushCount - 1;
        if topDirty && pushCount == 0 {
          topDirty := false;
        }
      } else {
        popCount := Int8(popCount + 1);
        topDirty := true;
      }
      c := DeferPop(c0);
    }

    /** FCOMPP: both tags are written, only TOP may stay in the register. */
    method PopTwo(tmp: Reg, ghost xs: set<Reg>, ghost ds: set<Reg>)
      requires Working(xs, ds) && !lent && tmp in xs && Temp(tmp) && xs == {tmp} && tmp == 24 && 30 !in ds && 31 !in ds
      modifies this`topDirty, this`pushCount, this`popCount, this`perm, this`permDirty, this`c, r
      ensures Working(xs, ds)
      ensures c == if runRemaining > 0 then DeferPop2(old(c)) else Through(old(c), X87Model.Pop(X87Model.Pop(old(c).mem)))
    {
      hide Reaches, MachineAt, X87Deferred.FlushTags, FlushPops, DeferPop2, X87Model.Pop;
      ghost var c0 := c;
      FlushDeferredPops(tmp, xs, ds);
      assert Temp(25);
      var tmp2 := Take(xs, ds);
      FlushTags(tmp, tmp2, xs + {tmp2}, ds);
      FlushTwice(c0);
      if runRemaining > 0 {
        CachedPopTwo(tmp, tmp2, c0, xs + {tmp2}, ds);
      } else {
        NothingPending(c0);
        PlainPopTwo(tmp, tmp2, xs + {tmp2}, ds);
      }
      Give(tmp2, xs, ds);
    }

    method CachedPopTwo(tmp: Reg, tmp2: Reg, ghost c0: Cached, ghost xs: set<Reg>, ghost ds: set<Reg>)
      requires Working(xs, ds) && tmp in xs && tmp2 in xs && tmp != tmp2 && Temp(tmp) && Temp(tmp2) && 30 !in ds && 31 !in ds
      requires runRemaining > 0 && c == X87Deferred.FlushTags(c0)
      modifies this`topDirty, this`perm, this`permDirty, this`c, r
      ensures Working(xs, ds) && c == DeferPop2(c0)
    {
      hide Reaches, Image, Outside, StatusInRax, Keeps, FlushPerm, X87Deferred.FlushTags, SetTags;
      FlushPermutation(tmp, xs, ds);
      ghost var s := r.cur;
      EmitPopNDeferred(r, 22, 23, tmp, tmp2, 2, b, c.mem, c.top);
      KeptButTop(s, {23, tmp, tmp2});
      c := DeferPop2(c0);
      topDirty := true;
    }

    method PlainPopTwo(tmp: Reg, tmp2: Reg, ghost xs: set<Reg>, ghost ds: set<Reg>)
      requires Working(xs, ds) && !lent && tmp in xs && tmp2 in xs && tmp != tmp2 && Temp(tmp) && Temp(tmp2) && runRemaining <= 0
      modifies this`topDirty, this`c, r`code, r`cur
      ensures Working(xs, ds) && c == Through(old(c), X87Model.Pop(X87Model.Pop(old(c).mem)))
    {
      hide Reaches, Image, Outside, StatusInRax, Keeps, SetTags, X87Model.Pop;
      PopTwice(c.mem);
      EmitPopN(r, 22, 23, tmp, tmp2, 2, b, c.mem);
      KeptButTop(old(r.cur), {23, tmp, tmp2});
      c := Through(c, X87Model.Pop(X87Model.Pop(c.mem)));
      topDirty := false;
    }

    // -------------------------------------------------------------- leaving

    /** The flushes of x87_end. */
    method FlushAll(tmp: Reg)
      requires Working({tmp}, {}) && tmp == 24
      modifies this`topDirty, this`pushCount, this`popCount, this`perm, this`permDirty, this`c, r
      ensures Working({tmp}, {}) && c == X87Deferred.FlushTop(FlushPushes(FlushPops(FlushPerm(old(c)))))
    {
      hide Reaches, MachineAt, FlushPerm, FlushPops, FlushPushes, X87Deferred.FlushTop;
      FlushPermutation(tmp, {tmp}, {});
      FlushDeferredPops(tmp, {tmp}, {});
      if pushCount > 0 {
        var tmp2 := Take({tmp}, {});
        FlushDeferredPushes(tmp, tmp2, {tmp} + {tmp2}, {});
        Give(tmp2, {tmp}, {});
      } else {
        NoPushes(c);
      }
      FlushTop(tmp, {tmp}, {});
    }

    /**
     x87_end and the release of the scratch register: if the `consumed` instructions just translated
     end the run, everything deferred is written.
     */
    method End(tmp: Reg, consumed: nat)
      requires Working({tmp}, {}) && !lent && tmp == 24 && consumed > 0
      modifies this`topDirty, this`pushCount, this`popCount, this`perm, this`permDirty, this`c, r
      ensures Idle() && c == X87Deferred.End(old(c), runRemaining <= consumed)
    {
      hide Reaches, MachineAt, FlushPerm, FlushPops, FlushPushes, X87Deferred.FlushTop;
      if runRemaining <= consumed {
        FlushAll(tmp);
      }
      if runRemaining <= 0 {
        r.FreeGpr(23);
        r.FreeGpr(22);
      }
      r.FreeGpr(tmp);
    }

    // -------------------------------------------------------------- registers

    /** dd := the register at depth d, without looking at the permutation. */
    method LoadAt(d: StackIndex, tmp: Reg, dd: Reg, ghost xs: set<Reg>, ghost ds: set<Reg>) returns (key: Reg)
      requires Working(xs, ds) && tmp in xs && Temp(tmp) && dd in ds && FprScratch(dd)
      modifies r`code, r`cur
      ensures Working(xs, ds) && r.cur.d[dd] == c.mem.st[Phys(c.top, d % 8)]
      ensures forall k: Reg :: k != dd ==> r.cur.d[k] == old(r.cur.d[k])
      ensures forall k: Reg :: k != tmp ==> r.cur.x[k] == old(r.cur.x[k])
      ensures KeyAt(r.cur, key, StBase(), Phys(c.top, d % 8)) && key in {tmp, 23}
    {
      hide Reaches, Image, Outside, StatusInRax, Phys;
      key := EmitLoadSt(r, 22, 23, d, tmp, dd, StBase(), b, c.mem, c.top);
      hide Keeps;
      KeptAll(old(r.cur), {tmp}, {dd});
    }

    /** dd := ST(depth), through the deferred permutation; the key can store back to the same place. */
    method LoadDepth(depth: Depth, tmp: Reg, dd: Reg, ghost xs: set<Reg>, ghost ds: set<Reg>) returns (key: Reg)
      requires Working(xs, ds) && tmp in xs && Temp(tmp) && dd in ds && FprScratch(dd)
      modifies r`code, r`cur
      ensures Working(xs, ds) && r.cur.d[dd] == Read(c, depth)
      ensures forall k: Reg :: k != dd ==> r.cur.d[k] == old(r.cur.d[k])
      ensures forall k: Reg :: k != tmp ==> r.cur.x[k] == old(r.cur.x[k])
      ensures KeyAt(r.cur, key, StBase(), Phys(c.top, c.plan.Depth(depth))) && key in {tmp, 23}
    {
      hide Reaches, MachineAt, Phys;
      key := LoadAt(if permDirty then perm[depth] else depth, tmp, dd, xs, ds);
    }

    /** Physical register k := dd, through the key of an earlier load. */
    method StoreAt(ghost k: Depth, key: Reg, dd: Reg, ghost xs: set<Reg>, ghost ds: set<Reg>)
      requires Working(xs, ds) && KeyAt(r.cur, key, StBase(), k)
      modifies this`c, r`code, r`cur
      ensures Working(xs, ds) && c == old(c).(mem := old(c).mem.(st := old(c).mem.st[k := old(r.cur.d[dd])]))
      ensures forall j: Reg :: r.cur.d[j] == old(r.cur.d[j]) && r.cur.x[j] == old(r.cur.x[j])
    {
      hide Reaches, Image, Outside, StatusInRax;
      EmitStoreStAtOffset(r, 22, key, dd, StBase(), b, c.mem, k);
      hide Keeps;
      KeptAll(old(r.cur), {}, {});
      c := c.(mem := c.mem.(st := c.mem.st[k := old(r.cur.d[dd])]));
    }

    /** ST(depth) := dd, through the key of an earlier load. */
    method StoreKey(depth: Depth, key: Reg, dd: Reg, ghost xs: set<Reg>, ghost ds: set<Reg>)
      requires Working(xs, ds) && KeyAt(r.cur, key, StBase(), Phys(c.top, c.plan.Depth(depth)))
      modifies this`c, r`code, r`cur
      ensures Working(xs, ds) && c == Write(old(c), depth, old(r.cur.d[dd]))
      ensures forall k: Reg :: r.cur.d[k] == old(r.cur.d[k]) && r.cur.x[k] == old(r.cur.x[k])
    {
      hide Reaches, MachineAt, Phys;
      StoreAt(Phys(c.top, c.plan.Depth(depth)), key, dd, xs, ds);
    }

    method StoreDepth(depth: Depth, tmp: Reg, dd: Reg, ghost xs: set<Reg>, ghost ds: set<Reg>)
      requires Working(xs, ds) && tmp in xs && Temp(tmp)
      modifies this`c, r`code, r`cur
      ensures Working(xs, ds) && c == Write(old(c), depth, old(r.cur.d[dd]))
    {
      hide Reaches, Image, Outside, StatusInRax, Phys, Keeps;
      var d := if permDirty then perm[depth] else depth;
      EmitStoreSt(r, 22, 23, d, tmp, dd, StBase(), b, c.mem, c.top);
      KeptAll(old(r.cur), {tmp}, {});
      c := Write(c, depth, old(r.cur.d[dd]));
    }
  }

  lemma NoPushes(c: Cached)
    requires c.plan.pushes == 0
    ensures FlushPushes(c) == c
  {
  }

  lemma FlushTwice(c: Cached)
    ensures X87Deferred.FlushTags(FlushPops(c)) == X87Deferred.FlushTags(c)
  {
  }

  lemma NothingPending(c: Cached)
    ensures c.plan.pops <= 0 && c.plan.pushes == 0 ==> X87Deferred.FlushTags(c) == c
  {
  }

  lemma PopTwice(m: X87)
    ensures X87Model.Pop(X87Model.Pop(m)) == m.(sw := m.sw.(top := (m.sw.top + 2) % 8), tags := SetTags(m.tags, m.sw.top, 2, EMPTY))
  {
    var t := m.sw.top;
    SetTagsNone(m.tags, t, EMPTY);
    SetTagsStep(m.tags, t, 0, EMPTY);
    SetTagsStep(m.tags, t, 1, EMPTY);
    hide SetTags;
  }

  /** The uncached translation: memory is up to date and TOP is what memory says. */
  function Through(c: Cached, m: X87): Cached {
    c.(mem := m, top := m.sw.top)
  }

  lemma PreparedTop(c: Cached)
    ensures BeforePush(c).plan == c.plan.BeforePush() && BeforePush(c).top == c.top
    ensures BeforePush(c).flags == c.flags && BeforePush(c).ax == c.ax
  {
  }

  lemma SingleTag(tags: Tags, t: Depth)
    ensures SetTags(tags, t, 1, VALID) == tags[t := VALID]
  {
    SetTagsNone(tags, t, VALID);
    SetTagsStep(tags, t, 0, VALID);
    hide SetTags;
  }

  predicate Temp(t: Reg) {
    GprScratch(t) && t != 22 && t != 23 && t != 28
  }

  /** At least two of the registers the translators never pin are unused. */
  predicate TwoFree(xs: set<Reg>) {
    26 !in xs && 27 !in xs
  }
}
