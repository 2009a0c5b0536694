/** FSTP m80 as an x87 instruction: permutation, conversion, store, pop and end of run together. */
module X87Store80 {
  import opened Words
  import opened X87Model
  import opened X87Deferred
  import opened Arm
  import opened Translation
  import opened X87Code
  import opened X87Translator
  import opened OperandAccess
  import opened Fstp80
  import opened X87Ops

  /** The guest's registers and memory outside the X87State, as they are now. */
  ghost function GuestView(t: Translator): State
    reads t`start, t`statusRead, t`c
  {
    t.start.(x := t.start.x[0 := if t.statusRead then StatusInRax(t.start.x[0], t.c.ax) else t.start.x[0]])
  }

  /** Ten bytes at a, away from the X87State at b. */
  predicate Disjoint(a: Word, b: Word) {
    a + 10 <= b || (b + 0x48 <= a && a + 10 <= TWO64)
  }

  ghost predicate StoreOperand(t: Translator, o: Operand, ctx: Context)
    reads t`start, t`statusRead, t`c
  {
    && WellShifted(o.addr64, o.place) && ctx.fsField / 4 < 4096 && Steady(t.start, t.b, o, ctx)
    && Disjoint(OperandAddress(GuestView(t), true, o, ctx), t.b)
  }

  /** s with the ten bytes of f at a. */
  function Stored80(s: State, a: Word, f: F80): State {
    s.(q := s.q[a := f.mantissa], h := s.h[X(a + 8) := f.word])
  }

  lemma ViewAddress(t: Translator, o: Operand, ctx: Context)
    requires t.MachineAt(t.r.cur) && Steady(t.start, t.b, o, ctx)
    ensures OperandAddress(t.r.cur, true, o, ctx) == OperandAddress(GuestView(t), true, o, ctx)
  {
    hide Image, OperandAddress, UsesRax, StatusInRax;
    SameAddress(GuestView(t), t.r.cur, t.b, o, ctx);
  }

  /** The store moves the state that the machine is compared with. */
  lemma StoreFrame(start: State, s: State, u: State, b: Word, m: X87, a: Word, v: Word, free: set<Reg>)
    requires Outside(start, s, b) && Image(s, b, m) && Written(s, u, a, v, free, TMP) && Disjoint(a, b)
    requires forall k :: k in free ==> GprScratch(k)
    ensures Outside(Stored80(start, a, ToF80(v)), u, b) && Image(u, b, m)
  {
    hide EncodeSw, EncodeTags, ToF80, FlagsAfter;
    var f := ToF80(v);
    assert X(a + 8) == a + 8;
    var to := Stored80(start, a, f);
    assert forall k: Word :: Read64(u, k) == if k == a then f.mantissa else Read64(s, k);
    assert forall k: Word :: Read64(to, k) == if k == a then f.mantissa else Read64(start, k);
    assert forall k: Word :: Read16(u, k) == if k == a + 8 then f.word else Read16(s, k);
    assert forall k: Word :: Read16(to, k) == if k == a + 8 then f.word else Read16(start, k);
  }

  lemma Enough(t: Translator, dd: Reg, seg: Segment)
    requires t.Working({TMP}, {} + {dd})
    ensures Room(seg, t.r.freeGpr) && Three(t.r.freeGpr) && TMP !in t.r.freeGpr
  {
    hide Reaches, Image, Outside, StatusInRax;
    var a: Reg, b: Reg, c: Reg := 25, 26, 27;
    assert a in t.r.freeGpr && b in t.r.freeGpr && c in t.r.freeGpr && X29 in t.r.freeGpr;
  }

  /** D register dd, in the 80-bit format, goes to the operand; NZCV may be lost. */
  method StoreAs80(t: Translator, o: Operand, ctx: Context, fold: bool, dd: Reg)
    requires t.Working({TMP}, {} + {dd}) && StoreOperand(t, o, ctx)
    modifies t`c, t`start, t.r`code, t.r`cur, t.r`freeGpr
    ensures t.Working({TMP}, {} + {dd})
    ensures var v, a := old(t.r.cur.d[dd]), OperandAddress(old(GuestView(t)), true, o, ctx);
      && t.start == Stored80(old(t.start), a, ToF80(v))
      && t.c == old(t.c).(flags := FlagsAfter(v, old(t.c).flags))
  {
    hide Reaches, Image, Outside, StatusInRax, OperandAddress, Steady, ToF80, FlagsAfter, Disjoint, Room, Three, GuestView;
    ghost var s, f, v, start := t.r.cur, t.r.freeGpr, t.r.cur.d[dd], t.start;
    ghost var a := OperandAddress(GuestView(t), true, o, ctx);
    ViewAddress(t, o, ctx);
    Enough(t, dd, o.seg);
    EmitStoreF80(t.r, o, dd, TMP, fold, ctx);
    StoreFrame(start, s, t.r.cur, t.b, t.c.mem, a, v, f);
    WrittenRegs(t, s, t.r.cur, a, v, f);
    t.start := Stored80(start, a, ToF80(v));
    t.c := t.c.(flags := FlagsAfter(v, t.c.flags));
  }

  lemma WrittenRegs(t: Translator, s: State, u: State, a: Word, v: Word, free: set<Reg>)
    requires Written(s, u, a, v, free, TMP)
    requires forall k :: k in free ==> GprScratch(k) && k != 22 && k != 23 && (t.gprsValid ==> k != 28)
    ensures u.x[0] == s.x[0] && u.x[X18] == s.x[X18] && u.x[22] == s.x[22] && u.x[23] == s.x[23]
    ensures t.gprsValid ==> u.x[28] == s.x[28]
    ensures u.flags == FlagsAfter(v, s.flags) && u.fpu == s.fpu
  {
    hide ToF80, FlagsAfter;
  }

  /** FSTP m80: ST(0), through the pending exchanges, is converted and stored; then the pop. */
  method TranslateFstp80(t: Translator, o: Operand, ctx: Context, fold: bool)
    requires t.Idle() && StoreOperand(t, o, ctx)
    modifies t, t.r
    ensures t.Idle() && t.runRemaining == old(t.runRemaining) && t.statusRead == old(t.statusRead)
    ensures var c := old(t.c);
      var v, a := Read(c, 0), OperandAddress(old(GuestView(t)), true, o, ctx);
      && t.start == Stored80(old(t.start), a, ToF80(v))
      && t.c == X87Deferred.End(Popped(c.(flags := FlagsAfter(v, c.flags)), t.runRemaining > 0), t.runRemaining <= 1)
  {
    hide t.Working, t.Idle, t.StBase, X87Deferred.End, Read, DeferPop, X87Model.Pop, ToF80, FlagsAfter, Stored80, OperandAddress, Disjoint, Steady;
    Start(t);
    assert FprScratch(24);
    var dd := t.TakeFpr({TMP}, {});
    var key := t.LoadDepth(0, TMP, dd, {TMP}, {} + {dd});
    StoreAs80(t, o, ctx, fold, dd);
    t.GiveFpr(dd, {TMP}, {});
    t.Pop(TMP, {TMP}, {});
    t.End(TMP, 1);
  }
}
