/**
 Comparisons: turning the NZCV of an FCMP into the condition codes of the status word, and into
 the flag layout that FCOMI leaves for later instructions.
 */
module X87Compare {
  import opened Words
  import opened Bits
  import opened X87Model
  import opened Arm
  import opened Translation
  import opened X87Code

  /** C3, C2 and C0 at their places in the status word. */
  function PackedCc(o: Order): Half {
    0x100 * B2N(o == Less || o == Unordered) + 0x400 * B2N(o == Unordered) + 0x4000 * B2N(o == Equal || o == Unordered)
  }

  // ---------------------------------------------------------------- ORR with a shifted register

  /** What ORR Wd, Wn, Wm, LSL #amount computes. */
  function OrShifted(a: Word, b: Word, amount: Imm6): Word {
    Trunc(false, LogicValue(LogicOrr, false, Trunc(false, a), Shifted(false, Lsl, b, amount)))
  }

  method EmitOrr(r: TranslationResult, rm: Reg, amount: Imm6, rn: Reg, rd: Reg)
    requires r.Valid()
    modifies r`code, r`cur
    ensures r.Valid()
    ensures r.cur == SetX(old(r.cur), rd, OrShifted(old(r.cur).x[rn], old(r.cur).x[rm], amount))
  {
    hide Step, Exec, Reaches, LogicValue, Shifted, Trunc;
    r.EmitLogicalShiftedReg(false, LogicOrr, false, Lsl, rm, amount, rn, rd);
  }

  lemma OrShiftedIs(a: Word, b: Word, amount: Imm6, v: nat)
    requires a < TWO32 && Shl(b, amount) < TWO32 && b < TWO32 && Or(a, Shl(b, amount)) == v && v < TWO32
    ensures OrShifted(a, b, amount) == v
  {
    hide Or, Shl;
  }

  lemma OrBits(a: Bit, b: Bit)
    ensures OrShifted(a, b, 0) == if a == 1 || b == 1 then 1 else 0
  {
    assert Or(a, b) == if a == 1 || b == 1 then 1 else 0;
    OrrUnshifted(a, b, if a == 1 || b == 1 then 1 else 0);
    hide OrShifted, Or;
  }

  /** Joining a bit above a smaller value. */
  lemma OrHigh(low: Word, bit: Bit, n: Imm6)
    requires low < Pow2(n) && n < 31
    ensures OrShifted(low, bit, n) == low + bit * Pow2(n)
  {
    OrBelow(n, low, bit);
    LargePowers();
    Pow2Mono(n, 30);
    hide Or, Pow2;
    OrShiftedIs(low, bit, n, low + bit * Pow2(n));
  }

  lemma BitBelow(bit: Bit, n: nat, k: nat)
    requires n < k <= 30
    ensures bit * Pow2(n) < Pow2(k) <= 0x8000_0000
  {
    hide Pow2;
    LargePowers();
    Pow2Mono(n + 1, k);
    Pow2Mono(k, 31);
    Pow2Step(n);
  }

  /** Joining a bit below a value whose low n bits are clear. */
  lemma OrLow(high: nat, bit: Bit, n: Imm6, k: nat)
    requires n < k <= 30 && Shl(high, k) < 0x8000_0000
    ensures Shl(high, k) + Shl(bit, n) < TWO32
    ensures OrShifted(Shl(high, k), bit, n) == Shl(high, k) + Shl(bit, n)
  {
    BitBelow(bit, n, k);
    OrBelow(k, bit * Pow2(n), high);
    hide Or, Pow2;
    assert Shl(bit, n) < 0x8000_0000;
    hide Shl;
    OrShiftedIs(Shl(high, k), bit, n, Shl(high, k) + Shl(bit, n));
  }

  // ---------------------------------------------------------------- FCOM

  lemma LslEight(v: Bit)
    ensures FieldValue(Ubfm, 32, 24, 23, v, 0) == 0x100 * v
  {
    Powers();
    Pow2Mono(8, 24);
  }

  lemma PackCc(o: Order)
    ensures var f := FcmpFlags(o);
      var c0, c2, c3 := B2N(!f.c || f.v), B2N(f.v), B2N(f.z || f.v);
      OrShifted(OrShifted(0x100 * c0, c2, 10), c3, 14) == PackedCc(o)
  {
    Powers();
    var f := FcmpFlags(o);
    var c0: nat, c2: nat, c3: nat := B2N(!f.c || f.v), B2N(f.v), B2N(f.z || f.v);
    OrHigh(0x100 * c0, c2, 10);
    OrHigh(0x100 * c0 + 0x400 * c2, c3, 14);
    hide OrShifted;
  }

  lemma FlagsRoundTrip(f: Flags)
    ensures UnpackFlags(PackFlags(f)) == f
  {
  }

  /** result := the condition codes of the comparison whose NZCV is live; NZCV := the saved flags. */
  method EmitFcomCcPack(r: TranslationResult, result: Reg, save: Reg, cc: Reg, vs: Reg, ghost o: Order, ghost f: Flags)
    requires r.Valid() && Distinct(result, save, cc, vs, XZR)
    requires r.cur.flags == FcmpFlags(o) && r.cur.x[save] == PackFlags(f)
    modifies r`code, r`cur
    ensures r.Valid() && r.cur.x[result] == PackedCc(o)
    ensures r.cur == old(r.cur).(x := r.cur.x, flags := f) && KeepsX(old(r.cur), r.cur, {result, cc, vs})
  {
    hide Step, Reaches, OrShifted, FieldValue, PackFlags, UnpackFlags, FcmpFlags, PackedCc;
    ghost var g := FcmpFlags(o);
    FlagsRoundTrip(f);
    OrBits(B2N(!g.c), B2N(g.v));
    OrBits(B2N(g.z), B2N(g.v));
    PackCc(o);
    EmitConditions(r, result, cc, vs);
    EmitRestoreFlags(r, save, f);
    EmitOrr(r, vs, 0, cc, cc);
    EmitOrr(r, vs, 0, result, result);
    EmitLslEight(r, cc, B2N(!g.c || g.v));
    EmitOrr(r, vs, 10, cc, cc);
    EmitOrr(r, result, 14, cc, result);
  }

  method EmitConditions(r: TranslationResult, eq: Reg, cc: Reg, vs: Reg)
    requires r.Valid() && eq != cc && eq != vs && cc != vs && XZR !in {eq, cc, vs}
    modifies r`code, r`cur
    ensures r.Valid()
    ensures var s := old(r.cur);
      r.cur == s.(x := s.x[cc := B2N(!s.flags.c)][vs := B2N(s.flags.v)][eq := B2N(s.flags.z)])
  {
    hide Reaches;
    r.EmitPlain(Cset(3, cc));
    r.EmitPlain(Cset(6, vs));
    r.EmitPlain(Cset(0, eq));
  }

  method EmitRestoreFlags(r: TranslationResult, save: Reg, ghost f: Flags)
    requires r.Valid() && UnpackFlags(r.cur.x[save]) == f
    modifies r`code, r`cur
    ensures r.Valid() && r.cur == old(r.cur).(flags := f)
  {
    hide Reaches, UnpackFlags;
    r.EmitPlain(Msr(save));
  }

  method EmitLslEight(r: TranslationResult, reg: Reg, ghost v: Bit)
    requires r.Valid() && reg != XZR && r.cur.x[reg] == v
    modifies r`code, r`cur
    ensures r.Valid() && r.cur == SetX(old(r.cur), reg, 0x100 * v)
  {
    hide Step, Exec, Reaches, FieldValue;
    LslEight(v);
    UbfmIgnoresTarget(32, 24, 23, v, v);
    r.EmitBitfield(false, Ubfm, 24, 23, reg, reg);
  }

  // ---------------------------------------------------------------- the status word

  function NoCc(sw: StatusWord): StatusWord {
    sw.(c0 := 0, c1 := 0, c2 := 0, c3 := 0)
  }

  lemma ClearField(v: nat)
    ensures FieldValue(Bfm, 32, 24, 2, 0, v) == v - ((v / 0x100) % 8) * 0x100
    ensures FieldValue(Bfm, 32, 18, 0, 0, v) == v - ((v / 0x4000) % 2) * 0x4000
  {
    Powers();
  }

  lemma LowCodes(sw: StatusWord)
    ensures (EncodeSw(sw) / 0x100) % 8 == sw.c0 + 2 * sw.c1 + 4 * sw.c2
  {
    DivUnique(EncodeSw(sw), 0x100, sw.c0 + 2 * sw.c1 + 4 * sw.c2 + 8 * sw.top + 0x40 * sw.c3 + 0x80 * sw.busy);
  }

  lemma ClearedLow(sw: StatusWord)
    ensures FieldValue(Bfm, 32, 24, 2, 0, EncodeSw(sw)) == EncodeSw(sw.(c0 := 0, c1 := 0, c2 := 0))
  {
    hide FieldValue;
    ClearField(EncodeSw(sw));
    LowCodes(sw);
  }

  lemma C3Field(sw: StatusWord)
    ensures (EncodeSw(sw) / 0x4000) % 2 == sw.c3
  {
    DivUnique(EncodeSw(sw), 0x4000, sw.c3 + 2 * sw.busy);
  }

  lemma ClearedHigh(sw: StatusWord)
    ensures FieldValue(Bfm, 32, 18, 0, 0, EncodeSw(sw)) == EncodeSw(sw.(c3 := 0))
  {
    hide FieldValue;
    ClearField(EncodeSw(sw));
    C3Field(sw);
  }

  lemma JoinedCc(sw: StatusWord, o: Order)
    ensures Or(EncodeSw(NoCc(sw)), PackedCc(o)) == EncodeSw(SetCc(sw, o))
  {
    hide Or, Pow2;
    var n := SetCc(sw, o);
    var high, codes := 8 * n.top + 0x80 * n.busy, n.c0 + 4 * n.c2 + 0x40 * n.c3;
    JoinTops(n.top, n.busy, n.c0, n.c2, n.c3);
    Powers();
    OrSplit(8, n.low, high, 0, codes);
    assert Or(n.low, 0) == n.low by { OrNone(n.low); }
  }

  lemma OrNone(v: nat)
    ensures Or(v, 0) == v && Or(0, v) == v
  {
  }

  lemma TopBits(busy: Bit, c3: Bit)
    ensures Or(2 * busy, c3) == c3 + 2 * busy
  {
  }

  lemma JoinTops(top: Depth, busy: Bit, c0: Bit, c2: Bit, c3: Bit)
    ensures Or(8 * top + 0x80 * busy, c0 + 4 * c2 + 0x40 * c3) == c0 + 4 * c2 + 8 * top + 0x40 * c3 + 0x80 * busy
  {
    hide Or, Pow2;
    Powers();
    OrSplit(3, 0, top + 0x10 * busy, c0 + 4 * c2, 8 * c3);
    OrSplit(3, top, 2 * busy, 0, c3);
    OrNone(c0 + 4 * c2);
    OrNone(top);
    TopBits(busy, c3);
  }

  lemma OrrUnshifted(a: Half, b: Half, v: nat)
    requires Or(a, b) == v && v < TWO32
    ensures OrShifted(a, b, 0) == v
  {
    assert Pow2(0) == 1;
    hide Or;
    OrShiftedIs(a, b, 0, v);
  }

  method EmitClearCc(r: TranslationResult, reg: Reg, ghost sw: StatusWord)
    requires r.Valid() && reg != XZR && r.cur.x[reg] == EncodeSw(sw)
    modifies r`code, r`cur
    ensures r.Valid() && r.cur == SetX(old(r.cur), reg, EncodeSw(NoCc(sw)))
  {
    hide Step, Exec, Reaches, EncodeSw, FieldValue;
    ClearedLow(sw);
    ClearedHigh(sw.(c0 := 0, c1 := 0, c2 := 0));
    r.EmitBitfield(false, Bfm, 24, 2, XZR, reg);
    r.EmitBitfield(false, Bfm, 18, 0, XZR, reg);
  }

  /** The status word receives the packed condition codes; C1 is cleared, the rest is kept. */
  method EmitFcomCcWriteSw(r: TranslationResult, base: Reg, packed: Reg, sw: Reg, ghost b: Word, ghost m: X87, ghost o: Order)
    requires r.Valid() && sw != XZR && sw != base && sw != packed
    requires Image(r.cur, b, m) && r.cur.x[base] == b && r.cur.x[packed] == PackedCc(o)
    modifies r`code, r`cur
    ensures r.Valid()
    ensures Image(r.cur, b, m.(sw := SetCc(m.sw, o))) && Keeps(old(r.cur), r.cur, b, {sw}, {})
  {
    hide Step, Exec, Reaches, EncodeSw, EncodeTags, FieldValue, OrShifted, PackedCc, Keeps, SetCc;
    JoinedCc(m.sw, o);
    OrrUnshifted(EncodeSw(NoCc(m.sw)), PackedCc(o), EncodeSw(SetCc(m.sw, o)));
    r.EmitLoad(S16, false, Scaled(1), base, sw);
    EmitClearCc(r, sw, m.sw);
    EmitOrr(r, packed, 0, sw, sw);
    r.EmitStore(S16, false, Scaled(1), base, sw);
    StoredSw(old(r.cur), r.cur, b, m, SetCc(m.sw, o), {sw});
  }

  // ---------------------------------------------------------------- FCOMI

  lemma LslThirty(v: Bit)
    ensures FieldValue(Ubfm, 32, 2, 1, v, 0) == 0x4000_0000 * v
  {
    Powers();
    LargePowers();
  }

  /** Z at bit 30, C at 29, V at 28, and V again at 26. */
  function PackedFlags(f: Flags): Word {
    0x4000_0000 * B2N(f.z) + 0x2000_0000 * B2N(f.c) + 0x1000_0000 * B2N(f.v) + 0x0400_0000 * B2N(f.v)
  }

  lemma PackedFlagsUnpack(f: Flags)
    ensures UnpackFlags(PackedFlags(f)) == f.(n := false)
  {
  }

  lemma TopPowers()
    ensures Pow2(26) == 0x0400_0000 && Pow2(28) == 0x1000_0000 && Pow2(29) == 0x2000_0000 && Pow2(30) == 0x4000_0000
  {
    Powers();
    assert Pow2(26) == 0x0400_0000 by { Pow2Add(10, 16); }
  }

  lemma PackFlagBits(f: Flags)
    ensures var z, c, v := B2N(f.z), B2N(f.c), B2N(f.v);
      OrShifted(OrShifted(OrShifted(0x4000_0000 * z, c, 29), v, 28), v, 26) == PackedFlags(f)
  {
    var z: nat, c: nat, v: nat := B2N(f.z), B2N(f.c), B2N(f.v);
    TopPowers();
    hide OrShifted, Pow2;
    OrLow(z, c, 29, 30);
    OrLow(2 * z + c, v, 28, 29);
    OrLow(4 * z + 2 * c + v, v, 26, 28);
  }

  lemma BicBits(a: Bit, b: Bit)
    ensures LogicW(LogicAnd, true, a, b) == if a == 1 && b == 0 then 1 else 0
  {
    assert Bic(a, b) == if a == 1 && b == 0 then 1 else 0;
    hide Bic, LogicW;
    HalfLogic(a, b);
  }

  /** NZCV of a comparison becomes Z = equal or unordered, C = not below and ordered, V = unordered. */
  method EmitFcomiFlags(r: TranslationResult, z: Reg, v: Reg, c: Reg, ghost o: Order)
    requires r.Valid() && z != v && z != c && v != c && XZR !in {z, v, c}
    requires r.cur.flags == FcmpFlags(o)
    modifies r`code, r`cur
    ensures r.Valid()
    ensures r.cur == old(r.cur).(x := r.cur.x, flags := FcomiFlags(o)) && KeepsX(old(r.cur), r.cur, {z, v, c})
  {
    hide Step, Reaches, OrShifted, FieldValue, PackedFlags, UnpackFlags, LogicW;
    ghost var f := FcomiFlags(o);
    ghost var g := FcmpFlags(o);
    OrBits(B2N(g.z), B2N(g.v));
    BicBits(B2N(g.c), B2N(g.v));
    PackFlagBits(f);
    PackedFlagsUnpack(f);
    EmitFcomiConditions(r, z, v, c);
    EmitOrr(r, v, 0, z, z);
    EmitLogicW(r, LogicAnd, true, v, c, c);
    EmitLslThirty(r, z, B2N(f.z));
    EmitOrr(r, c, 29, z, z);
    EmitOrr(r, v, 28, z, z);
    EmitOrr(r, v, 26, z, z);
    EmitRestoreFlags(r, z, f);
  }

  method EmitFcomiConditions(r: TranslationResult, z: Reg, v: Reg, c: Reg)
    requires r.Valid() && z != v && z != c && v != c && XZR !in {z, v, c}
    modifies r`code, r`cur
    ensures r.Valid()
    ensures var s := old(r.cur);
      r.cur == s.(x := s.x[z := B2N(s.flags.z)][v := B2N(s.flags.v)][c := B2N(s.flags.c)])
  {
    hide Reaches;
    r.EmitPlain(Cset(0, z));
    r.EmitPlain(Cset(6, v));
    r.EmitPlain(Cset(2, c));
  }

  method EmitLslThirty(r: TranslationResult, reg: Reg, ghost v: Bit)
    requires r.Valid() && reg != XZR && r.cur.x[reg] == v
    modifies r`code, r`cur
    ensures r.Valid() && r.cur == SetX(old(r.cur), reg, 0x4000_0000 * v)
  {
    hide Step, Exec, Reaches, FieldValue;
    LslThirty(v);
    UbfmIgnoresTarget(32, 2, 1, v, v);
    r.EmitBitfield(false, Ubfm, 2, 1, reg, reg);
  }

  // ---------------------------------------------------------------- FCOMI and FCMOVcc together

  /** The x86 flags FCOMI sets, by the comparison table of the Intel SDM (FCOMI, Volume 2). */
  datatype Eflags = Eflags(zf: bool, pf: bool, cf: bool)

  function IntelFcomi(o: Order): Eflags {
    match o
    case Greater => Eflags(false, false, false)
    case Less => Eflags(false, false, true)
    case Equal => Eflags(true, false, false)
    case Unordered => Eflags(true, true, true)
  }

  /** The condition each FCMOVcc tests, by the Intel SDM. */
  predicate IntelCond(cond: Cond, e: Eflags) {
    match cond
    case Below => e.cf
    case BelowEqual => e.cf || e.zf
    case Eq => e.zf
    case NotBelow => !e.cf
    case Above => !e.cf && !e.zf
    case NotEq => !e.zf
    case Unord => e.pf
    case NotUnord => !e.pf
  }
}
