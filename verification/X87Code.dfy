/**
 The code sequences of TranslatorX87Helpers: addressing the register ring through TOP, moving
 TOP, and updating the tag word, each with the effect it has on the x87 state in memory.
 */
module X87Code {
  import opened Words
  import opened Bits
  import opened X87Model
  import opened Arm
  import opened Translation
  import opened TagDigits

  function EncodeTags(t: Tags): Half {
    DigitsBound(t);
    Powers();
    Digits(t)
  }

  /** The X87State at address b holds m. */
  ghost predicate Image(s: State, b: Word, m: X87) {
    && b + 0x48 <= TWO64
    && Read16(s, b) == m.cw
    && Read16(s, b + 2) == EncodeSw(m.sw)
    && Read16(s, b + 4) == EncodeTags(m.tags)
    && forall k: Depth :: Read64(s, b + 8 + 8 * k) == m.st[k]
  }

  /** Nothing but the X87State at b and the listed registers changes. */
  ghost predicate Keeps(s: State, t: State, b: Word, xs: set<Reg>, ds: set<Reg>) {
    && t.flags == s.flags && t.w == s.w && t.fpu == s.fpu && t.tls == s.tls
    && (forall r: Reg :: r !in xs ==> t.x[r] == s.x[r])
    && (forall r: Reg :: r !in ds ==> t.d[r] == s.d[r])
    && (forall a: Word :: a < b || b + 6 <= a ==> Read16(t, a) == Read16(s, a))
    && (forall a: Word :: a < b + 8 || b + 0x48 <= a ==> Read64(t, a) == Read64(s, a))
  }

  predicate Distinct(a: Reg, b: Reg, c: Reg, d: Reg, e: Reg) {
    a != b && a != c && a != d && a != e && b != c && b != d && b != e && c != d && c != e && d != e
  }

  ghost predicate KeepsX(s: State, t: State, xs: set<Reg>) {
    forall r: Reg :: r !in xs ==> t.x[r] == s.x[r]
  }

  lemma StoredSw(s: State, t: State, b: Word, m: X87, sw: StatusWord, xs: set<Reg>)
    requires Image(s, b, m) && t == s.(x := t.x, h := s.h[b + 2 := EncodeSw(sw)]) && KeepsX(s, t, xs)
    ensures Image(t, b, m.(sw := sw)) && Keeps(s, t, b, xs, {})
  {
    hide EncodeSw, EncodeTags;
  }

  lemma StoredTags(s: State, t: State, b: Word, m: X87, tags: Tags, xs: set<Reg>)
    requires Image(s, b, m) && t == s.(x := t.x, h := s.h[b + 4 := EncodeTags(tags)]) && KeepsX(s, t, xs)
    ensures Image(t, b, m.(tags := tags)) && Keeps(s, t, b, xs, {})
  {
    hide EncodeSw, EncodeTags;
  }

  // ---------------------------------------------------------------- constants

  lemma MaskSeven()
    ensures DecodeBitMasks(32, 0, 0, 2) == Some(7)
  {
    assert HighestSetBit(61) == 5 && Pow2(5) == 32 && Pow2(3) == 8 && Pow2(0) == 1;
    assert Ror(7, 0, 32) == 7;
    assert Replicate(7, 32, 1) == 7;
  }

  lemma AndSeven(v: nat)
    ensures And(v, 7) == v % 8
  {
    assert And(v / 4, 1) == (v / 4) % 2;
    assert And(v / 2, 3) == (v / 2) % 4;
  }

  lemma WMod8(v: int)
    ensures W(v) % 8 == v % 8
  {
  }

  lemma AndSevenValue(x: Word)
    ensures Trunc(false, LogicValue(LogicAnd, false, Trunc(false, x), 7)) == x % 8
  {
    hide And;
    AndSeven(W(x));
    WMod8(x);
  }

  method EmitAndSeven(r: TranslationResult, reg: Reg)
    requires r.Valid() && reg != XZR
    modifies r`code, r`cur
    ensures r.Valid()
    ensures r.cur == SetX(old(r.cur), reg, old(r.cur).x[reg] % 8)
  {
    hide Step, Exec, Reaches, DecodeBitMasks, LogicValue, Trunc;
    MaskSeven();
    AndSevenValue(r.cur.x[reg]);
    r.EmitLogicalImm(false, LogicAnd, 0, 0, 2, reg, reg);
  }

  // ---------------------------------------------------------------- TOP

  /** TOP := (TOP + delta) & 7 in the register only. */
  method EmitMoveTop(r: TranslationResult, up: bool, n: Imm12, top: Reg, ghost t: Depth)
    requires r.Valid() && top != XZR && r.cur.x[top] == t
    modifies r`code, r`cur
    ensures r.Valid()
    ensures r.cur == SetX(old(r.cur), top, (if up then t + n else t - n) % 8)
  {
    hide Step, Exec, Reaches;
    WMod8(if up then t + n else t - n);
    hide W;
    r.EmitAddImm(false, !up, false, n, top, top);
    EmitAndSeven(r, top);
  }

  lemma InsertAt11(v: nat, t: nat)
    requires t < 8
    ensures FieldValue(Bfm, 32, 21, 2, t, v) == v - ((v / 0x800) % 8) * 0x800 + t * 0x800
  {
    assert Pow2(11) == 0x800 && Pow2(3) == 8;
  }

  lemma TopField(sw: StatusWord)
    ensures (EncodeSw(sw) / 0x800) % 8 == sw.top
  {
    DivUnique(EncodeSw(sw), 0x800, sw.top + 8 * sw.c3 + 16 * sw.busy);
  }

  lemma SetTopField(sw: StatusWord, t: Depth)
    ensures FieldValue(Bfm, 32, 21, 2, t, EncodeSw(sw)) == EncodeSw(sw.(top := t))
  {
    InsertAt11(EncodeSw(sw), t);
    TopField(sw);
    hide FieldValue;
  }

  lemma GetTopField(sw: StatusWord)
    ensures FieldValue(Ubfm, 32, 11, 13, EncodeSw(sw), 0) == sw.top
  {
    assert Pow2(11) == 0x800 && Pow2(3) == 8;
    TopField(sw);
  }

  method EmitStoreTop(r: TranslationResult, base: Reg, top: Reg, tmp: Reg, ghost b: Word, ghost m: X87, ghost t: Depth)
    requires r.Valid() && tmp != base && tmp != top && tmp != XZR
    requires Image(r.cur, b, m) && r.cur.x[base] == b && r.cur.x[top] == t
    modifies r`code, r`cur
    ensures r.Valid()
    ensures Image(r.cur, b, m.(sw := m.sw.(top := t))) && Keeps(old(r.cur), r.cur, b, {tmp}, {})
  {
    hide Step, Exec, Reaches, EncodeSw, EncodeTags, FieldValue, Keeps;
    SetTopField(m.sw, t);
    r.EmitLoad(S16, false, Scaled(1), base, tmp);
    r.EmitBitfield(false, Bfm, 21, 2, top, tmp);
    assert r.cur.x[tmp] == EncodeSw(m.sw.(top := t));
    r.EmitStore(S16, false, Scaled(1), base, tmp);
    StoredSw(old(r.cur), r.cur, b, m, m.sw.(top := t), {tmp});
  }

  // ---------------------------------------------------------------- the tag word

  lemma LslOne(v: nat)
    requires v < 0x8000_0000
    ensures FieldValue(Ubfm, 32, 31, 30, v, 0) == 2 * v
  {
    Powers();
    LargePowers();
  }

  lemma UbfmIgnoresTarget(width: nat, immr: nat, imms: nat, v: nat, d: nat)
    requires immr < width && imms < width
    ensures FieldValue(Ubfm, width, immr, imms, v, d) == FieldValue(Ubfm, width, immr, imms, v, 0)
  {
  }

  lemma OneSlot(tags: Tags, k: Depth, v: Tag)
    ensures Select(tags, Mask(k, 1, 8), v) == tags[k := v]
  {
  }

  lemma SlotMask(k: Depth)
    ensures EncodeTags(Mask(k, 1, 8)) == Shl(3, 2 * k)
  {
    Powers();
    MaskValue(k, 1, 8);
  }

  /** pos := 2 * slot; mask := 3 << pos */
  method EmitSlotMask(r: TranslationResult, slot: Reg, pos: Reg, mask: Reg, ghost k: Depth)
    requires r.Valid() && pos != XZR && mask != XZR && pos != mask && r.cur.x[slot] == k
    modifies r`code, r`cur
    ensures r.Valid()
    ensures r.cur.x[mask] == EncodeTags(Mask(k, 1, 8))
    ensures r.cur == old(r.cur).(x := old(r.cur).x[pos := 2 * k][mask := r.cur.x[mask]])
  {
    hide Step, Exec, Reaches, FieldValue, EncodeTags, Mask, Pow2, Shl;
    LslOne(k);
    UbfmIgnoresTarget(32, 31, 30, k, W(r.cur.x[pos]));
    SlotMask(k);
    r.EmitBitfield(false, Ubfm, 31, 30, slot, pos);
    EmitMovzSmall(r, 3, mask);
    r.EmitLslv(false, pos, mask, mask);
  }

  method EmitMovzSmall(r: TranslationResult, imm: Half, rd: Reg)
    requires r.Valid()
    modifies r`code, r`cur
    ensures r.Valid() && r.cur == SetX(old(r.cur), rd, imm)
  {
    hide Step, Exec, Reaches;
    Powers();
    r.EmitMovWide(false, Movz, 0, imm, rd);
  }

  lemma HalfLogic(a: Half, b: Half)
    ensures LogicW(LogicAnd, true, a, b) == Bic(a, b)
    ensures Or(a, b) < TWO32 ==> LogicW(LogicOrr, false, a, b) == Or(a, b)
  {
    hide Bic, Or;
    assert Pow2(0) == 1;
    assert Shifted(false, Lsl, b, 0) == b;
  }

  lemma TagLogic(tags: Tags, digits: Tags)
    requires IsMask(digits)
    ensures LogicW(LogicAnd, true, EncodeTags(tags), EncodeTags(digits)) == EncodeTags(Select(tags, digits, VALID))
    ensures LogicW(LogicOrr, false, EncodeTags(tags), EncodeTags(digits)) == EncodeTags(Select(tags, digits, EMPTY))
  {
    BicDigits(tags, digits);
    OrDigits(tags, digits);
    HalfLogic(EncodeTags(tags), EncodeTags(digits));
    hide Bic, Or, Digits, LogicW, Select;
  }

  /** What a 32-bit logical instruction with an unshifted register computes. */
  function LogicW(logic: Logic, invert: bool, a: Word, b: Word): Word {
    Trunc(false, LogicValue(logic, invert, Trunc(false, a), Shifted(false, Lsl, b, 0)))
  }

  method EmitLogicW(r: TranslationResult, logic: Logic, invert: bool, rm: Reg, rn: Reg, rd: Reg)
    requires r.Valid()
    modifies r`code, r`cur
    ensures r.Valid()
    ensures r.cur == SetX(old(r.cur), rd, LogicW(logic, invert, old(r.cur).x[rn], old(r.cur).x[rm]))
  {
    hide Step, Exec, Reaches, LogicValue, Shifted, Trunc;
    r.EmitLogicalShiftedReg(false, logic, invert, Lsl, rm, 0, rn, rd);
  }

  /** tag_word &= ~mask: every masked register becomes valid. */
  method EmitClearTags(r: TranslationResult, base: Reg, mask: Reg, tagw: Reg, ghost b: Word, ghost m: X87, ghost digits: Tags)
    requires r.Valid() && tagw != XZR && tagw != base && tagw != mask
    requires Image(r.cur, b, m) && r.cur.x[base] == b
    requires IsMask(digits) && r.cur.x[mask] == EncodeTags(digits)
    modifies r`code, r`cur
    ensures r.Valid()
    ensures Image(r.cur, b, m.(tags := Select(m.tags, digits, VALID))) && Keeps(old(r.cur), r.cur, b, {tagw}, {})
  {
    hide Step, Exec, Reaches, EncodeSw, EncodeTags, LogicW, Select, IsMask, Digits, Keeps;
    TagLogic(m.tags, digits);
    r.EmitLoad(S16, false, Scaled(2), base, tagw);
    EmitLogicW(r, LogicAnd, true, mask, tagw, tagw);
    r.EmitStore(S16, false, Scaled(2), base, tagw);
    StoredTags(old(r.cur), r.cur, b, m, Select(m.tags, digits, VALID), {tagw});
  }

  /** tag_word |= mask: every masked register becomes empty. */
  method EmitSetTags(r: TranslationResult, base: Reg, mask: Reg, tagw: Reg, ghost b: Word, ghost m: X87, ghost digits: Tags)
    requires r.Valid() && tagw != XZR && tagw != base && tagw != mask
    requires Image(r.cur, b, m) && r.cur.x[base] == b
    requires IsMask(digits) && r.cur.x[mask] == EncodeTags(digits)
    modifies r`code, r`cur
    ensures r.Valid()
    ensures Image(r.cur, b, m.(tags := Select(m.tags, digits, EMPTY))) && Keeps(old(r.cur), r.cur, b, {tagw}, {})
  {
    hide Step, Exec, Reaches, EncodeSw, EncodeTags, LogicW, Select, IsMask, Digits, Keeps;
    TagLogic(m.tags, digits);
    r.EmitLoad(S16, false, Scaled(2), base, tagw);
    EmitLogicW(r, LogicOrr, false, mask, tagw, tagw);
    r.EmitStore(S16, false, Scaled(2), base, tagw);
    StoredTags(old(r.cur), r.cur, b, m, Select(m.tags, digits, EMPTY), {tagw});
  }

  /** The register at TOP becomes valid. */
  method EmitTagClear(r: TranslationResult, base: Reg, top: Reg, tmp: Reg, tmp2: Reg, ghost b: Word, ghost m: X87, ghost t: Depth)
    requires r.Valid() && tmp != XZR && tmp2 != XZR && tmp != tmp2 && tmp !in {base, top} && tmp2 !in {base, top}
    requires Image(r.cur, b, m) && r.cur.x[base] == b && r.cur.x[top] == t
    modifies r`code, r`cur
    ensures r.Valid()
    ensures Image(r.cur, b, m.(tags := m.tags[t := VALID])) && Keeps(old(r.cur), r.cur, b, {tmp, tmp2}, {})
  {
    hide Step, Exec, Reaches, EncodeSw, EncodeTags, Select, IsMask, Mask;
    EmitSlotMask(r, top, tmp2, tmp, t);
    OneSlot(m.tags, t, VALID);
    EmitClearTags(r, base, tmp, tmp2, b, m, Mask(t, 1, 8));
  }

  /** The register whose number is in `slot` becomes empty. */
  method EmitTagSet(r: TranslationResult, base: Reg, slot: Reg, tmp: Reg, tmp2: Reg, ghost b: Word, ghost m: X87, ghost k: Depth)
    requires r.Valid() && tmp != XZR && tmp2 != XZR && tmp != tmp2 && tmp !in {base, slot} && tmp2 != base
    requires Image(r.cur, b, m) && r.cur.x[base] == b && r.cur.x[slot] == k
    modifies r`code, r`cur
    ensures r.Valid()
    ensures Image(r.cur, b, m.(tags := m.tags[k := EMPTY])) && Keeps(old(r.cur), r.cur, b, {tmp, tmp2}, {})
  {
    hide Step, Exec, Reaches, EncodeSw, EncodeTags, Select, IsMask, Mask;
    EmitSlotMask(r, slot, tmp2, tmp, k);
    OneSlot(m.tags, k, EMPTY);
    EmitSetTags(r, base, tmp, tmp2, b, m, Mask(k, 1, 8));
  }

  // ---------------------------------------------------------------- push and pop, written through

  method EmitPush(r: TranslationResult, base: Reg, top: Reg, tmp: Reg, tmp2: Reg, ghost b: Word, ghost m: X87)
    requires r.Valid() && tmp != XZR && tmp2 != XZR && top != XZR && tmp != tmp2
    requires tmp !in {base, top} && tmp2 !in {base, top} && base != top
    requires Image(r.cur, b, m) && r.cur.x[base] == b && r.cur.x[top] == m.sw.top
    modifies r`code, r`cur
    ensures r.Valid() && r.cur.x[top] == Push(m).sw.top
    ensures Image(r.cur, b, Push(m)) && Keeps(old(r.cur), r.cur, b, {top, tmp, tmp2}, {})
  {
    hide Step, Exec, Reaches, EncodeSw, EncodeTags;
    ghost var t := Dec(m.sw.top);
    EmitMoveTop(r, false, 1, top, m.sw.top);
    EmitStoreTop(r, base, top, tmp, b, m, t);
    EmitTagClear(r, base, top, tmp, tmp2, b, m.(sw := m.sw.(top := t)), t);
  }

  method EmitPop(r: TranslationResult, base: Reg, top: Reg, tmp: Reg, tmp2: Reg, ghost b: Word, ghost m: X87)
    requires r.Valid() && tmp != XZR && tmp2 != XZR && top != XZR && tmp != tmp2
    requires tmp !in {base, top} && tmp2 !in {base, top} && base != top
    requires Image(r.cur, b, m) && r.cur.x[base] == b && r.cur.x[top] == m.sw.top
    modifies r`code, r`cur
    ensures r.Valid() && r.cur.x[top] == Pop(m).sw.top
    ensures Image(r.cur, b, Pop(m)) && Keeps(old(r.cur), r.cur, b, {top, tmp, tmp2}, {})
  {
    hide Step, Exec, Reaches, EncodeSw, EncodeTags;
    ghost var t := m.sw.top;
    EmitTagSet(r, base, top, tmp, tmp2, b, m, t);
    EmitMoveTop(r, true, 1, top, t);
    EmitStoreTop(r, base, top, tmp, b, m.(tags := m.tags[t := EMPTY]), Inc(t));
  }

  lemma ArcExtends(k: Depth, first: int, n: nat)
    ensures InArc(k, first, n + 1) <==> k == (first + n) % 8 || InArc(k, first, n)
  {
    var d := (k - first) % 8;
    assert n < 8 ==> (d == n <==> k == (first + n) % 8);
  }

  lemma SetTagsStep(tags: Tags, first: int, n: nat, v: Tag)
    ensures SetTags(tags, first, n, v)[(first + n) % 8 := v] == SetTags(tags, first, n + 1, v)
  {
    forall k: Depth
      ensures InArc(k, first, n + 1) <==> k == (first + n) % 8 || InArc(k, first, n)
    {
      ArcExtends(k, first, n);
    }
    hide InArc;
  }

  lemma SetTagsNone(tags: Tags, first: int, v: Tag)
    ensures SetTags(tags, first, 0, v) == tags
  {
  }

  /** The n registers from TOP upwards become empty; TOP := TOP + n in the register only. */
  method EmitPopNDeferred(r: TranslationResult, base: Reg, top: Reg, tmp: Reg, tmp2: Reg, n: Imm12, ghost b: Word, ghost m: X87, ghost t: Depth)
    requires r.Valid() && tmp != XZR && tmp2 != XZR && top != XZR && tmp != tmp2
    requires tmp !in {base, top} && tmp2 !in {base, top} && base != top
    requires Image(r.cur, b, m) && r.cur.x[base] == b && r.cur.x[top] == t
    modifies r`code, r`cur
    ensures r.Valid() && r.cur.x[top] == (t + n) % 8
    ensures Image(r.cur, b, m.(tags := SetTags(m.tags, t, n, EMPTY)))
    ensures Keeps(old(r.cur), r.cur, b, {top, tmp, tmp2}, {})
  {
    hide Step, Exec, Reaches, EncodeSw, EncodeTags, SetTags;
    SetTagsNone(m.tags, t, EMPTY);
    for i := 0 to n
      invariant r.Valid() && r.cur.x[base] == b && r.cur.x[top] == t
      invariant Image(r.cur, b, m.(tags := SetTags(m.tags, t, i, EMPTY)))
      invariant Keeps(old(r.cur), r.cur, b, {top, tmp, tmp2}, {})
    {
      EmitPopTag(r, base, top, tmp, tmp2, i, b, m.(tags := SetTags(m.tags, t, i, EMPTY)), t);
      SetTagsStep(m.tags, t, i, EMPTY);
    }
    EmitMoveTop(r, true, n, top, t);
  }

  method EmitPopTag(r: TranslationResult, base: Reg, top: Reg, tmp: Reg, tmp2: Reg, i: Imm12, ghost b: Word, ghost m: X87, ghost t: Depth)
    requires r.Valid() && tmp != XZR && tmp2 != XZR && top != XZR && tmp != tmp2
    requires tmp !in {base, top} && tmp2 !in {base, top} && base != top
    requires Image(r.cur, b, m) && r.cur.x[base] == b && r.cur.x[top] == t
    modifies r`code, r`cur
    ensures r.Valid()
    ensures Image(r.cur, b, m.(tags := m.tags[(t + i) % 8 := EMPTY])) && Keeps(old(r.cur), r.cur, b, {tmp, tmp2}, {})
  {
    hide Step, Exec, Reaches, EncodeSw, EncodeTags;
    if i == 0 {
      EmitTagSet(r, base, top, tmp, tmp2, b, m, t);
    } else {
      WMod8(t + i);
      hide W;
      r.EmitAddImm(false, false, false, i, top, tmp2);
      EmitAndSeven(r, tmp2);
      EmitTagSet(r, base, tmp2, tmp, tmp2, b, m, (t + i) % 8);
    }
  }

  method EmitPopN(r: TranslationResult, base: Reg, top: Reg, tmp: Reg, tmp2: Reg, n: Imm12, ghost b: Word, ghost m: X87)
    requires r.Valid() && tmp != XZR && tmp2 != XZR && top != XZR && tmp != tmp2
    requires tmp !in {base, top} && tmp2 !in {base, top} && base != top
    requires Image(r.cur, b, m) && r.cur.x[base] == b && r.cur.x[top] == m.sw.top
    modifies r`code, r`cur
    ensures r.Valid() && r.cur.x[top] == (m.sw.top + n) % 8
    ensures Image(r.cur, b, m.(sw := m.sw.(top := (m.sw.top + n) % 8), tags := SetTags(m.tags, m.sw.top, n, EMPTY)))
    ensures Keeps(old(r.cur), r.cur, b, {top, tmp, tmp2}, {})
  {
    hide Step, Exec, Reaches, EncodeSw, EncodeTags, SetTags;
    EmitPopNDeferred(r, base, top, tmp, tmp2, n, b, m, m.sw.top);
    EmitStoreTop(r, base, top, tmp, b, m.(tags := SetTags(m.tags, m.sw.top, n, EMPTY)), (m.sw.top + n) % 8);
  }

  // ---------------------------------------------------------------- batched tag updates

  /** The `count` registers just below TOP become empty, with one load and one store. */
  method EmitTagSetEmptyBatch(r: TranslationResult, base: Reg, top: Reg, tmp: Reg, tmp2: Reg, tagw: Reg, count: Imm12,
                              ghost b: Word, ghost m: X87, ghost t: Depth)
    requires r.Valid() && XZR !in {top, tmp, tmp2, tagw} && Distinct(base, top, tmp, tmp2, tagw)
    requires Image(r.cur, b, m) && r.cur.x[base] == b && r.cur.x[top] == t
    modifies r`code, r`cur
    ensures r.Valid()
    ensures Image(r.cur, b, m.(tags := SetTags(m.tags, t - count, count, EMPTY)))
    ensures Keeps(old(r.cur), r.cur, b, {tmp, tmp2, tagw}, {})
  {
    hide Step, Exec, Reaches, EncodeSw, EncodeTags, SetTags;
    SetTagsNone(m.tags, t - count, EMPTY);
    r.EmitLoad(S16, false, Scaled(2), base, tagw);
    for i := 0 to count
      invariant r.Valid() && r.cur == old(r.cur).(x := r.cur.x) && KeepsX(old(r.cur), r.cur, {tmp, tmp2, tagw})
      invariant r.cur.x[tagw] == EncodeTags(SetTags(m.tags, t - count, i, EMPTY))
    {
      EmitOrSlot(r, top, tmp, tmp2, tagw, count - i, t, SetTags(m.tags, t - count, i, EMPTY));
      assert t - (count - i) == t - count + i;
      SetTagsStep(m.tags, t - count, i, EMPTY);
    }
    r.EmitStore(S16, false, Scaled(2), base, tagw);
    StoredTags(old(r.cur), r.cur, b, m, SetTags(m.tags, t - count, count, EMPTY), {tmp, tmp2, tagw});
  }

  /** tmp := (TOP - back) & 7 */
  method EmitBelow(r: TranslationResult, top: Reg, tmp: Reg, back: Imm12, ghost t: Depth)
    requires r.Valid() && tmp != XZR && r.cur.x[top] == t
    modifies r`code, r`cur
    ensures r.Valid() && r.cur == SetX(old(r.cur), tmp, (t - back) % 8)
  {
    WMod8(t - back);
    hide Step, Exec, Reaches, W;
    r.EmitAddImm(false, true, false, back, top, tmp);
    EmitAndSeven(r, tmp);
  }

  /** tagw |= 3 << 2 * ((TOP - back) & 7) */
  method EmitOrSlot(r: TranslationResult, top: Reg, tmp: Reg, tmp2: Reg, tagw: Reg, back: Imm12, ghost t: Depth, ghost tags: Tags)
    requires r.Valid() && Distinct(top, tmp, tmp2, tagw, XZR)
    requires r.cur.x[top] == t && r.cur.x[tagw] == EncodeTags(tags)
    modifies r`code, r`cur
    ensures r.Valid() && r.cur == old(r.cur).(x := r.cur.x) && KeepsX(old(r.cur), r.cur, {tmp, tmp2, tagw})
    ensures r.cur.x[tagw] == EncodeTags(tags[(t - back) % 8 := EMPTY])
  {
    ghost var k: Depth := (t - back) % 8;
    OneSlot(tags, k, EMPTY);
    TagLogic(tags, Mask(k, 1, 8));
    hide Step, Exec, Reaches, EncodeTags, Mask, Select, IsMask, LogicW, W;
    EmitBelow(r, top, tmp, back, t);
    EmitSlotMask(r, tmp, tmp, tmp2, k);
    EmitLogicW(r, LogicOrr, false, tmp2, tagw, tagw);
  }

  /** The mask of `count` registers from t upwards, with the part above bit 16 folded back. */
  function Folded(t: Depth, count: nat): (f: seq<Tag>)
    requires count <= 8
    ensures |f| == 16 && IsMask(f)
  {
    var mask := Mask(t, count, 16);
    Select(mask, mask[8..] + Fill(8, 0), 3)
  }

  lemma FoldedIsArc(t: Depth, count: nat, k: Depth)
    requires count <= 8
    ensures Folded(t, count)[k] == 3 <==> InArc(k, t, count)
  {
    var mask := Mask(t, count, 16);
    assert (mask[8..] + Fill(8, 0))[k] == mask[k + 8];
    assert (k - t) % 8 == if k >= t then k - t else k - t + 8;
  }

  lemma ShrSixteen(a: seq<Tag>)
    requires |a| == 16
    ensures Shr(Digits(a), 16) == Digits(a[8..] + Fill(8, 0))
  {
    Powers();
    DigitsConcat(a[..8], a[8..]);
    assert a[..8] + a[8..] == a;
    DigitsBound(a[..8]);
    DigitsConcat(a[8..], Fill(8, 0));
    DigitsOfZeros(8);
    DivUnique(Digits(a), TWO16, Digits(a[8..]));
  }

  /** The folded mask as the emitted ORR computes it. */
  lemma FoldedValue(t: Depth, count: nat)
    requires 1 <= count <= 8
    ensures var d := Shl(Pow2(2 * count) - 1, 2 * t);
      d < TWO32 && Or(d, Shr(d, 16)) == Digits(Folded(t, count)) < TWO32
  {
    LargePowers();
    var mask := Mask(t, count, 16);
    MaskValue(t, count, 16);
    ShrSixteen(mask);
    DigitsBound(mask);
    OrDigits(mask, mask[8..] + Fill(8, 0));
    DigitsBound(Folded(t, count));
  }

  lemma BicFolded(tags: Tags, t: Depth, count: nat)
    requires count <= 8
    ensures Bic(EncodeTags(tags), Digits(Folded(t, count))) == EncodeTags(SetTags(tags, t, count, VALID))
  {
    var f := Folded(t, count);
    var pad := Fill(8, 0);
    DigitsConcat(tags, pad);
    DigitsOfZeros(8);
    BicDigits(tags + pad, f);
    var cleared := SetTags(tags, t, count, VALID);
    forall k: Depth
      ensures f[k] == 3 <==> InArc(k, t, count)
    {
      FoldedIsArc(t, count, k);
    }
    DigitsConcat(cleared, pad);
    hide Digits, Bic, Folded, InArc, Fill;
    assert Select(tags + pad, f, 0) == cleared + pad;
  }

  /** The `count` registers from TOP upwards become valid, in a constant number of instructions. */
  method EmitTagSetValidBatch(r: TranslationResult, base: Reg, top: Reg, tmp: Reg, tmp2: Reg, tagw: Reg, count: nat,
                              ghost b: Word, ghost m: X87, ghost t: Depth)
    requires r.Valid() && XZR !in {top, tmp, tmp2, tagw} && Distinct(base, top, tmp, tmp2, tagw) && 1 <= count <= 8
    requires Image(r.cur, b, m) && r.cur.x[base] == b && r.cur.x[top] == t
    modifies r`code, r`cur
    ensures r.Valid()
    ensures Image(r.cur, b, m.(tags := SetTags(m.tags, t, count, VALID)))
    ensures Keeps(old(r.cur), r.cur, b, {tmp, tmp2, tagw}, {})
  {
    hide Step, Exec, Reaches, EncodeSw, EncodeTags, SetTags, FoldedWord, LogicW;
    ClearedByFold(m.tags, t, count);
    r.EmitLoad(S16, false, Scaled(2), base, tagw);
    EmitFoldedMask(r, top, tmp, tmp2, count, t);
    EmitLogicW(r, LogicAnd, true, tmp2, tagw, tagw);
    r.EmitStore(S16, false, Scaled(2), base, tagw);
    StoredTags(old(r.cur), r.cur, b, m, SetTags(m.tags, t, count, VALID), {tmp, tmp2, tagw});
  }

  function FoldedWord(t: Depth, count: nat): Word32
    requires 1 <= count <= 8
  {
    FoldedValue(t, count);
    Digits(Folded(t, count))
  }

  lemma BicSmall(a: Half, b: Word)
    requires b < TWO32
    ensures LogicW(LogicAnd, true, a, b) == Bic(a, b)
  {
    hide Bic;
    assert Pow2(0) == 1;
    assert Shifted(false, Lsl, b, 0) == b;
  }

  lemma ClearedByFold(tags: Tags, t: Depth, count: nat)
    requires 1 <= count <= 8
    ensures LogicW(LogicAnd, true, EncodeTags(tags), FoldedWord(t, count)) == EncodeTags(SetTags(tags, t, count, VALID))
  {
    BicFolded(tags, t, count);
    BicSmall(EncodeTags(tags), FoldedWord(t, count));
    hide LogicW, Bic, SetTags, EncodeTags, Folded, Digits;
  }

  /** (1 << 2 * count) - 1, the MOVZ immediate of the batch. */
  function BatchBits(count: nat): Half
    requires 1 <= count <= 8
  {
    Powers();
    Pow2Mono(2 * count, 16);
    Pow2(2 * count) - 1
  }

  lemma OrrLsr(d: Word32)
    requires Or(d, Shr(d, 16)) < TWO32
    ensures Trunc(false, LogicValue(LogicOrr, false, Trunc(false, d), Shifted(false, Lsr, d, 16))) == Or(d, Shr(d, 16))
  {
    hide Shr, Or;
    assert Trunc(false, d) == d;
  }

  lemma LslSmall(v: Word32, n: nat)
    requires Shl(v, n) < TWO32
    ensures Shifted(false, Lsl, v, n) == Shl(v, n)
  {
    hide Shl;
  }

  lemma FoldFacts(t: Depth, count: nat)
    requires 1 <= count <= 8
    ensures var d := Shifted(false, Lsl, BatchBits(count), 2 * t);
      Trunc(false, LogicValue(LogicOrr, false, Trunc(false, d), Shifted(false, Lsr, d, 16))) == FoldedWord(t, count)
  {
    hide Pow2, Shl, Shr, Or, Digits, Folded, Shifted, LogicValue, Trunc;
    FoldedValue(t, count);
    LslSmall(BatchBits(count), 2 * t);
    OrrLsr(Shl(BatchBits(count), 2 * t));
  }

  method EmitFoldedMask(r: TranslationResult, top: Reg, tmp: Reg, tmp2: Reg, count: nat, ghost t: Depth)
    requires r.Valid() && XZR !in {tmp, tmp2} && top != tmp && top != tmp2 && tmp != tmp2 && 1 <= count <= 8
    requires r.cur.x[top] == t
    modifies r`code, r`cur
    ensures r.Valid() && r.cur == old(r.cur).(x := r.cur.x) && KeepsX(old(r.cur), r.cur, {tmp, tmp2})
    ensures r.cur.x[tmp2] == FoldedWord(t, count)
  {
    hide Step, Exec, Reaches, FieldValue, FoldedWord, BatchBits, Shifted, LogicValue;
    LslOne(t);
    UbfmIgnoresTarget(32, 31, 30, t, W(r.cur.x[tmp]));
    FoldFacts(t, count);
    r.EmitBitfield(false, Ubfm, 31, 30, top, tmp);
    EmitMovzSmall(r, BatchBits(count), tmp2);
    r.EmitLslv(false, tmp, tmp2, tmp2);
    r.EmitLogicalShiftedReg(false, LogicOrr, false, Lsr, tmp2, 16, tmp2, tmp2);
  }

  // ---------------------------------------------------------------- addressing ST(i)

  /** key holds what a store to physical register k needs: k itself, or its byte offset. */
  ghost predicate KeyAt(s: State, key: Reg, stBase: int, k: Depth) {
    s.x[key] == if stBase >= 0 then k else 8 + 8 * k
  }

  ghost predicate Addressable(s: State, base: Reg, stBase: int, b: Word) {
    && s.x[base] == b && b + 0x48 <= TWO64
    && (0 <= stBase < 31 ==> s.x[stBase] == b + 8)
    && stBase < 31
  }

  /** A depth as the emitters take it; one fusion asks for ST(8), which wraps around to ST(0). */
  type StackIndex = d: nat | d <= 8

  method EmitPhysIndex(r: TranslationResult, top: Reg, depth: StackIndex, out: Reg, ghost t: Depth)
    requires r.Valid() && out != XZR && r.cur.x[top] == t
    modifies r`code, r`cur
    ensures r.Valid() && r.cur == SetX(old(r.cur), out, Phys(t, depth % 8))
  {
    hide Step, Exec, Reaches;
    if depth == 0 {
      if out != top {
        r.EmitMovReg(false, out, top);
      } else {
        assert r.cur.x[out := t as Word] == r.cur.x;
      }
    } else {
      WMod8(t + depth);
      hide W;
      r.EmitAddImm(false, false, false, depth, top, out);
      EmitAndSeven(r, out);
    }
  }

  lemma LslThree(v: nat)
    requires v < 8
    ensures FieldValue(Ubfm, 32, 29, 28, v, 0) == 8 * v
  {
    Powers();
    Pow2Mono(3, 29);
  }

  /** The address key of ST(depth). */
  method EmitKey(r: TranslationResult, base: Reg, top: Reg, depth: StackIndex, tmp: Reg, stBase: int, ghost b: Word, ghost t: Depth)
      returns (key: Reg)
    requires r.Valid() && tmp != XZR && tmp !in {base, top} && tmp != stBase
    requires Addressable(r.cur, base, stBase, b) && r.cur.x[top] == t
    modifies r`code, r`cur
    ensures r.Valid() && r.cur == old(r.cur).(x := r.cur.x) && KeepsX(old(r.cur), r.cur, {tmp})
    ensures key == (if stBase >= 0 && depth == 0 then top else tmp)
    ensures KeyAt(r.cur, key, stBase, Phys(t, depth % 8)) && Addressable(r.cur, base, stBase, b)
  {
    hide Step, Exec, Reaches, FieldValue;
    if stBase >= 0 {
      if depth == 0 {
        return top;
      }
      EmitPhysIndex(r, top, depth, tmp, t);
    } else {
      EmitPhysIndex(r, top, depth, tmp, t);
      EmitByteOffset(r, tmp, Phys(t, depth % 8));
    }
    key := tmp;
  }

  /** reg := 8 + 8 * reg */
  method EmitByteOffset(r: TranslationResult, reg: Reg, ghost k: Depth)
    requires r.Valid() && reg != XZR && r.cur.x[reg] == k
    modifies r`code, r`cur
    ensures r.Valid() && r.cur == SetX(old(r.cur), reg, 8 + 8 * k)
  {
    hide Step, Exec, Reaches, FieldValue;
    LslThree(k);
    UbfmIgnoresTarget(32, 29, 28, k, W(r.cur.x[reg]));
    r.EmitBitfield(false, Ubfm, 29, 28, reg, reg);
    r.EmitAddImm(false, false, false, 8, reg, reg);
  }

  /** Where an access through a key goes. */
  lemma KeyAddress(s: State, base: Reg, key: Reg, stBase: int, b: Word, k: Depth)
    requires Addressable(s, base, stBase, b) && KeyAt(s, key, stBase, k)
    ensures Address(s, Indexed(key, stBase >= 0), S64, if stBase >= 0 then stBase else base) == b + 8 + 8 * k
  {
  }

  lemma LoadedSlot(s: State, u: State, t: State, b: Word, m: X87, dd: Reg, k: Depth, xs: set<Reg>)
    requires Image(s, b, m) && u == s.(x := u.x) && KeepsX(s, u, xs) && t == Load(u, S64, true, b + 8 + 8 * k, dd)
    ensures Image(t, b, m) && Keeps(s, t, b, xs, {dd}) && t.d[dd] == m.st[k] && t.x == u.x
  {
    hide EncodeSw, EncodeTags;
  }

  lemma StoredSlot(s: State, t: State, b: Word, m: X87, k: Depth, v: Word, xs: set<Reg>)
    requires Image(s, b, m) && t == s.(x := t.x, q := s.q[b + 8 + 8 * k := v]) && KeepsX(s, t, xs)
    ensures Image(t, b, m.(st := m.st[k := v])) && Keeps(s, t, b, xs, {})
  {
    hide EncodeSw, EncodeTags;
  }

  method EmitLoadSt(r: TranslationResult, base: Reg, top: Reg, depth: StackIndex, tmp: Reg, dd: Reg, stBase: int,
                    ghost b: Word, ghost m: X87, ghost t: Depth) returns (key: Reg)
    requires r.Valid() && tmp != XZR && tmp !in {base, top} && tmp != stBase
    requires Addressable(r.cur, base, stBase, b) && r.cur.x[top] == t && Image(r.cur, b, m)
    modifies r`code, r`cur
    ensures r.Valid() && r.cur.d[dd] == m.st[Phys(t, depth % 8)]
    ensures Image(r.cur, b, m) && Keeps(old(r.cur), r.cur, b, {tmp}, {dd})
    ensures key in {top, tmp} && KeyAt(r.cur, key, stBase, Phys(t, depth % 8)) && Addressable(r.cur, base, stBase, b)
  {
    hide Step, Exec, Reaches, Image, Keeps, Phys, Address, Load;
    key := EmitKey(r, base, top, depth, tmp, stBase, b, t);
    ghost var s := r.cur;
    KeyAddress(s, base, key, stBase, b, Phys(t, depth % 8));
    if stBase >= 0 {
      r.EmitLoad(S64, true, Indexed(key, true), stBase, dd);
    } else {
      r.EmitLoad(S64, true, Indexed(key, false), base, dd);
    }
    LoadedSlot(old(r.cur), s, r.cur, b, m, dd, Phys(t, depth % 8), {tmp});
  }

  method EmitStoreStAtOffset(r: TranslationResult, base: Reg, key: Reg, dd: Reg, stBase: int, ghost b: Word, ghost m: X87, ghost k: Depth)
    requires r.Valid() && Addressable(r.cur, base, stBase, b) && KeyAt(r.cur, key, stBase, k) && Image(r.cur, b, m)
    modifies r`code, r`cur
    ensures r.Valid()
    ensures Image(r.cur, b, m.(st := m.st[k := old(r.cur).d[dd]])) && Keeps(old(r.cur), r.cur, b, {}, {})
  {
    hide Step, Exec, Reaches, EncodeSw, EncodeTags;
    if stBase >= 0 {
      r.EmitStore(S64, true, Indexed(key, true), stBase, dd);
    } else {
      r.EmitStore(S64, true, Indexed(key, false), base, dd);
    }
    StoredSlot(old(r.cur), r.cur, b, m, k, old(r.cur).d[dd], {});
  }

  method EmitStoreSt(r: TranslationResult, base: Reg, top: Reg, depth: Depth, tmp: Reg, dd: Reg, stBase: int,
                     ghost b: Word, ghost m: X87, ghost t: Depth)
    requires r.Valid() && tmp != XZR && tmp !in {base, top} && tmp != stBase
    requires Addressable(r.cur, base, stBase, b) && r.cur.x[top] == t && Image(r.cur, b, m)
    modifies r`code, r`cur
    ensures r.Valid()
    ensures Image(r.cur, b, m.(st := m.st[Phys(t, depth) := old(r.cur).d[dd]])) && Keeps(old(r.cur), r.cur, b, {tmp}, {})
  {
    hide Step, Exec, Reaches, EncodeSw, EncodeTags, Phys;
    var key := EmitKey(r, base, top, depth, tmp, stBase, b, t);
    EmitStoreStAtOffset(r, base, key, dd, stBase, b, m, Phys(t, depth));
  }

  // ---------------------------------------------------------------- entering: base address and TOP

  /** The offset as ADD can carry it: 24 bits. */
  function Reach(offset: nat): nat { offset % 0x100_0000 }

  lemma Split24(offset: nat)
    ensures Reach(offset) == 0x1000 * ((offset / 0x1000) % 0x1000) + offset % 0x1000
  {
  }

  lemma DistinctWords(a: int, d: int)
    requires 0 < d < TWO64
    ensures X(a) != X(a + d)
  {
    var p, q := a / TWO64, (a + d) / TWO64;
    assert X(a) == a - p * TWO64 && X(a + d) == a + d - q * TWO64;
  }

  /** EmitBase computes the address of the X87State exactly when its offset fits 24 bits. */
  lemma BaseExact(x18: Word, offset: nat)
    requires offset < TWO32
    ensures X(x18 + Reach(offset)) == X(x18 + offset) <==> offset < 0x100_0000
  {
    if offset >= 0x100_0000 {
      DistinctWords(x18 + Reach(offset), offset - Reach(offset));
    }
  }

  /** At an offset of 2^24 it computes X18 itself. */
  lemma BaseMissed(x18: Word)
    ensures X(x18 + Reach(0x100_0000)) == x18
  {
  }

  method EmitBase(r: TranslationResult, offset: nat, xd: Reg)
    requires r.Valid() && offset < TWO32 && xd != XZR && xd != X18
    modifies r`code, r`cur
    ensures r.Valid() && r.cur == SetX(old(r.cur), xd, X(old(r.cur).x[X18] + Reach(offset)))
  {
    hide Step, Exec, Reaches;
    Split24(offset);
    ghost var high := 0x1000 * ((offset / 0x1000) % 0x1000);
    XAdd(r.cur.x[X18] + high, offset % 0x1000);
    hide X, Reach;
    if offset <= 0xFFF {
      r.EmitAddImm(true, false, false, offset, X18, xd);
    } else if offset % 0x1000 == 0 {
      r.EmitAddImm(true, false, true, (offset / 0x1000) % 0x1000, X18, xd);
    } else {
      r.EmitAddImm(true, false, true, (offset / 0x1000) % 0x1000, X18, xd);
      r.EmitAddImm(true, false, false, offset % 0x1000, xd, xd);
    }
  }

  /** The status word, addressed from X18 or from the base. */
  lemma StatusAddress(s: State, base: Reg, offset: nat, b: Word)
    requires b + 0x48 <= TWO64 && s.x[base] == b == X(s.x[X18] + offset)
    ensures Address(s, Scaled(1), S16, base) == b + 2
    ensures offset % 2 == 0 && offset + 2 <= 0x1FFE ==> Address(s, Scaled((offset + 2) / 2), S16, X18) == b + 2
  {
    XAdd(s.x[X18] + offset, 2);
  }

  /** TOP from the status word, addressed from X18 when the offset is encodable there. */
  method EmitLoadTop(r: TranslationResult, offset: nat, base: Reg, top: Reg, ghost b: Word, ghost m: X87)
    requires r.Valid() && top != XZR && top != base && offset < 0x100_0000
    requires Image(r.cur, b, m) && r.cur.x[base] == b == X(r.cur.x[X18] + offset)
    modifies r`code, r`cur
    ensures r.Valid() && r.cur == SetX(old(r.cur), top, m.sw.top)
  {
    hide Step, Exec, Reaches, EncodeSw, EncodeTags, FieldValue, Address;
    var direct := (offset + 2) % 2 == 0 && offset + 2 <= 0x1FFE;
    StatusAddress(r.cur, base, offset, b);
    if direct {
      r.EmitLoad(S16, false, Scaled((offset + 2) / 2), X18, top);
    } else {
      r.EmitLoad(S16, false, Scaled(1), base, top);
    }
    EmitTopField(r, top, m.sw);
  }

  /** UBFX top, top, #11, #3 */
  method EmitTopField(r: TranslationResult, top: Reg, ghost sw: StatusWord)
    requires r.Valid() && top != XZR && r.cur.x[top] == EncodeSw(sw)
    modifies r`code, r`cur
    ensures r.Valid() && r.cur == SetX(old(r.cur), top, sw.top)
  {
    hide Step, Exec, Reaches, EncodeSw, FieldValue;
    GetTopField(sw);
    UbfmIgnoresTarget(32, 11, 13, EncodeSw(sw), W(r.cur.x[top]));
    r.EmitBitfield(false, Ubfm, 11, 13, top, top);
  }
}
