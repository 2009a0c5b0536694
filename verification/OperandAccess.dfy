/**
 Operands with segment overrides (compute_operand_address), the folding of displacements into
 the load or store (compute_operand_access), and the accesses built on them.
 */
module OperandAccess {
  import opened Words
  import opened Bits
  import opened Arm
  import opened Translation
  import opened X87Code
  import opened LoadImmediate
  import opened Addressing

  datatype Segment = NoSegment | Fs | Gs

  datatype Place = Mem(m: MemRef) | Abs(value: Disp)

  /** A guest memory operand; addr64 says whether its address size is 64 bits. */
  datatype Operand = Operand(addr64: bool, seg: Segment, place: Place)

  /** Where the thread context keeps the FS base, and how TLS is reached. */
  datatype Context = Context(fsField: nat, jit: bool)

  // ---------------------------------------------------------------- the address meant

  function Offset0(s: State, is64: bool, p: Place): Word {
    match p
    case Mem(m) => EffectiveAddress(s, is64, m)
    case Abs(v) => Trunc(is64, v)
  }

  /** The byte offset of the FS base that LDR (scaled by four) can reach. */
  function FsAddress(s: State, ctx: Context): Word {
    X(s.x[X18] + (ctx.fsField / 4) * 4)
  }

  function GsBase(s: State, ctx: Context): Word {
    if ctx.jit then Read64(s, X(s.tls + 48)) else s.tls
  }

  /** 64-bit addressing needs both the operand and the caller to ask for it. */
  function Address64(is64: bool, op: Operand): bool {
    is64 && op.addr64
  }

  function OperandAddress(s: State, is64: bool, op: Operand, ctx: Context): Word {
    var w := Address64(is64, op);
    var offset := Offset0(s, w, op.place);
    match op.seg
    case NoSegment => offset
    case Fs => Trunc(w, Read32(s, FsAddress(s, ctx)) as int + offset)
    case Gs => X(GsBase(s, ctx) as int + offset)
  }

  // ---------------------------------------------------------------- compute_operand_address

  /** Enough scratch registers: with an override two are needed, and X29 for thread-local storage. */
  ghost predicate Room(seg: Segment, f: set<Reg>) {
    && f != {}
    && (!seg.NoSegment? ==> exists a: Reg, b: Reg :: a < b < X29 && a in f && b in f)
    && (seg.Gs? ==> X29 in f)
  }

  /** Only free registers and the hint change, and nothing but the register returned leaves the pool. */
  ghost predicate Takes(s: State, u: State, f: set<Reg>, g: set<Reg>, hint: Reg, out: Reg) {
    && u == s.(x := u.x)
    && (forall k: Reg :: k !in f && k != hint ==> u.x[k] == s.x[k])
    && (out in f || out == hint || out < 16) && out != XZR
    && g == f - {out}
  }

  predicate WellShifted(is64: bool, p: Place) {
    p.Mem? ==> p.m.shift < Width(is64)
  }

  method ComputePlaceAddress(r: TranslationResult, is64: bool, p: Place, hint: Reg) returns (out: Reg, ghost t: Reg)
    requires r.Valid() && r.freeGpr != {} && hint !in r.freeGpr && WellShifted(is64, p)
    modifies r`code, r`cur, r`freeGpr
    ensures r.Valid() && r.cur.x[out] == Offset0(old(r.cur), is64, p)
    ensures Settles(old(r.cur), r.cur, old(r.freeGpr), r.freeGpr, hint, out, t)
  {
    hide Reaches, EffectiveAddress;
    match p
    case Mem(m) =>
      hide Settles;
      out, t := ComputeMemOperandAddress(r, is64, m, hint);
    case Abs(v) =>
      TruncOfX(is64, v);
      hide Trunc, X;
      out, t := TakeOut(r, hint);
      EmitLoadImmediateNoXzr(r, is64, X(v), out);
  }

  /** seg := FS base + offset */
  method EmitFs(r: TranslationResult, is64: bool, seg: Reg, inner: Reg, ctx: Context)
    requires r.Valid() && seg != XZR && seg != inner && ctx.fsField / 4 < 4096
    modifies r`code, r`cur
    ensures r.Valid()
    ensures var s := old(r.cur);
      r.cur == SetX(s, seg, Trunc(is64, Read32(s, FsAddress(s, ctx)) as int + s.x[inner]))
  {
    hide Step, Exec, Reaches, Trunc;
    r.EmitLoad(S32, false, Scaled(ctx.fsField / 4), X18, seg);
    EmitAddReg(r, is64, seg, seg, inner);
  }

  /** seg := thread-local base + offset; X29 is overwritten by the routine that finds the base. */
  method EmitGs(r: TranslationResult, seg: Reg, inner: Reg, ctx: Context)
    requires r.Valid() && seg != XZR && seg != inner && X29 !in {seg, inner}
    modifies r`code, r`cur
    ensures r.Valid()
    ensures var s := old(r.cur);
      r.cur == s.(x := s.x[X29 := s.tls][seg := X(GsBase(s, ctx) as int + s.x[inner])])
  {
    hide Step, Reaches;
    r.EmitPlain(BlTlsBase);
    var base: Reg := X29;
    if ctx.jit {
      r.EmitLoad(S64, false, Scaled(6), X29, seg);
      base := seg;
    }
    EmitAddReg(r, true, seg, base, inner);
  }

  predicate IsHint(hint: Reg) {
    hint < 16 || GprScratch(hint) || hint == XZR
  }

  /** After the offset took at most the lowest register, there is still room for the segment base. */
  lemma RoomLeft(seg: Segment, f: set<Reg>, g: set<Reg>, hint: Reg, inner: Reg)
    requires Room(seg, f) && !seg.NoSegment? && hint !in f && (inner < 16 || inner == hint || inner in f)
    requires g == f - {inner} && (inner in f ==> forall k :: k in f ==> inner <= k)
    ensures exists b: Reg :: b < X29 && b in g
    ensures seg.Gs? ==> X29 in g && inner != X29
  {
    var a: Reg, b: Reg :| a < b < X29 && a in f && b in f;
    assert b in g;
  }

  method ComputeOperandAddress(r: TranslationResult, is64: bool, op: Operand, hint: Reg, ctx: Context) returns (out: Reg)
    requires r.Valid() && hint !in r.freeGpr && IsHint(hint) && Room(op.seg, r.freeGpr)
    requires WellShifted(Address64(is64, op), op.place) && ctx.fsField / 4 < 4096
    modifies r`code, r`cur, r`freeGpr
    ensures r.Valid() && r.cur.x[out] == OperandAddress(old(r.cur), is64, op, ctx)
    ensures Takes(old(r.cur), r.cur, old(r.freeGpr), r.freeGpr, hint, out)
  {
    hide Reaches, Offset0, Trunc, FsAddress, GsBase, Room;
    var w := Address64(is64, op);
    ghost var f := r.freeGpr;
    ghost var t: Reg;
    NonEmptyRoom(op.seg, f);
    var inner: Reg;
    inner, t := ComputePlaceAddress(r, w, op.place, hint);
    if op.seg.NoSegment? {
      return inner;
    }
    ghost var s := r.cur;
    RoomLeft(op.seg, f, r.freeGpr, hint, inner);
    SameBases(old(r.cur), s, ctx);
    out := AddSegment(r, w, op.seg, inner, ctx);
    if inner != hint {
      r.FreeGpr(inner);
    }
  }

  lemma NonEmptyRoom(seg: Segment, f: set<Reg>)
    requires Room(seg, f)
    ensures f != {}
  {
  }

  /** Adds the segment base in a fresh register. */
  method AddSegment(r: TranslationResult, is64: bool, seg: Segment, inner: Reg, ctx: Context) returns (out: Reg)
    requires r.Valid() && !seg.NoSegment? && inner !in r.freeGpr && (seg.Gs? ==> X29 in r.freeGpr)
    requires exists b: Reg :: b < X29 && b in r.freeGpr
    requires ctx.fsField / 4 < 4096
    modifies r`code, r`cur, r`freeGpr
    ensures r.Valid() && out in old(r.freeGpr) && r.freeGpr == old(r.freeGpr) - {out}
    ensures r.cur == old(r.cur).(x := r.cur.x)
    ensures forall k: Reg :: k !in old(r.freeGpr) ==> r.cur.x[k] == old(r.cur.x[k])
    ensures var s := old(r.cur);
      r.cur.x[out] == if seg.Fs? then Trunc(is64, Read32(s, FsAddress(s, ctx)) as int + s.x[inner])
                      else X(GsBase(s, ctx) as int + s.x[inner])
  {
    hide Reaches, Trunc, FsAddress, GsBase, X;
    ghost var f := r.freeGpr;
    out := r.AllocFreeGpr();
    if seg.Fs? {
      EmitFs(r, is64, out, inner, ctx);
    } else {
      var tls := r.AllocGpr(7);
      EmitGs(r, out, inner, ctx);
      r.FreeGpr(tls);
    }
  }

  lemma SameBases(s: State, u: State, ctx: Context)
    requires u == s.(x := u.x) && u.x[X18] == s.x[X18]
    ensures FsAddress(u, ctx) == FsAddress(s, ctx) && GsBase(u, ctx) == GsBase(s, ctx)
  {
  }

  // ---------------------------------------------------------------- folding

  datatype Enc = FullEA | ScaledImm12 | Unscaled9

  datatype Access = Access(base: Reg, offset: int, enc: Enc)

  /** Which form of LDR or STR can hold the displacement (classify_ldst_disp). */
  function Classify(disp: int, size: Size): Enc {
    if disp >= 0 && disp % Bytes(size) == 0 && disp / Bytes(size) <= 4095 then ScaledImm12
    else if -256 <= disp <= 255 then Unscaled9
    else FullEA
  }

  /** The form of an access `extra` bytes further on. */
  function ModeAt(a: Access, extra: nat, size: Size): Mode
    requires a.enc.Unscaled9? ==> -256 <= a.offset + extra <= 255
    requires !a.enc.Unscaled9? ==> 0 <= (a.offset + extra) / Bytes(size) <= 4095
  {
    if a.enc.Unscaled9? then Unscaled((a.offset + extra) % 512) else Scaled((a.offset + extra) / Bytes(size))
  }

  predicate Encodes(a: Access, extra: nat, size: Size) {
    if a.enc.Unscaled9? then -256 <= a.offset + extra <= 255
    else 0 <= a.offset + extra <= 4095 * Bytes(size) && (a.offset + extra) % Bytes(size) == 0
  }

  lemma EncodedOffset(a: Access, extra: nat, size: Size, x: GprFile)
    requires Encodes(a, extra, size)
    ensures !a.enc.Unscaled9? ==> 0 <= (a.offset + extra) / Bytes(size) <= 4095
    ensures Offset(ModeAt(a, extra, size), size, x) == a.offset + extra
  {
  }

  /** A second access, `extra` bytes after the first; extra == 0 means there is none. */
  datatype Second = Second(extra: nat, size: Size)

  predicate Foldable(is64: bool, op: Operand, size: Size, second: Second) {
    && op.seg.NoSegment? && is64 && op.addr64 && op.place.Mem? && op.place.m.hasBase && !op.place.m.hasIndex
    && Classify(op.place.m.disp, size) != FullEA
    && (second.extra != 0 ==> Classify(op.place.m.disp + second.extra, second.size) == Classify(op.place.m.disp, size))
  }

  lemma FoldedEncodes(disp: Disp, size: Size, second: Second, base: Reg)
    requires Classify(disp, size) != FullEA
    requires second.extra != 0 ==> Classify(disp + second.extra, second.size) == Classify(disp, size)
    ensures var a := Access(base, disp, Classify(disp, size));
      Encodes(a, 0, size) && (second.extra != 0 ==> Encodes(a, second.extra, second.size))
  {
  }

  /** Small enough, and aligned enough, for a plain register address to serve both accesses. */
  predicate SecondFits(second: Second) {
    second.extra <= 255 && second.extra % Bytes(second.size) == 0
  }

  /**
   However the access is formed, it reaches the operand's address, and the second access the
   address `extra` bytes above.
   */
  method ComputeOperandAccess(r: TranslationResult, is64: bool, op: Operand, size: Size, second: Second, fold: bool, ctx: Context)
      returns (a: Access)
    requires r.Valid() && Room(op.seg, r.freeGpr) && SecondFits(second)
    requires WellShifted(Address64(is64, op), op.place) && ctx.fsField / 4 < 4096
    modifies r`code, r`cur, r`freeGpr
    ensures r.Valid() && Takes(old(r.cur), r.cur, old(r.freeGpr), r.freeGpr, XZR, a.base)
    ensures Encodes(a, 0, size) && (second.extra != 0 ==> Encodes(a, second.extra, second.size))
    ensures X(r.cur.x[a.base] + a.offset) == OperandAddress(old(r.cur), is64, op, ctx)
    ensures !a.enc.FullEA? <==> fold && Foldable(is64, op, size, second)
    ensures !a.enc.FullEA? ==> r.code == old(r.code)
  {
    hide Reaches, Room, OperandAddress, Classify;
    assert XZR !in r.freeGpr && forall k: Guest :: k !in r.freeGpr;
    if fold && Foldable(is64, op, size, second) {
      var m := op.place.m;
      FoldedEncodes(m.disp, size, second, m.base);
      FoldedAddress(r.cur, is64, op, ctx);
      a := Access(m.base, m.disp, Classify(m.disp, size));
    } else {
      var base := ComputeOperandAddress(r, is64, op, XZR, ctx);
      a := Access(base, 0, FullEA);
    }
  }

  lemma FoldedAddress(s: State, is64: bool, op: Operand, ctx: Context)
    requires op.seg.NoSegment? && is64 && op.addr64 && op.place.Mem? && op.place.m.hasBase && !op.place.m.hasIndex
    ensures OperandAddress(s, is64, op, ctx) == X(s.x[op.place.m.base] + op.place.m.disp)
  {
  }

  // ---------------------------------------------------------------- accesses

  /** One load or store `extra` bytes after the operand. */
  method EmitAccess(r: TranslationResult, a: Access, extra: nat, size: Size, fp: bool, load: bool, rt: Reg)
    requires r.Valid() && Encodes(a, extra, size)
    modifies r`code, r`cur
    ensures r.Valid()
    ensures var s := old(r.cur);
      var at := X(s.x[a.base] + a.offset + extra);
      r.cur == if load then Load(s, size, fp, at, rt) else Store(s, size, fp, at, rt)
  {
    hide Step, Exec, Reaches, ModeAt, Load, Store;
    EncodedOffset(a, extra, size, r.cur.x);
    hide Offset;
    var mode := ModeAt(a, extra, size);
    assert Address(r.cur, mode, size, a.base) == X(r.cur.x[a.base] + a.offset + extra);
    hide Address;
    if load {
      r.EmitLoad(size, fp, mode, a.base, rt);
    } else {
      r.EmitStore(size, fp, mode, a.base, rt);
    }
  }

  /** Up to free scratch registers, u is what the access alone makes of s. */
  ghost predicate Accessed(s: State, u: State, f: set<Reg>, size: Size, fp: bool, load: bool, at: Word, rt: Reg) {
    var w := if load then Load(s, size, fp, at, rt) else Store(s, size, fp, at, rt);
    && u == w.(x := u.x)
    && forall k: Reg :: k !in f ==> u.x[k] == w.x[k]
  }

  lemma Returned(s: State, u: State, f: set<Reg>, g: set<Reg>, base: Reg)
    requires Takes(s, u, f, g, XZR, base) && (forall k :: k in f ==> GprScratch(k))
    ensures (if GprScratch(base) then g + {base} else g) == f
  {
  }

  /** emit_fp_mem_access and emit_gpr_mem_access: the pool is as before, free registers aside the access is exact. */
  method EmitMemAccess(r: TranslationResult, is64: bool, op: Operand, size: Size, fp: bool, load: bool, rt: Reg, fold: bool, ctx: Context)
    requires r.Valid() && Room(op.seg, r.freeGpr) && (!fp ==> rt !in r.freeGpr)
    requires WellShifted(Address64(is64, op), op.place) && ctx.fsField / 4 < 4096
    modifies r`code, r`cur, r`freeGpr
    ensures r.Valid() && r.freeGpr == old(r.freeGpr)
    ensures Accessed(old(r.cur), r.cur, r.freeGpr, size, fp, load, OperandAddress(old(r.cur), is64, op, ctx), rt)
  {
    hide Reaches, Room, OperandAddress, Load, Store, Accessed;
    ghost var f := r.freeGpr;
    ghost var at := OperandAddress(r.cur, is64, op, ctx);
    var a := ComputeOperandAccess(r, is64, op, size, Second(0, size), fold, ctx);
    ghost var u := r.cur;
    EmitAccess(r, a, 0, size, fp, load, rt);
    AccessAfter(old(r.cur), u, f, r.freeGpr, a.base, size, fp, load, at, rt);
    Returned(old(r.cur), u, f, r.freeGpr, a.base);
    r.FreeGpr(a.base);
  }

  lemma AccessAfter(s: State, u: State, f: set<Reg>, g: set<Reg>, base: Reg, size: Size, fp: bool, load: bool, at: Word, rt: Reg)
    requires Takes(s, u, f, g, XZR, base) && (!fp ==> rt !in f)
    ensures Accessed(s, if load then Load(u, size, fp, at, rt) else Store(u, size, fp, at, rt), f, size, fp, load, at, rt)
  {
  }

  // ---------------------------------------------------------------- signed integer operands

  function SignExtend16(v: Half): Word {
    W(if v < 0x8000 then v else v as int - TWO16)
  }

  lemma Sxth(v: Half, d: Word)
    ensures Trunc(false, FieldValue(Sbfm, 32, 0, 15, v, d)) == SignExtend16(v)
  {
    Powers();
  }

  /** The register returned holds the sign-extended operand; it is the only one taken from the pool. */
  method EmitLoadIntOperand(r: TranslationResult, op: Operand, m16: bool, fold: bool, ctx: Context) returns (val: Reg)
    requires r.Valid() && Room(op.seg, r.freeGpr)
    requires WellShifted(op.addr64, op.place) && ctx.fsField / 4 < 4096
    modifies r`code, r`cur, r`freeGpr
    ensures r.Valid() && val in old(r.freeGpr) && r.freeGpr == old(r.freeGpr) - {val}
    ensures var s := old(r.cur);
      var at := OperandAddress(s, true, op, ctx);
      && r.cur.x[val] == (if m16 then SignExtend16(Read16(s, at)) else Read32(s, at))
      && r.cur == s.(x := r.cur.x) && forall k: Reg :: k !in old(r.freeGpr) ==> r.cur.x[k] == s.x[k]
  {
    hide Reaches, Room, OperandAddress, FieldValue, SignExtend16;
    ghost var f := r.freeGpr;
    ghost var s := r.cur;
    ghost var at := OperandAddress(r.cur, true, op, ctx);
    var size := if m16 then S16 else S32;
    NonEmptyRoom(op.seg, f);
    var a := ComputeOperandAccess(r, true, op, size, Second(0, size), fold, ctx);
    val := TakeValue(r, a.base, s, f);
    EmitAccess(r, a, 0, size, false, true, val);
    if m16 {
      Sxth(Read16(s, at), r.cur.x[val]);
      r.EmitBitfield(false, Sbfm, 0, 15, val, val);
    }
    if val != a.base {
      r.FreeGpr(a.base);
    }
  }

  /** The address register itself, unless it is a guest register. */
  method TakeValue(r: TranslationResult, base: Reg, ghost s: State, ghost f: set<Reg>) returns (val: Reg)
    requires r.Valid() && Takes(s, r.cur, f, r.freeGpr, XZR, base) && f != {} && (forall k :: k in f ==> GprScratch(k))
    modifies r`freeGpr
    ensures r.Valid() && val in f && r.freeGpr == f - {val} && (val == base || base < 16)
  {
    hide Reaches;
    if GprScratch(base) {
      val := base;
    } else {
      assert r.freeGpr == f;
      val := r.AllocFreeGpr();
    }
  }
}
