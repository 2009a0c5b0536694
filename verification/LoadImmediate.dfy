/** Loading a constant into a register (emit_load_immediate): what it loads, and in how many instructions. */
module LoadImmediate {
  import opened Words
  import opened Bits
  import opened Arm
  import opened Translation
  import opened BitmaskImmediate

  function Chunks(is64: bool): nat { if is64 then 4 else 2 }

  /** How many of the first n chunks of v equal c. */
  function CountChunks(v: nat, c: Half, n: nat): nat {
    if n == 0 then 0 else CountChunks(v, c, n - 1) + (if Chunk(v, n - 1) == c then 1 else 0)
  }

  function Max(a: int, b: int): int { if a < b then b else a }

  // ---------------------------------------------------------------- chunks

  /** v without its lowest i chunks. */
  function Top(v: nat, i: nat): int {
    v - v % Pow2(16 * i)
  }

  lemma TopStep(v: nat, i: nat)
    ensures Top(v, i) == Top(v, i + 1) + Chunk(v, i) * Pow2(16 * i)
  {
    Powers();
    assert 16 * (i + 1) == 16 * i + 16;
    Pow2Add(16 * i, 16);
    hide Pow2;
    ModProduct(v, Pow2(16 * i), TWO16);
  }

  lemma ModLe(v: nat, d: nat)
    requires d > 0
    ensures 0 <= v % d <= v && (v < d ==> v % d == v)
  {
    var q := v / d;
    assert v == q * d + v % d;
    MulMono(0, q, d);
  }

  lemma TopBounds(v: nat, n: nat)
    ensures 0 <= Top(v, n) <= v && (v < Pow2(16 * n) ==> Top(v, n) == 0)
  {
    hide Pow2;
    ModLe(v, Pow2(16 * n));
  }

  lemma TopAll(v: nat)
    ensures Top(v, 0) == v
  {
    assert Pow2(0) == 1;
    hide Pow2;
    assert 16 * 0 == 0;
  }

  lemma TopChunk(v: nat, i: nat)
    ensures Top(v, i + 1) >= 0 && Chunk(Top(v, i + 1), i) == 0
  {
    TopBounds(v, i + 1);
    Powers();
    assert 16 * (i + 1) == 16 * i + 16;
    Pow2Add(16 * i, 16);
    hide Pow2;
    ClearedChunk(v, Pow2(16 * i));
  }

  lemma ClearedChunk(v: nat, p: nat)
    requires p > 0
    ensures p * TWO16 > 0 && ((v - v % (p * TWO16)) / p) % TWO16 == 0
  {
    var d := p * TWO16;
    var q := v / d;
    assert v - v % d == q * d;
    assert q * d == (q * TWO16) * p;
    DivUnique(q * d, p, q * TWO16);
  }

  lemma ComplementChunk(v: nat, n: nat, i: nat)
    requires v < Pow2(16 * n) && i < n
    ensures Chunk(Pow2(16 * n) - 1 - v, i) == 0xFFFF - Chunk(v, i)
  {
    Powers();
    var p, m := Pow2(16 * i), Pow2(16 * (n - i - 1));
    assert 16 * n == 16 * i + (16 + 16 * (n - i - 1));
    Pow2Add(16 * i, 16 + 16 * (n - i - 1));
    Pow2Add(16, 16 * (n - i - 1));
    hide Pow2;
    ComplementDigit(v, p, m);
  }

  lemma ComplementDigit(v: nat, p: nat, m: nat)
    requires p > 0 && v < p * (TWO16 * m)
    ensures ((p * (TWO16 * m) - 1 - v) / p) % TWO16 == TWO16 - 1 - (v / p) % TWO16
  {
    var q, r, k := v / p, v % p, TWO16 * m;
    assert v == q * p + r;
    if q >= k {
      MulMono(k, q, p);
    }
    assert p * k - 1 - v == (k - 1 - q) * p + (p - 1 - r) by { assert (k - 1 - q) * p == k * p - p - q * p; }
    DivUnique(p * k - 1 - v, p, k - 1 - q);
    var a, c := q / TWO16, q % TWO16;
    DivUnique(k - 1 - q, TWO16, m - 1 - a);
  }

  // ---------------------------------------------------------------- counting

  /** How many chunks from a to b - 1 are not zero. */
  function Busy(u: nat, a: nat, b: nat): nat
    decreases b - a
  {
    if a >= b then 0 else (if Chunk(u, a) != 0 then 1 else 0) + Busy(u, a + 1, b)
  }

  lemma {:induction false} BusySplit(u: nat, a: nat, m: nat, b: nat)
    requires a <= m <= b
    ensures Busy(u, a, b) == Busy(u, a, m) + Busy(u, m, b)
    decreases m - a
  {
    hide Chunk;
    if a < m {
      BusySplit(u, a + 1, m, b);
    }
  }

  lemma {:induction false} BusyNone(u: nat, a: nat, b: nat)
    requires forall j :: a <= j < b ==> Chunk(u, j) == 0
    ensures Busy(u, a, b) == 0
    decreases b - a
  {
    hide Chunk;
    if a < b {
      BusyNone(u, a + 1, b);
    }
  }

  lemma {:induction false} BusyOrZero(u: nat, n: nat)
    ensures Busy(u, 0, n) + CountChunks(u, 0, n) == n
  {
    hide Chunk;
    if n > 0 {
      BusyOrZero(u, n - 1);
      BusySplit(u, 0, n - 1, n);
      assert Busy(u, n, n) == 0;
    }
  }

  /** Where the significant chunks of u lie. */
  predicate Spans(u: nat, lo: nat, hi: nat, n: nat) {
    && lo <= hi < n
    && (forall j :: 0 <= j < lo ==> Chunk(u, j) == 0)
    && (forall j :: hi < j < n ==> Chunk(u, j) == 0)
    && (Chunk(u, hi) != 0 || (lo == 0 && hi == 0))
  }

  lemma CountSpan(u: nat, lo: nat, hi: nat, n: nat)
    requires Spans(u, lo, hi, n)
    ensures 1 + Busy(u, lo, hi) == Max(1, n - CountChunks(u, 0, n))
  {
    hide Chunk;
    BusyOrZero(u, n);
    BusySplit(u, 0, lo, n);
    BusySplit(u, lo, hi, n);
    BusyNone(u, 0, lo);
    BusyNone(u, hi + 1, n);
    assert Busy(u, lo, lo) == 0;
  }

  lemma {:induction false} TopAbove(u: nat, hi: nat, n: nat)
    requires hi < n && u < Pow2(16 * n) && forall j :: hi < j < n ==> Chunk(u, j) == 0
    ensures Top(u, hi + 1) == 0
    decreases n - hi
  {
    hide Chunk, Top, Pow2;
    if hi + 1 == n {
      TopBounds(u, n);
    } else {
      TopAbove(u, hi + 1, n);
      TopStep(u, hi + 1);
      assert Chunk(u, hi + 1) * Pow2(16 * (hi + 1)) == 0;
    }
  }

  lemma {:induction false} TopBelow(u: nat, lo: nat)
    requires forall j :: 0 <= j < lo ==> Chunk(u, j) == 0
    ensures Top(u, lo) == u
  {
    hide Chunk, Top, Pow2;
    if lo == 0 {
      TopAll(u);
    } else {
      TopBelow(u, lo - 1);
      TopStep(u, lo - 1);
      assert Chunk(u, lo - 1) * Pow2(16 * (lo - 1)) == 0;
    }
  }

  // ---------------------------------------------------------------- the value and its complement

  function Full(is64: bool): nat { if is64 then TWO64 else TWO32 }

  /** MOVZ and MOVK build u itself, MOVN and MOVK its complement. */
  function Built(is64: bool, movz: bool, u: int): int {
    if movz then u else Full(is64) - 1 - u
  }

  /** working and v, chunk by chunk, against what is to be built. */
  predicate Agree(u: nat, working: nat, v: nat, movz: bool, n: nat) {
    forall j :: 0 <= j < n ==>
      && Chunk(working, j) == Chunk(u, j)
      && Chunk(v, j) as int == if movz then Chunk(u, j) else 0xFFFF - Chunk(u, j)
  }

  lemma FullPower(is64: bool)
    ensures Pow2(16 * Chunks(is64)) == Full(is64)
  {
    LargePowers();
  }

  lemma WorkingAgrees(is64: bool, v: Word, movz: bool)
    requires v < Full(is64)
    ensures Agree(Built(is64, movz, v), if movz then v else TWO64 - 1 - v, v, movz, Chunks(is64))
  {
    FullPower(is64);
    FullPower(true);
    hide Chunk, Pow2;
    var u, working := Built(is64, movz, v), if movz then v else TWO64 - 1 - v;
    forall j | 0 <= j < Chunks(is64)
      ensures Chunk(working, j) == Chunk(u, j)
      ensures Chunk(v, j) as int == if movz then Chunk(u, j) else 0xFFFF - Chunk(u, j)
    {
      if !movz {
        ComplementChunk(v, Chunks(is64), j);
        ComplementChunk(v, 4, j);
      }
    }
  }

  lemma {:induction false} ZerosOfBuilt(u: nat, working: nat, v: nat, movz: bool, n: nat)
    requires Agree(u, working, v, movz, n)
    ensures CountChunks(u, 0, n) == CountChunks(v, if movz then 0 else 0xFFFF, n)
  {
    hide Chunk;
    if n > 0 {
      ZerosOfBuilt(u, working, v, movz, n - 1);
    }
  }

  // ---------------------------------------------------------------- scanning

  method CountTrivial(v: nat, n: nat) returns (zeros: nat, ones: nat)
    ensures zeros == CountChunks(v, 0, n) && ones == CountChunks(v, 0xFFFF, n)
  {
    hide Chunk;
    zeros, ones := 0, 0;
    for i := 0 to n
      invariant zeros == CountChunks(v, 0, i) && ones == CountChunks(v, 0xFFFF, i)
    {
      if Chunk(v, i) == 0 {
        zeros := zeros + 1;
      }
      if Chunk(v, i) == 0xFFFF {
        ones := ones + 1;
      }
    }
  }

  method FindSpan(u: nat, n: nat) returns (hi: nat, lo: nat)
    requires n > 0
    ensures Spans(u, lo, hi, n)
  {
    hide Chunk;
    hi, lo := 0, 0;
    var i := n;
    while i > 0
      invariant i <= n && hi == 0
      invariant forall j :: i <= j < n ==> Chunk(u, j) == 0
    {
      i := i - 1;
      if Chunk(u, i) != 0 {
        hi := i;
        break;
      }
    }
    assert forall j :: hi < j < n ==> Chunk(u, j) == 0;
    i := 0;
    while i < n
      invariant i <= n && lo == 0
      invariant forall j :: 0 <= j < i ==> Chunk(u, j) == 0
    {
      if Chunk(u, i) != 0 {
        lo := i;
        break;
      }
      i := i + 1;
    }
  }

  // ---------------------------------------------------------------- emitting

  lemma StartValue(is64: bool, movz: bool, u: Word, hi: nat)
    requires u < Full(is64) && Top(u, hi + 1) == 0
    ensures MovValue(if movz then Movz else Movn, is64, hi, Chunk(u, hi), 0) == Built(is64, movz, Top(u, hi))
    ensures 0 <= Built(is64, movz, Top(u, hi)) < Full(is64)
  {
    TopStep(u, hi);
    TopBounds(u, hi);
    hide Chunk, Top, Pow2;
  }

  lemma KeepZ(t: nat, u: nat, i: nat)
    requires t == Top(u, i + 1)
    ensures t - Chunk(t, i) * Pow2(16 * i) + Chunk(u, i) * Pow2(16 * i) == Top(u, i)
  {
    hide Chunk, Top, Pow2;
    TopStep(u, i);
    TopChunk(u, i);
    assert 0 * Pow2(16 * i) == 0;
  }

  lemma KeepN(f: nat, t: nat, u: nat, i: nat, n: nat)
    requires t == Top(u, i + 1) && t < f && f == Pow2(16 * n) && i < n
    ensures f - 1 - t - Chunk(f - 1 - t, i) * Pow2(16 * i) + (0xFFFF - Chunk(u, i)) * Pow2(16 * i) == f - 1 - Top(u, i)
  {
    hide Chunk, Top, Pow2;
    TopStep(u, i);
    TopChunk(u, i);
    ComplementChunk(t, n, i);
    var c, p := Chunk(u, i), Pow2(16 * i);
    assert (0xFFFF - c) * p == 0xFFFF * p - c * p;
  }

  lemma KeepValue(is64: bool, movz: bool, u: Word, i: nat, c: Half)
    requires u < Full(is64) && i < Chunks(is64)
    requires c as int == if movz then Chunk(u, i) else 0xFFFF - Chunk(u, i)
    ensures 0 <= Built(is64, movz, Top(u, i + 1)) < Full(is64) && 0 <= Built(is64, movz, Top(u, i)) < Full(is64)
    ensures MovValue(Movk, is64, i, c, Built(is64, movz, Top(u, i + 1))) == Built(is64, movz, Top(u, i))
  {
    hide Chunk, Top, Pow2;
    TopBounds(u, i);
    TopBounds(u, i + 1);
    FullPower(is64);
    var t := Top(u, i + 1);
    if movz {
      KeepZ(t, u, i);
    } else {
      KeepN(Full(is64), t, u, i, Chunks(is64));
    }
  }

  lemma TruncSmall(is64: bool, v: nat)
    requires v < Full(is64)
    ensures Trunc(is64, v) == v
  {
  }

  /** MOVZ or MOVN for the highest significant chunk, MOVK for the others. */
  method EmitChunks(r: TranslationResult, is64: bool, v: Word, reg: Reg)
    requires r.Valid() && reg != XZR && v < Full(is64)
    modifies r`code, r`cur
    ensures r.Valid() && r.cur == SetX(old(r.cur), reg, v)
    ensures var n := Chunks(is64);
      |r.code| == |old(r.code)| + Max(1, n - Max(CountChunks(v, 0, n), CountChunks(v, 0xFFFF, n)))
  {
    hide Step, Exec, Reaches, Chunk, Top, Pow2, Agree, Spans, CountChunks, MovValue, Trunc;
    var n := Chunks(is64);
    var zeros, ones := CountTrivial(v, n);
    var movz := zeros >= ones;
    var working := if movz then v else TWO64 - 1 - v;
    ghost var u := Built(is64, movz, v);
    WorkingAgrees(is64, v, movz);
    ZerosOfBuilt(u, working, v, movz, n);
    var hi, lo := FindSpan(working, n);
    SameSpan(u, working, v, movz, lo, hi, n);
    CountSpan(u, lo, hi, n);
    EmitSpan(r, is64, movz, v, working, hi, lo, reg, u);
  }

  lemma SameSpan(u: nat, working: nat, v: nat, movz: bool, lo: nat, hi: nat, n: nat)
    requires Agree(u, working, v, movz, n) && Spans(working, lo, hi, n)
    ensures Spans(u, lo, hi, n)
  {
    hide Chunk;
  }

  method EmitSpan(r: TranslationResult, is64: bool, movz: bool, v: Word, working: Word, hi: nat, lo: nat, reg: Reg, ghost u: Word)
    requires r.Valid() && reg != XZR && u < Full(is64) && u == Built(is64, movz, v)
    requires Agree(u, working, v, movz, Chunks(is64)) && Spans(u, lo, hi, Chunks(is64))
    modifies r`code, r`cur
    ensures r.Valid() && r.cur == SetX(old(r.cur), reg, v)
    ensures |r.code| == |old(r.code)| + 1 + Busy(u, lo, hi)
  {
    hide Step, Exec, Reaches, Chunk, Top, Pow2, MovValue, Trunc, Full;
    FullPower(is64);
    TopAbove(u, hi, Chunks(is64));
    TopBelow(u, lo);
    StartValue(is64, movz, u, hi);
    TruncSmall(is64, Built(is64, movz, Top(u, hi)));
    StartIgnoresTarget(movz, is64, hi, Chunk(u, hi), r.cur.x[reg]);
    r.EmitMovWide(is64, if movz then Movz else Movn, hi, Chunk(working, hi), reg);
    var trivial: Half := if movz then 0 else 0xFFFF;
    var i := hi;
    while i > lo
      invariant lo <= i <= hi && r.Valid()
      invariant r.cur == SetX(old(r.cur), reg, r.cur.x[reg]) && r.cur.x[reg] == Built(is64, movz, Top(u, i))
      invariant |r.code| == |old(r.code)| + 1 + Busy(u, i, hi)
    {
      i := i - 1;
      KeepValue(is64, movz, u, i, Chunk(v, i));
      if Chunk(v, i) != trivial {
        TruncSmall(is64, Built(is64, movz, Top(u, i)));
        r.EmitMovWide(is64, Movk, i, Chunk(v, i), reg);
      } else {
        SkipChunk(u, i);
      }
    }
  }

  lemma SkipChunk(u: nat, i: nat)
    requires Chunk(u, i) == 0
    ensures Top(u, i) == Top(u, i + 1)
  {
    hide Chunk, Top, Pow2;
    TopStep(u, i);
    assert 0 * Pow2(16 * i) == 0;
  }

  lemma StartIgnoresTarget(movz: bool, is64: bool, hw: nat, imm: Half, dst: Word)
    ensures var op := if movz then Movz else Movn;
      MovValue(op, is64, hw, imm, dst) == MovValue(op, is64, hw, imm, 0)
  {
    hide Pow2;
  }

  // ---------------------------------------------------------------- emit_load_immediate

  lemma OrZero(v: nat)
    ensures LogicValue(LogicOrr, false, 0, v) == v
  {
  }

  /** ORR reg, XZR, #v */
  method EmitOrrImm(r: TranslationResult, is64: bool, imm: LogicalImm, reg: Reg, ghost v: Word)
    requires r.Valid() && Decodes(Width(is64), imm, v) && v < Full(is64)
    modifies r`code, r`cur
    ensures r.Valid() && r.cur == SetX(old(r.cur), reg, v) && |r.code| == |old(r.code)| + 1
  {
    hide Step, Exec, Reaches, DecodeBitMasks, LogicValue;
    OrZero(v);
    TruncSmall(is64, v);
    assert Trunc(is64, 0) == 0;
    hide Trunc;
    r.EmitLogicalImm(is64, LogicOrr, imm.n, imm.immr, imm.imms, XZR, reg);
  }

  /** A single ORR can load v. */
  ghost predicate OneOrr(is64: bool, v: nat) {
    Encodable(Width(is64), v) || (is64 && v < TWO32 && Encodable(32, v))
  }

  /** How many instructions a nonzero value takes. */
  ghost function LoadLength(is64: bool, v: nat): int {
    var n := Chunks(is64);
    if v == 0 || OneOrr(is64, v) then 1
    else Max(1, n - Max(CountChunks(v, 0, n), CountChunks(v, 0xFFFF, n)))
  }

  /** The register the load may write: the hint, or the lowest free scratch register. */
  method ResolveHint(r: TranslationResult, hint: Reg) returns (reg: Reg)
    requires r.Traced() && (hint == XZR ==> r.freeGpr != {})
    modifies r`freeGpr
    ensures r.Traced()
    ensures hint != XZR ==> reg == hint && r.freeGpr == old(r.freeGpr)
    ensures hint == XZR ==> reg in old(r.freeGpr) && r.freeGpr == old(r.freeGpr) - {reg}
    ensures hint == XZR ==> forall k :: k in old(r.freeGpr) ==> reg <= k
    ensures reg != XZR
  {
    hide Reaches;
    reg := hint;
    if hint == XZR {
      reg := r.AllocFreeGpr();
    }
  }

  method EmitNonzero(r: TranslationResult, is64: bool, v: Word, reg: Reg)
    requires r.Valid() && reg != XZR && v < Full(is64)
    modifies r`code, r`cur
    ensures r.Valid() && r.cur == SetX(old(r.cur), reg, v)
    ensures |r.code| == |old(r.code)| + LoadLength(is64, v)
  {
    hide Step, Exec, Reaches, Encodable, Decodes, CountChunks;
    TruncSmall(is64, v);
    TruncSmall(true, v);
    hide Trunc;
    if v == 0 {
      EmitZero(r, is64, reg);
      return;
    }
    var imm := IsBitmaskImmediate(is64, v);
    if imm.Some? {
      EmitOrrImm(r, is64, imm.value, reg, v);
      Encoded(Width(is64), imm.value, v);
      return;
    }
    if is64 && v / TWO32 == 0 {
      TruncSmall(false, v);
      imm := IsBitmaskImmediate(false, v);
      if imm.Some? {
        EmitOrrImm(r, false, imm.value, reg, v);
        Encoded(32, imm.value, v);
        return;
      }
    }
    EmitChunks(r, is64, v, reg);
  }

  lemma Encoded(width: nat, imm: LogicalImm, v: nat)
    requires Decodes(width, imm, v)
    ensures Encodable(width, v)
  {
    hide Decodes;
  }

  method EmitZero(r: TranslationResult, is64: bool, reg: Reg)
    requires r.Valid() && reg != XZR
    modifies r`code, r`cur
    ensures r.Valid() && r.cur == SetX(old(r.cur), reg, 0) && |r.code| == |old(r.code)| + 1
  {
    hide Step, Exec, Reaches;
    Powers();
    r.EmitMovWide(is64, Movz, 0, 0, reg);
  }

  /** Zero needs no code: the zero register holds it.  Any other value is loaded, truncated to the width. */
  method EmitLoadImmediate(r: TranslationResult, is64: bool, value: Word, hint: Reg) returns (reg: Reg)
    requires r.Valid() && (value != 0 && hint == XZR ==> r.freeGpr != {})
    modifies r`code, r`cur, r`freeGpr
    ensures r.Valid()
    ensures value == 0 ==> reg == XZR && r.cur == old(r.cur) && r.code == old(r.code) && r.freeGpr == old(r.freeGpr)
    ensures value != 0 ==>
      && reg != XZR && r.cur == SetX(old(r.cur), reg, Trunc(is64, value))
      && |r.code| == |old(r.code)| + LoadLength(is64, Trunc(is64, value))
      && (if hint == XZR then
            reg in old(r.freeGpr) && r.freeGpr == old(r.freeGpr) - {reg} && forall k :: k in old(r.freeGpr) ==> reg <= k
          else reg == hint && r.freeGpr == old(r.freeGpr))
  {
    hide Step, Exec, Reaches, LoadLength;
    if value == 0 {
      return XZR;
    }
    reg := ResolveHint(r, hint);
    EmitNonzero(r, is64, Trunc(is64, value), reg);
  }

  /** The same, but zero is loaded too. */
  method EmitLoadImmediateNoXzr(r: TranslationResult, is64: bool, value: Word, reg: Reg)
    requires r.Valid() && reg != XZR
    modifies r`code, r`cur, r`freeGpr
    ensures r.Valid() && r.cur == SetX(old(r.cur), reg, Trunc(is64, value)) && r.freeGpr == old(r.freeGpr)
  {
    hide Step, Exec, Reaches, LoadLength;
    var result := EmitLoadImmediate(r, is64, value, reg);
    if result == XZR {
      EmitZero(r, is64, reg);
    }
  }
}
