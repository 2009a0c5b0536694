/**
 The x87 register stack as the emitted code keeps it in memory (rosetta_core's X87State), and
 the meaning of one x87 instruction when nothing is deferred: every push, pop and exchange is
 written to memory at once.  Floating-point arithmetic is a parameter.
 */
module X87Model {
  import opened Words

  /** A stack depth i of ST(i), or a physical register number. */
  type Depth = d: nat | d < 8

  /** Two-bit entry of the tag word. */
  type Tag = t: nat | t < 4
  const VALID: Tag := 0
  const EMPTY: Tag := 3

  type Tags = s: seq<Tag> | |s| == 8 witness [0, 0, 0, 0, 0, 0, 0, 0]
  type Slots = s: seq<Word> | |s| == 8 witness [0, 0, 0, 0, 0, 0, 0, 0]

  /** The fields of the 16-bit status word, low bit first. */
  datatype StatusWord = StatusWord(low: Byte, c0: Bit, c1: Bit, c2: Bit, top: Depth, c3: Bit, busy: Bit)

  datatype X87 = X87(cw: Half, sw: StatusWord, tags: Tags, st: Slots)

  datatype Flags = Flags(n: bool, z: bool, c: bool, v: bool)

  /** Everything an x87 instruction of this model can change. */
  datatype Arch = Arch(mem: X87, flags: Flags, ax: Half)

  datatype Order = Greater | Less | Equal | Unordered

  datatype Fn = Add | Sub | Mul | Div

  datatype UnaryFn = Chs | Abs | Sqrt

  /** With one rounding, from n, m and a: a + n * m, a - n * m and n * m - a. */
  datatype FmaFn = MAdd | MSub | NMSub

  /** The floating-point unit: any functions on 64-bit patterns; `nmul` is the negated product. */
  datatype Fpu = Fpu(
    binary: (Fn, Word, Word) -> Word,
    unary: (UnaryFn, Word) -> Word,
    compare: (Word, Word) -> Order,
    nmul: (Word, Word) -> Word,
    fma: (FmaFn, Word, Word, Word) -> Word)

  datatype Cond = Below | BelowEqual | Eq | NotBelow | Above | NotEq | Unord | NotUnord

  const POSITIVE_ZERO: Word := 0
  const POSITIVE_ONE: Word := 0x3FF0_0000_0000_0000

  datatype Op =
    | Fldz
    | Fld1
    | Fld(src: Depth)
    | Arith(fn: Fn, reversed: bool, dst: Depth, src: Depth)
    | ArithPop(fn: Fn, reversed: bool, dst: Depth)
    | Unary(unary: UnaryFn)
    | Fst(dst: Depth)
    | Fstp(dst: Depth)
    | Fxch(src: Depth)
    | Fcom(src: Depth, pop: bool)
    | Fcompp
    | Ftst
    | Fcomi(src: Depth, pop: bool)
    | Fcmov(cond: Cond, src: Depth)
    | Fstsw
    | Fldcw(value: Half)
    | Fnop

  // ---------------------------------------------------------------- stack geometry

  /** The physical register of ST(d) when TOP is t. */
  function Phys(t: Depth, d: Depth): Depth {
    (t + d) % 8
  }

  function Dec(t: Depth): Depth { (t + 7) % 8 }

  function Inc(t: Depth): Depth { (t + 1) % 8 }

  /** Is physical register k one of the `count` registers from `first` upwards, cyclically? */
  predicate InArc(k: Depth, first: int, count: int) {
    (k - first) % 8 < count
  }

  function SetTags(tags: Tags, first: int, count: int, tag: Tag): Tags {
    seq(8, k requires 0 <= k < 8 => if InArc(k, first, count) then tag else tags[k])
  }

  // ---------------------------------------------------------------- flags and condition codes

  function B2N(b: bool): Bit { if b then 1 else 0 }

  /** FCOM: C3, C2, C0 from the comparison, C1 cleared, everything else kept. */
  function SetCc(sw: StatusWord, o: Order): StatusWord {
    sw.(c0 := B2N(o == Less || o == Unordered),
        c1 := 0,
        c2 := B2N(o == Unordered),
        c3 := B2N(o == Equal || o == Unordered))
  }

  /** FCOMI in Rosetta's flag layout: Z = ZF, C = not CF, V = PF, N = 0. */
  function FcomiFlags(o: Order): Flags {
    Flags(false, o == Equal || o == Unordered, o == Greater || o == Equal, o == Unordered)
  }

  /** The AArch64 condition that translate_fcmov picks for each FCMOVcc. */
  predicate CondHolds(cond: Cond, f: Flags) {
    match cond
    case Below => !f.c
    case BelowEqual => !(f.c && !f.z)
    case Eq => f.z
    case NotBelow => f.c
    case Above => f.c && !f.z
    case NotEq => !f.z
    case Unord => f.v
    case NotUnord => !f.v
  }

  // ---------------------------------------------------------------- undeferred meaning

  function Get(m: X87, d: Depth): Word {
    m.st[Phys(m.sw.top, d)]
  }

  function Put(m: X87, d: Depth, v: Word): X87 {
    m.(st := m.st[Phys(m.sw.top, d) := v])
  }

  function Push(m: X87): X87 {
    var t := Dec(m.sw.top);
    m.(sw := m.sw.(top := t), tags := m.tags[t := VALID])
  }

  function Pop(m: X87): X87 {
    m.(sw := m.sw.(top := Inc(m.sw.top)), tags := m.tags[m.sw.top := EMPTY])
  }

  function Combine(fpu: Fpu, fn: Fn, reversed: bool, d: Word, s: Word): Word {
    if reversed then fpu.binary(fn, s, d) else fpu.binary(fn, d, s)
  }

  function Swap(m: X87, i: Depth): X87 {
    Put(Put(m, 0, Get(m, i)), i, Get(m, 0))
  }

  function PopIf(m: X87, pop: bool): X87 {
    if pop then Pop(m) else m
  }

  /** One x87 instruction, written through to memory. */
  function Eager(fpu: Fpu, a: Arch, op: Op): Arch {
    var m := a.mem;
    match op
    case Fldz => a.(mem := Put(Push(m), 0, POSITIVE_ZERO))
    case Fld1 => a.(mem := Put(Push(m), 0, POSITIVE_ONE))
    case Fld(i) => a.(mem := Put(Push(m), 0, Get(m, i)))
    case Arith(fn, rev, d, s) => a.(mem := Put(m, d, Combine(fpu, fn, rev, Get(m, d), Get(m, s))))
    case ArithPop(fn, rev, d) => a.(mem := Pop(Put(m, d, Combine(fpu, fn, rev, Get(m, d), Get(m, 0)))))
    case Unary(u) => a.(mem := Put(m, 0, fpu.unary(u, Get(m, 0))))
    case Fst(i) => a.(mem := Put(m, i, Get(m, 0)))
    case Fstp(i) => a.(mem := Pop(Put(m, i, Get(m, 0))))
    case Fxch(i) => a.(mem := Swap(m, i))
    case Fcom(i, pop) => a.(mem := PopIf(m.(sw := SetCc(m.sw, fpu.compare(Get(m, 0), Get(m, i)))), pop))
    case Fcompp => a.(mem := Pop(Pop(m.(sw := SetCc(m.sw, fpu.compare(Get(m, 0), Get(m, 1)))))))
    case Ftst => a.(mem := m.(sw := SetCc(m.sw, fpu.compare(Get(m, 0), POSITIVE_ZERO))))
    case Fcomi(i, pop) => a.(mem := PopIf(m, pop), flags := FcomiFlags(fpu.compare(Get(m, 0), Get(m, i))))
    case Fcmov(cond, i) => if CondHolds(cond, a.flags) then a.(mem := Put(m, 0, Get(m, i))) else a
    case Fstsw => a.(ax := EncodeSw(m.sw))
    case Fldcw(v) => a.(mem := m.(cw := v))
    case Fnop => a
  }

  function EagerRun(fpu: Fpu, a: Arch, ops: seq<Op>): Arch
    decreases |ops|
  {
    if ops == [] then a else EagerRun(fpu, Eager(fpu, a, ops[0]), ops[1..])
  }

  /** The status word as the 16-bit value in memory. */
  function EncodeSw(sw: StatusWord): Half {
    sw.low + 0x100 * sw.c0 + 0x200 * sw.c1 + 0x400 * sw.c2 + 0x800 * sw.top
    + 0x4000 * sw.c3 + 0x8000 * sw.busy
  }
}
