/** Machine words as bounded naturals. */
module Words {

  const TWO16: int := 0x1_0000
  const TWO32: int := 0x1_0000_0000
  const TWO64: int := 0x1_0000_0000_0000_0000

  type Bit = b: nat | b < 2
  type Byte = b: nat | b < 0x100
  type Half = h: nat | h < TWO16
  type Word = w: nat | w < TWO64

  /** The result of a 32-bit operation: zero-extended into the X register. */
  function W(v: int): (r: Word)
    ensures r < TWO32
  {
    v % TWO32
  }

  /** The result of a 64-bit operation. */
  function X(v: int): Word {
    v % TWO64
  }

  function Trunc(is64: bool, v: int): Word {
    if is64 then X(v) else W(v)
  }

  /** A cast to int16_t. */
  function Int16(v: int): int {
    (v + 0x8000) % 0x1_0000 - 0x8000
  }

  lemma XAdd(a: int, b: int)
    ensures X(X(a) + b) == X(a + b)
  {
  }

  lemma WAdd(a: int, b: int)
    ensures W(W(a) + b) == W(a + b)
  {
  }
}
