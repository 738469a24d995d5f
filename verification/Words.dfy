/** Bytes and fixed-width unsigned arithmetic. */
module Words {

  const WORD := 0x1_0000_0000    // one more than the largest 32-bit word

  type Byte = b: int | 0 <= b < 256

  type Word = w: int | 0 <= w < WORD

  function U8(x: int): (w: int)
    ensures 0 <= w < 256
  {
    x % 256
  }

  function U16(x: int): (w: int)
    ensures 0 <= w < 0x1_0000
  {
    x % 0x1_0000
  }

  /** Unsigned 32-bit multiplication and division. */
  function Mul32(a: Word, b: Word): Word {
    U32(a * b)
  }

  function Div32(a: Word, b: Word): (q: Word)
    requires b > 0
    ensures q <= a
  {
    QuotientSmaller(a, b);
    a / b
  }

  lemma QuotientSmaller(a: int, b: int)
    requires 0 <= a && 0 < b
    ensures 0 <= a / b <= a
  {
    TimesGrows(a / b, b);
  }

  lemma TimesGrows(q: int, b: int)
    requires 0 < b
    ensures 0 <= q ==> q <= q * b
  {
  }

  lemma Fits16(x: int)
    requires 0 <= x < 0x1_0000
    ensures U16(x) == x
  {
  }

  function U32(x: int): (w: int)
    ensures 0 <= w < WORD
  {
    x % WORD
  }

  lemma WrapsTwice(x: int, y: int)
    ensures U32(U32(x) - y) == U32(x - y)
  {
  }

  lemma WrapsDown(x: int)
    requires 0 <= x
    ensures U32(x) <= x
  {
  }

  lemma Fits32(x: int)
    requires 0 <= x < WORD
    ensures U32(x) == x
  {
  }
}
