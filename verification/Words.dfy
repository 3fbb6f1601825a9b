/** The module's machine words: `int` and `atomic_t` of 32 bits, `unsigned long` of 64. */
module Words {

  const UINT := 0x1_0000_0000                 // 2^32
  const ULONG := 0x1_0000_0000_0000_0000      // 2^64

  type Word = x: int | 0 <= x < ULONG
  type Byte = x: int | 0 <= x < 256

  /** What an `unsigned long` holds after arithmetic that should give `n` */
  function ULong(n: int): (r: Word)
    ensures 0 <= n < ULONG ==> r == n
  {
    n % ULONG
  }

  /** What an `int` holds after arithmetic that should give `n`, or when it is cut from a wider word */
  function Int32(n: int): (r: int)
    ensures 0 <= n < UINT / 2 ==> r == n
  {
    var m := n % UINT;
    if m < UINT / 2 then m else m - UINT
  }

  /** A 64-bit pattern read as a signed long */
  function Long(x: Word): int { if x < ULONG / 2 then x else x - ULONG }

  lemma Int32Inc(n: int)
    ensures Int32(Int32(n) + 1) == Int32(n + 1)
  {}

  lemma ULongAdd(a: int, b: int)
    ensures ULong(ULong(a) + b) == ULong(a + b)
  {}

  lemma SameULong(x: int, y: int, k: int)
    requires x == y + ULONG * k
    ensures ULong(x) == ULong(y)
  {}

  lemma SameInt32(x: int, y: int, k: int)
    requires x == y + UINT * k
    ensures Int32(x) == Int32(y)
  {}
}
