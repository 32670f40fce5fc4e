/** Machine integers of the 32-bit target: bytes, words, powers of two, and a
    byte-addressed memory with unaligned little-endian word access. */
module Words {

  const WORD_LIMIT: int := 0x1_0000_0000

  type Byte = x: int | 0 <= x < 0x100
  type Word = x: int | 0 <= x < 0x1_0000_0000

  /** The unsigned result of a 32-bit operation: `x` modulo 2^32. */
  function Wrap(x: int): (r: Word)
    ensures 0 <= x < 0x1_0000_0000 ==> r == x
    ensures -0x1_0000_0000 <= x < 0 ==> r == x + 0x1_0000_0000
    decreases x < 0, if x < 0 then -x else x
  {
    if x < 0 then Wrap(x + 0x1_0000_0000)
    else if x < 0x1_0000_0000 then x
    else Wrap(x - 0x1_0000_0000)
  }

  /** The value of a word read as a signed int. */
  function Signed(w: Word): int {
    if w < 0x8000_0000 then w else w - WORD_LIMIT
  }

  function Pow2(n: nat): nat {
    if n == 0 then 1 else 2 * Pow2(n - 1)
  }

  lemma {:induction false} Pow2Monotone(a: nat, b: nat)
    requires a <= b
    ensures 1 <= Pow2(a) <= Pow2(b)
    decreases b
  {
    if a < b {
      Pow2Monotone(a, b - 1);
    } else if a > 0 {
      Pow2Monotone(a - 1, b - 1);
    }
  }

  type Memory = int -> Byte

  function Load32(m: Memory, a: int): Word {
    m(a) + 0x100 * (m(a + 1) + 0x100 * (m(a + 2) + 0x100 * m(a + 3)))
  }

  function Store8(m: Memory, a: int, v: Byte): Memory {
    x => if x == a then v else m(x)
  }

  function Store32(m: Memory, a: int, v: Word): Memory {
    x => if x == a then v % 0x100
         else if x == a + 1 then v / 0x100 % 0x100
         else if x == a + 2 then v / 0x100 / 0x100 % 0x100
         else if x == a + 3 then v / 0x100 / 0x100 / 0x100
         else m(x)
  }

  lemma LoadStoreSame(m: Memory, a: int, v: Word)
    ensures Load32(Store32(m, a, v), a) == v
  {
    Recombine(v);
    Recombine(v / 0x100);
    Recombine(v / 0x100 / 0x100);
  }

  lemma Recombine(v: int)
    ensures v == v % 0x100 + 0x100 * (v / 0x100)
  {
  }

  lemma SplitByte(b: Byte, rest: nat)
    ensures (b + 0x100 * rest) % 0x100 == b && (b + 0x100 * rest) / 0x100 == rest
  {
  }

  /** Storing a word that was loaded elsewhere copies its four bytes. */
  lemma StoreLoadCopies(m: Memory, d: int, s: int)
    ensures forall x :: d <= x < d + 4 ==> Store32(m, d, Load32(m, s))(x) == m(x - d + s)
  {
    var r2: nat := m(s + 2) + 0x100 * m(s + 3);
    var r1: nat := m(s + 1) + 0x100 * r2;
    SplitByte(m(s), r1);
    SplitByte(m(s + 1), r2);
    SplitByte(m(s + 2), m(s + 3));
    forall x | d <= x < d + 4
      ensures Store32(m, d, Load32(m, s))(x) == m(x - d + s)
    {
      if x == d {} else if x == d + 1 {} else if x == d + 2 {} else {}
    }
  }
}
