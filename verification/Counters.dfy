/** The pool's buffer counters: 32 bits wide, wrapping. */
module Counters {
  const U32: int := 0x1_0000_0000

  /** A 32-bit counter. */
  type Counter = c: int | 0 <= c < U32

  /** A true count as the counter shows it. */
  function Count(n: int): (c: Counter)
  {
    n % U32
  }

  /** The counter after adding d to it. */
  function Bump(c: Counter, d: int): (r: Counter)
  {
    (c + d) % U32
  }

  /** A count below 2^32 is shown as it is, and 2^32 more is shown the same. */
  lemma CountIs(n: int)
    ensures 0 <= n < 4294967296 ==> Count(n) == n
    ensures Count(n + 4294967296) == Count(n)
  {
  }

  lemma BumpCount(n: int, d: int)
    ensures Bump(Count(n), d) == Count(n + d)
  {
  }

  lemma BumpTwice(c: Counter, a: int, b: int)
    ensures Bump(Bump(c, a), b) == Bump(c, a + b)
  {
  }

  lemma BumpZero(c: Counter)
    ensures Bump(c, 0) == c
  {
  }
}
