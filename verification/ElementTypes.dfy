/**
 Integer element types of an array: a value of a w-bit type is an integer modulo
 2^w, and a C cast or a wrapping add is reduction into the type's range.
 */
module ElementTypes {
  import opened Arith

  /** A w-bit integer element type, two's complement when signed. */
  datatype IntType = IntType(bits: nat, signed: bool)

  function Pow2(n: nat): (p: nat)
    ensures p > 0
  {
    if n == 0 then 1 else 2 * Pow2(n - 1)
  }

  /** The least value of the type. */
  function Lo(t: IntType): (lo: int)
  {
    if t.signed && t.bits > 0 then 0 - Pow2(t.bits - 1) as int else 0
  }

  ghost predicate InRange(t: IntType, x: int)
  {
    Lo(t) <= x < Lo(t) + Pow2(t.bits)
  }

  /** The C cast of an integer to `t`: the value of the type congruent to x. */
  function Wrap(t: IntType, x: int): (r: int)
    ensures InRange(t, r)
  {
    (x - Lo(t)) % Pow2(t.bits) + Lo(t)
  }

  /** Values that differ by a multiple of the modulus cast alike. */
  lemma WrapShift(t: IntType, x: int, k: int)
    ensures Wrap(t, x + k * Pow2(t.bits)) == Wrap(t, x)
  {
    ModShift(x - Lo(t), k, Pow2(t.bits));
    assert x + k * Pow2(t.bits) - Lo(t) == x - Lo(t) + k * Pow2(t.bits);
  }

  /** The cast is the one value of the type's range that differs by a multiple of 2^w. */
  lemma WrapIs(t: IntType, x: int, r: int, k: int)
    requires r == x + k * Pow2(t.bits)
    requires if t.signed && t.bits > 0 then -(Pow2(t.bits - 1) as int) <= r < Pow2(t.bits - 1) else 0 <= r < Pow2(t.bits)
    ensures Wrap(t, x) == r
  {
    hide Wrap;
    WrapShift(t, x, k);
    WrapInRange(t, r);
  }

  /** How far a cast moves a value: a whole number of moduli. */
  function WrapCount(t: IntType, x: int): (k: int)
    ensures Wrap(t, x) == x + k * Pow2(t.bits)
  {
    -((x - Lo(t)) / Pow2(t.bits))
  }

  lemma WrapCounted(t: IntType, x: int)
    ensures Wrap(t, x) == x + WrapCount(t, x) * Pow2(t.bits)
  {
  }

  /** Casting a summand first does not change the cast of the sum. */
  lemma WrapAdd(t: IntType, x: int, y: int)
    ensures Wrap(t, Wrap(t, x) + y) == Wrap(t, x + y)
    ensures Wrap(t, x + Wrap(t, y)) == Wrap(t, x + y)
  {
    WrapShift(t, x + y, WrapCount(t, x));
    WrapShift(t, x + y, WrapCount(t, y));
  }

  /** A value already in range casts to itself. */
  lemma WrapInRange(t: IntType, x: int)
    requires InRange(t, x)
    ensures Wrap(t, x) == x
  {
    DivModUnique(0, x - Lo(t), Pow2(t.bits));
  }

  lemma {:induction false} Pow2Add(a: nat, b: nat)
    ensures Pow2(a + b) == Pow2(a) * Pow2(b)
  {
    if a > 0 {
      Pow2Add(a - 1, b);
      assert Pow2(a) == 2 * Pow2(a - 1) && Pow2(a + b) == 2 * Pow2(a - 1 + b);
      hide Pow2;
      Associates(2, Pow2(a - 1), Pow2(b));
    }
  }

  /** A cast through a type no narrower than the target is the direct cast. */
  lemma WrapNarrow(wide: IntType, t: IntType, x: int)
    requires t.bits <= wide.bits
    ensures Wrap(t, Wrap(wide, x)) == Wrap(t, x)
  {
    hide Wrap, Pow2, Lo, WrapCount;
    var k, m := WrapCount(wide, x), Pow2(wide.bits - t.bits);
    WrapCounted(wide, x);
    Pow2Add(wide.bits - t.bits, t.bits);
    Associates(k, m, Pow2(t.bits));
    WrapShift(t, x, k * m);
  }
}
