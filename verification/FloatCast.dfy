/**
 The cast of a float element to an integer type: truncate toward zero, then reduce
 modulo the width. The vector form truncates to 64-bit lanes and narrows them pair by
 pair; a chunk with a lane outside the 64-bit range takes the scalar form.
 A finite value is a rational here.
 */
module FloatCast {
  import opened ElementTypes

  /** Truncation toward zero. */
  function Trunc(x: real): (n: int)
  {
    if x >= 0.0 then x.Floor else -(-x).Floor
  }

  const I128MAX: int := 0x7FFF_FFFF_FFFF_FFFF_FFFF_FFFF_FFFF_FFFF

  datatype Float = Num(v: real) | NaN | Infinity(negative: bool)

  /** `x as i128`: truncation, saturated at the 128-bit bounds; no number is zero. */
  function ToI128(x: Float): (n: int)
  {
    match x
    case Num(v) => Saturate(Trunc(v))
    case NaN => 0
    case Infinity(negative) => if negative then -I128MAX - 1 else I128MAX
  }

  /** Truncation drops less than one, never away from zero. */
  lemma TruncNear(v: real)
    ensures var r := Trunc(v) as real;
      if v >= 0.0 then 0.0 <= r <= v < r + 1.0 else r - 1.0 < v <= r <= 0.0
  {
  }

  /**
   A number casts to the integer toward zero from it, as far as 128 bits hold it; beyond
   them, and at infinity, to the nearer bound.
   */
  lemma CastIs(x: Float)
    ensures x.Num? && -170141183460469231731687303715884105728.0 <= x.v < 170141183460469231731687303715884105728.0 ==>
      var r := ToI128(x) as real;
      if x.v >= 0.0 then 0.0 <= r <= x.v < r + 1.0 else r - 1.0 < x.v <= r <= 0.0
    ensures (x.Num? && x.v >= 170141183460469231731687303715884105728.0) || x == Infinity(false) ==>
      ToI128(x) == 170141183460469231731687303715884105727
    ensures (x.Num? && x.v < -170141183460469231731687303715884105728.0) || x == Infinity(true) ==>
      ToI128(x) == -170141183460469231731687303715884105728
    ensures x == NaN ==> ToI128(x) == 0
  {
    if x.Num? {
      TruncNear(x.v);
    }
  }

  function Saturate(n: int): (r: int)
  {
    if n > I128MAX then I128MAX else if n < -I128MAX - 1 then -I128MAX - 1 else n
  }

  /** The scalar cast `x as i128 as T`. */
  function CCast(t: IntType, x: Float): (r: int)
    ensures InRange(t, r)
  {
    Wrap(t, ToI128(x))
  }

  const LIMIT: real := 9223372036854775808.0

  /** The lane is below 2^63 in magnitude, where the truncating conversion is exact; NaN is not. */
  predicate InLane(x: Float)
  {
    x.Num? && -LIMIT < x.v < LIMIT
  }

  /** What the truncating conversion leaves in a lane; outside the range it does not matter. */
  function LaneTrunc(x: Float): (n: int)
  {
    if x.Num? then Trunc(x.v) else 0
  }

  /** Inside the lane range the 128-bit saturation never acts. */
  lemma LaneExact(x: Float)
    requires InLane(x)
    ensures ToI128(x) == LaneTrunc(x) && -0x8000_0000_0000_0000 <= LaneTrunc(x) <= 0x7FFF_FFFF_FFFF_FFFF
  {
    if x.v >= 0.0 {
      assert x.v.Floor as real <= x.v;
    } else {
      assert (-x.v).Floor as real <= -x.v;
    }
  }

  function Signed(bits: nat): (t: IntType)
  {
    IntType(bits, true)
  }

  /** Every lane reduced to `bits` bits. */
  function Reduce(bits: nat, v: seq<int>): (r: seq<int>)
    ensures |r| == |v| && forall i :: 0 <= i < |v| ==> r[i] == Wrap(Signed(bits), v[i])
  {
    seq(|v|, i requires 0 <= i < |v| => Wrap(Signed(bits), v[i]))
  }

  /** Each pair of vectors narrowed into one of half-width lanes, low lanes first. */
  function NarrowPairs(bits: nat, vs: seq<seq<int>>): (ws: seq<seq<int>>)
    ensures |ws| == |vs| / 2
  {
    if |vs| < 2 then [] else [Reduce(bits, vs[0] + vs[1])] + NarrowPairs(bits, vs[2..])
  }

  /** 2^k vectors of `bits`-bit lanes narrowed into one vector. */
  function NarrowTree(k: nat, bits: nat, vs: seq<seq<int>>): (v: seq<int>)
    requires |vs| == Pow2(k)
  {
    if k == 0 then vs[0] else NarrowTree(k - 1, bits / 2, NarrowPairs(bits / 2, vs))
  }

  function Flat(vs: seq<seq<int>>): (s: seq<int>)
  {
    if |vs| == 0 then [] else vs[0] + Flat(vs[1..])
  }

  lemma FlatFirst(v: seq<int>, vs: seq<seq<int>>)
    ensures Flat([v] + vs) == v + Flat(vs)
  {
    assert ([v] + vs)[1..] == vs;
  }

  lemma FlatPair(vs: seq<seq<int>>)
    requires |vs| >= 2
    ensures Flat(vs) == (vs[0] + vs[1]) + Flat(vs[2..])
  {
    assert vs[1..][1..] == vs[2..];
  }

  lemma ReduceConcat(bits: nat, a: seq<int>, b: seq<int>)
    ensures Reduce(bits, a + b) == Reduce(bits, a) + Reduce(bits, b)
  {
    hide Wrap;
  }

  lemma {:induction false} NarrowPairsFlat(bits: nat, vs: seq<seq<int>>)
    requires |vs| % 2 == 0
    ensures Flat(NarrowPairs(bits, vs)) == Reduce(bits, Flat(vs))
  {
    if |vs| >= 2 {
      NarrowPairsFlat(bits, vs[2..]);
      FlatFirst(Reduce(bits, vs[0] + vs[1]), NarrowPairs(bits, vs[2..]));
      hide Flat, Reduce;
      FlatPair(vs);
      ReduceConcat(bits, vs[0] + vs[1], Flat(vs[2..]));
    }
  }

  /** Narrowing keeps every lane's residue for any type that is narrow enough. */
  lemma {:induction false} NarrowTreeKeeps(t: IntType, k: nat, bits: nat, vs: seq<seq<int>>)
    requires |vs| == Pow2(k) && t.bits * Pow2(k) == bits
    ensures |NarrowTree(k, bits, vs)| == |Flat(vs)|
    ensures forall i :: 0 <= i < |Flat(vs)| ==> Wrap(t, NarrowTree(k, bits, vs)[i]) == Wrap(t, Flat(vs)[i])
    decreases k
  {
    if k == 0 {
      assert vs[1..] == [];
      assert Flat(vs) == vs[0];
    } else {
      var half := bits / 2;
      assert bits == 2 * (t.bits * Pow2(k - 1));
      var ws := NarrowPairs(half, vs);
      NarrowTreeKeeps(t, k - 1, half, ws);
      NarrowPairsFlat(half, vs);
      MulAtLeast(t.bits, Pow2(k - 1));
      forall i | 0 <= i < |Flat(vs)|
        ensures Wrap(t, Flat(ws)[i]) == Wrap(t, Flat(vs)[i])
      {
        WrapNarrow(Signed(half), t, Flat(vs)[i]);
      }
    }
  }

  lemma MulAtLeast(a: nat, b: nat)
    requires b > 0
    ensures a * b >= a
  {
  }

  function TruncAll(values: seq<Float>): (v: seq<int>)
    ensures |v| == |values| && forall i :: 0 <= i < |v| ==> v[i] == LaneTrunc(values[i])
  {
    seq(|values|, i requires 0 <= i < |values| => LaneTrunc(values[i]))
  }

  /** The chunk as 2^k vectors of `lanes` truncated lanes. */
  function Vectors(c: seq<Float>, lanes: nat, n: nat): (vs: seq<seq<int>>)
    requires |c| == lanes * n
    ensures |vs| == n && Flat(vs) == TruncAll(c)
    decreases n
  {
    if n == 0 then []
    else
      assert |c| - lanes == lanes * (n - 1);
      var v := TruncAll(c[..lanes]);
      assert TruncAll(c) == v + TruncAll(c[lanes..]);
      [v] + Vectors(c[lanes..], lanes, n - 1)
  }

  /** The vector form of a chunk: truncated lanes, narrowed, read as the target type. */
  function LaneCast(t: IntType, k: nat, lanes: nat, c: seq<Float>): (r: seq<int>)
    requires |c| == lanes * Pow2(k)
  {
    var x := NarrowTree(k, 64, Vectors(c, lanes, Pow2(k)));
    seq(|x|, i requires 0 <= i < |x| => Wrap(t, x[i]))
  }

  function ScalarCast(t: IntType, c: seq<Float>): (r: seq<int>)
    ensures |r| == |c| && forall i :: 0 <= i < |c| ==> r[i] == CCast(t, c[i])
  {
    seq(|c|, i requires 0 <= i < |c| => CCast(t, c[i]))
  }

  /** A chunk whose lanes are all in range casts the same on either path. */
  lemma LaneCastIsScalar(t: IntType, k: nat, lanes: nat, c: seq<Float>)
    requires |c| == lanes * Pow2(k) && t.bits * Pow2(k) == 64
    requires forall i :: 0 <= i < |c| ==> InLane(c[i])
    ensures LaneCast(t, k, lanes, c) == ScalarCast(t, c)
  {
    hide Wrap, ToI128, LaneTrunc;
    NarrowTreeKeeps(t, k, 64, Vectors(c, lanes, Pow2(k)));
    forall i | 0 <= i < |c|
      ensures LaneCast(t, k, lanes, c)[i] == CCast(t, c[i])
    {
      LaneExact(c[i]);
    }
  }

  /**
   The cast kernel over a run: a chunk is 2^k vectors, the vector form wherever every
   lane is in range, the scalar form elsewhere and on the remainder.
   */
  method CastFloats(t: IntType, k: nat, lanes: nat, values: seq<Float>) returns (out: seq<int>)
    requires lanes > 0 && t.bits * Pow2(k) == 64
    ensures |out| == |values| && forall i :: 0 <= i < |values| ==> out[i] == CCast(t, values[i])
  {
    hide Wrap, ToI128, LaneTrunc, Pow2, LaneCast, InLane, CCast;
    var step := lanes * Pow2(k);
    assert step > 0;
    out := [];
    while |out| + step <= |values|
      invariant |out| <= |values|
      invariant out == ScalarCast(t, values[..|out|])
      decreases |values| - |out|
    {
      var c := values[|out|..|out| + step];
      var inRange := forall i :: 0 <= i < |c| ==> InLane(c[i]);
      var o;
      if inRange {
        o := LaneCast(t, k, lanes, c);
        LaneCastIsScalar(t, k, lanes, c);
      } else {
        o := ScalarCast(t, c);
      }
      assert values[..|out| + step] == values[..|out|] + c;
      out := out + o;
    }
    out := out + ScalarCast(t, values[|out|..]);
  }
}
