/** Integer elements in a buffer's bytes, little-endian, two's complement where signed. */
module Elements {
  import opened Arith
  import opened ElementTypes
  import opened DataBuffer
  import opened FloatCast

  predicate IsInt(d: DataType)
  {
    d != Float32 && d != Float64
  }

  function IntTypeOf(d: DataType): (t: IntType)
    requires IsInt(d)
    ensures t.bits == 8 * ElementSize(d)
  {
    IntType(8 * ElementSize(d), d == Int8 || d == Int16 || d == Int32 || d == Int64)
  }

  /** The range of each element type. */
  lemma TypeRange(d: DataType, x: int)
    requires IsInt(d)
    ensures InRange(IntTypeOf(d), x) <==>
      match d
      case Int8 => -128 <= x <= 127
      case UInt8 => 0 <= x <= 255
      case Int16 => -32768 <= x <= 32767
      case UInt16 => 0 <= x <= 65535
      case Int32 => -2147483648 <= x <= 2147483647
      case UInt32 => 0 <= x <= 4294967295
      case Int64 => -9223372036854775808 <= x <= 9223372036854775807
      case UInt64 => 0 <= x <= 18446744073709551615
      case _ => false
  {
    Powers();
    hide Pow2;
  }

  /** The bytes of an element, floats included. */
  lemma TypeBytes()
    ensures ElementSize(Int8) == ElementSize(UInt8) == 1 && ElementSize(Int16) == ElementSize(UInt16) == 2
    ensures ElementSize(Int32) == ElementSize(UInt32) == ElementSize(Float32) == 4
    ensures ElementSize(Int64) == ElementSize(UInt64) == ElementSize(Float64) == 8
  {
  }

  lemma Powers()
    ensures Pow2(7) == 128 && Pow2(8) == 256 && Pow2(15) == 32768 && Pow2(16) == 65536
    ensures Pow2(31) == 2147483648 && Pow2(32) == 4294967296
    ensures Pow2(63) == 9223372036854775808 && Pow2(64) == 18446744073709551616
  {
    assert Pow2(7) == 128;
    hide Pow2;
    Doubles(7);
    Pow2Add(7, 8);
    Doubles(15);
    Pow2Add(15, 16);
    Doubles(31);
    Pow2Add(31, 32);
    Doubles(63);
  }

  lemma Doubles(n: nat)
    ensures Pow2(n + 1) == 2 * Pow2(n)
  {
  }

  /** The n low bytes of x, lowest first. */
  function Encode(n: nat, x: int): (b: seq<Byte>)
    ensures |b| == n
  {
    if n == 0 then [] else [x % 256] + Encode(n - 1, x / 256)
  }

  /** Byte i is the i-th base-256 digit, the lowest first. */
  lemma {:induction false} LittleEndian(n: nat, x: int, i: nat)
    requires i < n
    ensures Encode(n, x)[i] == x / Pow2(8 * i) % 256
  {
    if i > 0 {
      LittleEndian(n - 1, x / 256, i - 1);
      assert Encode(n, x)[i] == Encode(n - 1, x / 256)[i - 1];
      Powers();
      Pow2Add(8, 8 * i - 8);
      hide Pow2, Encode;
      DivTwice(x, 256, Pow2(8 * i - 8));
    }
  }

  lemma DivTwice(x: int, a: int, b: int)
    requires a > 0 && b > 0
    ensures a * b > 0 && x / a / b == x / (a * b)
  {
    MulPositive(a, b);
    var q, r := x / a, x % a;
    var q', r' := q / b, q % b;
    MulMono(r' + 1, b, a);
    Commutes(a, b);
    MulNonneg(r', a);
    assert x == q' * (a * b) + (r' * a + r) by {
      assert x == q * a + r && q == q' * b + r';
      assert (q' * b + r') * a == q' * b * a + r' * a;
      Associates(q', b, a);
    }
    DivModUnique(q', r' * a + r, a * b);
  }

  /** The bytes read as an unsigned integer. */
  function Unsigned(b: seq<Byte>): (x: nat)
  {
    if |b| == 0 then 0 else b[0] + 256 * Unsigned(b[1..])
  }

  function Decode(t: IntType, b: seq<Byte>): (x: int)
  {
    Wrap(t, Unsigned(b))
  }

  /** Encoding drops whole multiples of 2^(8n). */
  lemma {:induction false} EncodeResidue(n: nat, x: int) returns (q: int)
    ensures x == Unsigned(Encode(n, x)) + q * Pow2(8 * n)
  {
    if n == 0 {
      q := x;
    } else {
      var b := Encode(n, x);
      assert b[1..] == Encode(n - 1, x / 256);
      q := EncodeResidue(n - 1, x / 256);
      UnsignedFirst(b, x % 256);
      assert Pow2(8) == 256;
      hide Encode, Unsigned, Pow2;
      Pow2Add(8, 8 * n - 8);
      Residue(x, Unsigned(Encode(n - 1, x / 256)), q, Pow2(8 * n - 8));
    }
  }

  lemma Residue(x: int, u: int, q: int, m: int)
    requires x / 256 == u + q * m
    ensures x == x % 256 + 256 * u + q * (256 * m)
  {
    Associates(256, q, m);
    Commutes(256, q);
    Associates(q, 256, m);
  }

  lemma UnsignedFirst(b: seq<Byte>, low: int)
    requires |b| > 0 && b[0] == low
    ensures Unsigned(b) == low + 256 * Unsigned(b[1..])
  {
  }

  /** What is written reads back, reduced to the type. */
  lemma DecodeEncode(t: IntType, n: nat, x: int)
    requires t.bits == 8 * n
    ensures Decode(t, Encode(n, x)) == Wrap(t, x)
  {
    hide Wrap, Encode, Unsigned, Pow2;
    var q := EncodeResidue(n, x);
    WrapShift(t, Unsigned(Encode(n, x)), q);
  }

  function EncodeAll(n: nat, v: seq<int>): (b: seq<Byte>)
    ensures |b| == |v| * n
  {
    if |v| == 0 then [] else EncodeAll(n, v[..|v| - 1]) + Encode(n, v[|v| - 1])
  }

  lemma Place(i: nat, n: nat, k: nat)
    requires i < k
    ensures 0 <= i * n && i * n + n <= k * n
  {
    MulNonneg(i, n);
    MulMono(i + 1, k, n);
  }

  lemma {:induction false} EncodedFrom(n: nat, v: seq<int>, i: nat, lo: nat)
    requires i < |v| && lo == i * n
    ensures lo + n <= |EncodeAll(n, v)| && EncodeAll(n, v)[lo..lo + n] == Encode(n, v[i])
  {
    var k := |v| - 1;
    var a, b := EncodeAll(n, v[..k]), Encode(n, v[k]);
    assert EncodeAll(n, v) == a + b && |a| + |b| == |EncodeAll(n, v)|;
    hide Encode, EncodeAll;
    Place(i, n, |v|);
    if i < k {
      EncodedFrom(n, v[..k], i, lo);
      SliceOfFirst(a, b, lo, lo + n);
    } else {
      SliceOfLast(a, b);
    }
  }

  lemma EncodedAt(n: nat, v: seq<int>, i: nat)
    requires i < |v|
    ensures i * n + n <= |EncodeAll(n, v)| && EncodeAll(n, v)[i * n..i * n + n] == Encode(n, v[i])
  {
    hide Encode, EncodeAll;
    MulNonneg(i, n);
    EncodedFrom(n, v, i, i * n);
  }

  lemma SliceOfFirst(a: seq<Byte>, b: seq<Byte>, lo: nat, hi: nat)
    requires lo <= hi <= |a|
    ensures (a + b)[lo..hi] == a[lo..hi]
  {
  }

  lemma SliceOfLast(a: seq<Byte>, b: seq<Byte>)
    ensures (a + b)[|a|..|a| + |b|] == b
  {
  }

  /** The elements of a buffer. */
  function ElementsOf(b: Buffer): (v: seq<int>)
    requires b.TotalBytes() <= |b.storage| && IsInt(b.dataType)
    ensures |v| == b.len
  {
    var e := ElementSize(b.dataType);
    Inside(b.len, e);
    seq(b.len, i requires 0 <= i < b.len => Decode(IntTypeOf(b.dataType), b.storage[i * e..i * e + e]))
  }

  lemma Inside(len: nat, e: nat)
    ensures forall i :: 0 <= i < len ==> 0 <= i * e && i * e + e <= len * e
  {
    forall i | 0 <= i < len
      ensures 0 <= i * e && i * e + e <= len * e
    {
      MulNonneg(i, e);
      MulMono(i + 1, len, e);
    }
  }

  /** Writing all of a buffer's elements leaves exactly those, reduced to its type. */
  lemma WrittenElements(b: Buffer, v: seq<int>)
    requires b.Valid() && IsInt(b.dataType) && |v| == b.len
    ensures var e := ElementSize(b.dataType); var r := Written(b, EncodeAll(e, v));
      && r.Valid() && r.len == b.len && r.dataType == b.dataType && r.charge == b.charge
      && |ElementsOf(r)| == |v| && forall i :: 0 <= i < |v| ==> ElementsOf(r)[i] == Wrap(IntTypeOf(b.dataType), v[i])
  {
    hide Wrap, Encode, EncodeAll, Decode;
    var e := ElementSize(b.dataType);
    var bytes := EncodeAll(e, v);
    var r := Written(b, bytes);
    forall i | 0 <= i < |v|
      ensures ElementsOf(r)[i] == Wrap(IntTypeOf(b.dataType), v[i])
    {
      EncodedAt(e, v, i);
      MulNonneg(i, e);
      assert r.storage[i * e..i * e + e] == bytes[i * e..i * e + e];
      DecodeEncode(IntTypeOf(b.dataType), e, v[i]);
    }
  }

  lemma {:induction false} EncodePrefix(n: nat, v: seq<int>, k: nat)
    requires k <= |v|
    ensures k * n <= |EncodeAll(n, v)| && EncodeAll(n, v)[..k * n] == EncodeAll(n, v[..k])
  {
    MulMono(k, |v|, n);
    if k < |v| {
      var last := |v| - 1;
      EncodePrefix(n, v[..last], k);
      assert v[..last][..k] == v[..k];
    } else {
      assert v[..k] == v;
    }
  }

  /** `x as T` of a float: truncated, held at the type's bounds; no number is zero. */
  function SaturatingCast(t: IntType, x: Float): (r: int)
    ensures InRange(t, r)
  {
    var lo, hi := Lo(t), Lo(t) + Pow2(t.bits) - 1;
    LoZero(t);
    match x
    case Num(v) => if Trunc(v) < lo then lo else if Trunc(v) > hi then hi else Trunc(v)
    case NaN => 0
    case Infinity(negative) => if negative then lo else hi
  }

  /** Within the type's range the integer toward zero, else the nearer bound; no number is zero. */
  lemma SaturatingIs(t: IntType, x: Float)
    ensures var lo, hi := Lo(t), Lo(t) + Pow2(t.bits) - 1; var r := SaturatingCast(t, x);
      match x
      case NaN => r == 0
      case Infinity(negative) => r == if negative then lo else hi
      case Num(v) =>
        if v >= hi as real then r == hi else if v <= lo as real then r == lo
        else if v >= 0.0 then 0.0 <= r as real <= v < r as real + 1.0
        else r as real - 1.0 < v <= r as real <= 0.0
  {
    LoZero(t);
    if x.Num? {
      hide Lo, Pow2, InRange;
      TruncNear(x.v);
    }
  }

  lemma LoZero(t: IntType)
    ensures InRange(t, 0)
  {
  }

  function SaturatedAll(t: IntType, values: seq<Float>): (v: seq<int>)
    ensures |v| == |values| && forall i :: 0 <= i < |v| ==> v[i] == SaturatingCast(t, values[i])
  {
    seq(|values|, i requires 0 <= i < |values| => SaturatingCast(t, values[i]))
  }

  /** A refill from floats holds their saturating casts, as many as the charge allows. */
  lemma FilledFromFloats(b: Buffer, values: seq<Float>)
    requires b.Valid() && IsInt(b.dataType)
    ensures var e := ElementSize(b.dataType); var v := SaturatedAll(IntTypeOf(b.dataType), values);
      && |EncodeAll(e, v)| % e == 0
      && var r := Filled(b, EncodeAll(e, v));
         r.Valid() && r.charge == b.charge && r.len == Allowed(b, |values|) && ElementsOf(r) == v[..r.len]
  {
    hide Wrap, Encode, EncodeAll, Decode, SaturatingCast, ElementsOf;
    var e, t := ElementSize(b.dataType), IntTypeOf(b.dataType);
    var v := SaturatedAll(t, values);
    var bytes := EncodeAll(e, v);
    DivModUnique(|v|, 0, e);
    var s := WithLen(b, |v|);
    SetLenFits(b, |v|);
    EncodePrefix(e, v, s.len);
    WrittenElements(s, v[..s.len]);
    var r := Filled(b, bytes);
    FilledContents(b, bytes);
    assert r == Written(s, EncodeAll(e, v[..s.len]));
    forall i | 0 <= i < s.len
      ensures ElementsOf(r)[i] == v[i]
    {
      WrapInRange(t, v[i]);
    }
  }
}
