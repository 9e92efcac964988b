/**
 The algebra of conversions: two in a row are one, a double reversal is none, and
 the total is conserved.
 */
module ConvertAlgebra {
  import opened Arith
  import opened Sums
  import opened ElementTypes
  import opened ConvertSpec

  /** The one request that does `first` and then `second` on a dimension. */
  function Then(first: Dim, second: Dim): (d: Dim)
    requires second.offset + second.size <= Out(first)
  {
    var used := Out(second) * Bin(second);
    Dim(used * Bin(first),
        first.offset + (if first.reverse then Out(first) - second.offset - used else second.offset) * Bin(first),
        Bin(first) * Bin(second),
        first.reverse != second.reverse)
  }

  /** The second conversion is made on the output of the first. */
  ghost predicate Follows(first: seq<Axis>, second: seq<Axis>)
  {
    && |first| == |second|
    && forall i :: 0 <= i < |first| ==> second[i].len == Out(first[i].req)
  }

  ghost function ThenAxis(first: Axis, second: Axis): (x: Axis)
    requires Fits(second) && second.len == Out(first.req)
  {
    Axis(first.len, Then(first.req, second.req))
  }

  ghost function ThenAll(first: seq<Axis>, second: seq<Axis>): (xs: seq<Axis>)
    requires AllFit(second) && Follows(first, second)
    ensures |xs| == |first|
    ensures forall i :: 0 <= i < |xs| ==> xs[i] == ThenAxis(first[i], second[i])
  {
    seq(|first|, i requires 0 <= i < |first| => ThenAxis(first[i], second[i]))
  }

  /** A run of `used` bins of width b from bin `at` on lies within n bins. */
  lemma BinsInside(at: int, used: int, n: int, b: int)
    requires 0 <= at && 0 <= used && at + used <= n && b >= 0
    ensures 0 <= at * b && 0 <= used * b && at * b + used * b <= n * b
  {
    MulNonneg(at, b);
    MulNonneg(used, b);
    MulMono(at + used, n, b);
    assert (at + used) * b == at * b + used * b;
  }

  lemma DivExact(n: int, m: int)
    requires m > 0
    ensures (n * m) / m == n
  {
    DivModUnique(n, 0, m);
  }

  lemma MulShuffle(a: int, b: int, c: int)
    ensures (a * b) * c == a * (c * b)
  {
  }

  /** The combined request has the second's output size and lies in the source. */
  lemma ThenFits(first: Dim, second: Dim, size: nat)
    requires Out(first) > 0 && first.offset + first.size <= size
    requires Out(second) > 0 && second.offset + second.size <= Out(first)
    ensures Bin(Then(first, second)) == Bin(first) * Bin(second)
    ensures Out(Then(first, second)) == Out(second)
    ensures Then(first, second).offset + Then(first, second).size <= size
  {
    hide Out;
    var b1, b2, o1, o2 := Bin(first), Bin(second), Out(first), Out(second);
    var d := Then(first, second);
    MulPositive(b1, b2);
    var used := o2 * b2;
    MulNonneg(o2, b2);
    BinsInside(if first.reverse then o1 - second.offset - used else second.offset, used, o1, b1);
    OutOfBinned(d, o2, b1 * b2) by { MulShuffle(o2, b2, b1); }
  }

  lemma OutOfBinned(d: Dim, n: nat, b: nat)
    requires b >= 1 && d.binning == b && d.size == n * b
    ensures Bin(d) == b && Out(d) == n
  {
    DivExact(n, b);
  }

  lemma {:induction false} ThenAllFits(first: seq<Axis>, second: seq<Axis>)
    requires AllFit(first) && AllFit(second) && Follows(first, second)
    ensures AllFit(ThenAll(first, second))
    ensures Count(ThenAll(first, second)) == Count(second)
    ensures Total(ThenAll(first, second)) == Total(first)
    ensures Total(second) == Count(first)
  {
    hide Out, Then;
    forall i | 0 <= i < |first|
      ensures Fits(ThenAll(first, second)[i])
    {
      ThenFits(first[i].req, second[i].req, first[i].len);
    }
    if |first| > 0 {
      var n := |first| - 1;
      ThenFits(first[n].req, second[n].req, first[n].len);
      assert ThenAll(first, second)[..n] == ThenAll(first[..n], second[..n]);
      ThenAllFits(first[..n], second[..n]);
    }
  }

  /** Along one dimension the two windows of windows are the combined window. */
  lemma Reindex(first: Dim, second: Dim, c: int, g: int -> int)
    requires Out(first) > 0 && Out(second) > 0 && second.offset + second.size <= Out(first)
    requires 0 <= c < Out(second)
    ensures Sum(Bin(second), w => Sum(Bin(first), u => g(Coord(first, Coord(second, c, w), u))))
         == Sum(Bin(Then(first, second)), w => g(Coord(Then(first, second), c, w)))
  {
    hide Out, Then, Coord, Sum;
    var b1, b2 := Bin(first), Bin(second);
    var d := Then(first, second);
    ThenFits(first, second, first.offset + first.size);
    var f := (w: int) => g(Coord(d, c, w));
    SumSplit(b2, b1, f);
    assert b2 * b1 == b1 * b2;
    SumCongr(b1 * b2, f, w => g(Coord(d, c, w)));
    var blocks := (q: int) => Sum(b1, r => f(q * b1 + r));
    SumCongr(b2, blocks, q => Sum(b1, r => f(q * b1 + r)));
    var inner := (w: int) => Sum(b1, u => g(Coord(first, Coord(second, c, w), u)));
    SumCongr(b2, inner, w => Sum(b1, u => g(Coord(first, Coord(second, c, w), u))));
    forall w | 0 <= w < b2
      ensures inner(w) == blocks(if first.reverse then b2 - 1 - w else w)
    {
      var q := if first.reverse then b2 - 1 - w else w;
      WindowOffset(first, second, c, w);
      SumCongr(b1, u => g(Coord(first, Coord(second, c, w), u)), r => f(q * b1 + r));
    }
    if first.reverse {
      SumReverse(b2, blocks);
      SumCongr(b2, inner, w => blocks(b2 - 1 - w));
    } else {
      SumCongr(b2, inner, blocks);
    }
  }

  /** Where block q of the combined window starts. */
  lemma WindowOffset(first: Dim, second: Dim, c: int, w: int)
    requires Out(first) > 0 && Out(second) > 0 && second.offset + second.size <= Out(first)
    requires 0 <= c < Out(second) && 0 <= w < Bin(second)
    ensures forall u :: (
      Coord(first, Coord(second, c, w), u)
      == Coord(Then(first, second), c, (if first.reverse then Bin(second) - 1 - w else w) * Bin(first) + u))
  {
    hide Out;
    var b1, b2, o1, o2 := Bin(first), Bin(second), Out(first), Out(second);
    ThenFits(first, second, first.offset + first.size);
    var m2, m := Mirror(second, c), Mirror(Then(first, second), c);
    MulShuffle(m, b2, b1);
    if first.reverse {
      Mirrored(o1, o2, second.offset, m2, b2, w);
      Distribute3(o1 - second.offset - o2 * b2, m * b2, b2 - 1 - w, b1);
    } else {
      Distribute3(second.offset, m2 * b2, w, b1);
    }
  }

  lemma Mirrored(o1: int, o2: int, offset: int, m: int, b: int, w: int)
    ensures o1 - 1 - (offset + m * b + w) == (o1 - offset - o2 * b) + (o2 - 1 - m) * b + (b - 1 - w)
  {
  }

  lemma Distribute3(a: int, b: int, c: int, m: int)
    ensures (a + b + c) * m == a * m + b * m + c * m
  {
  }

  /** The array o holds the conversion of the array a. */
  ghost predicate Holds(o: int -> int, a: int -> int, xs: seq<Axis>, base: int)
  {
    forall j :: o(j) == Pixel(a, xs, j, base)
  }

  /** Without casts: converting twice is converting once. */
  lemma {:induction false} PixelThen(a: int -> int, o: int -> int, first: seq<Axis>, second: seq<Axis>, k: int, base: int)
    requires AllFit(first) && AllFit(second) && Follows(first, second)
    requires Holds(o, a, first, base) && 0 <= k < Count(second)
    ensures Pixel(o, second, k, 0) == Pixel(a, ThenAll(first, second), k, base)
    decreases |first|, 0
  {
    if |first| > 0 {
      hide Out, Coord, Then, Total, Pixel;
      var n := |first| - 1;
      var p := Count(second[..n]);
      CountPositive(second[..n]);
      Digits(k, p, Out(second[n].req));
      PixelThenAt(a, o, first, second, k / p, k % p, base);
      ThenAllFits(first[..n], second[..n]);
      assert ThenAll(first, second)[..n] == ThenAll(first[..n], second[..n]);
    }
  }

  lemma {:induction false} PixelThenAt(a: int -> int, o: int -> int, first: seq<Axis>, second: seq<Axis>, c: int, k: int, base: int)
    requires |first| > 0 && AllFit(first) && AllFit(second) && Follows(first, second)
    requires Holds(o, a, first, base)
    requires 0 <= c < Out(second[|second| - 1].req) && 0 <= k < Count(second[..|second| - 1])
    ensures var p := Count(second[..|second| - 1]);
      Pixel(o, second, c * p + k, 0) == Pixel(a, ThenAll(first, second), c * p + k, base)
    decreases |first| - 1, 2
  {
    hide Out, Coord, Then, Total, Count, Pixel, Holds, SlabAt, Sum;
    var n := |first| - 1;
    var d1, d2, s := first[n].req, second[n].req, Total(first[..n]);
    var both := ThenAll(first, second);
    ThenAllFits(first[..n], second[..n]);
    assert both[..n] == ThenAll(first[..n], second[..n]);
    var g := (x: int) => Pixel(a, both[..n], k, SlabAt(base, x, s));
    SlabsThen(a, o, g, first, second, c, k, base);
    Reindex(d1, d2, c, g);
    PixelAt(a, both, c, k, base);
    SumCongr(Bin(both[n].req),
      w => g(Coord(Then(d1, d2), c, w)),
      w => Pixel(a, both[..n], k, SlabAt(base, Coord(both[n].req, c, w), Total(both[..n]))));
  }

  /** All slabs of the second's window; g(x) is the combined conversion of source slab x. */
  lemma {:induction false} SlabsThen(a: int -> int, o: int -> int, g: int -> int, first: seq<Axis>, second: seq<Axis>,
                                     c: int, k: int, base: int)
    requires |first| > 0 && AllFit(first) && AllFit(second) && Follows(first, second)
    requires Holds(o, a, first, base)
    requires 0 <= c < Out(second[|second| - 1].req) && 0 <= k < Count(second[..|second| - 1])
    requires var n := |first| - 1;
      forall x :: g(x) == Pixel(a, ThenAll(first[..n], second[..n]), k, SlabAt(base, x, Total(first[..n])))
    ensures var n := |first| - 1;
      Pixel(o, second, c * Count(second[..n]) + k, 0)
      == Sum(Bin(second[n].req), w => Sum(Bin(first[n].req), u => g(Coord(first[n].req, Coord(second[n].req, c, w), u))))
    decreases |first| - 1, 1, 1
  {
    hide Out, Coord, Then, Total, Count, Pixel, Holds, SlabAt, Sum;
    var n := |first| - 1;
    var first', second', d1, d2, s := first[..n], second[..n], first[n].req, second[n].req, Total(first[..n]);
    var f := (w: int) => Pixel(o, second', k, SlabAt(0, Coord(d2, c, w), Total(second')));
    var h := (w: int) => Sum(Bin(d1), u => g(Coord(d1, Coord(d2, c, w), u)));
    forall w | 0 <= w < Bin(d2)
      ensures f(w) == h(w)
    {
      CoordInside(second[n], c, w);
      SlabThen(a, o, first, second', k, base, Coord(d2, c, w));
      SumCongr(Bin(d1),
        u => Pixel(a, ThenAll(first', second'), k, SlabAt(base, Coord(d1, Coord(d2, c, w), u), s)),
        u => g(Coord(d1, Coord(d2, c, w), u)));
    }
    SumCongr(Bin(d2), f, h);
    PixelAt(o, second, c, k, 0);
    SumCongr(Bin(d2), f, w => Pixel(o, second[..n], k, SlabAt(0, Coord(second[n].req, c, w), Total(second[..n]))));
    SumCongr(Bin(d2), h, w => Sum(Bin(d1), u => g(Coord(d1, Coord(d2, c, w), u))));
  }

  /** One slab of the intermediate array, converted by the lower dimensions. */
  lemma {:induction false} SlabThen(a: int -> int, o: int -> int, first: seq<Axis>, second': seq<Axis>, k: int, base: int, x: int)
    requires |first| > 0 && AllFit(first) && AllFit(second') && Follows(first[..|first| - 1], second')
    requires Holds(o, a, first, base)
    requires 0 <= k < Count(second') && 0 <= x < Out(first[|first| - 1].req)
    ensures var n := |first| - 1;
      Pixel(o, second', k, SlabAt(0, x, Total(second')))
      == Sum(Bin(first[n].req), u => Pixel(a, ThenAll(first[..n], second'), k,
                                           SlabAt(base, Coord(first[n].req, x, u), Total(first[..n]))))
    decreases |first| - 1, 1, 0
  {
    hide Out, Count, Coord, Then, Total, Pixel, Sum;
    var n := |first| - 1;
    var first', d, s := first[..n], first[n].req, Total(first[..n]);
    ThenAllFits(first', second');
    var p := Count(first');
    var part := (u: int, i: int) => Pixel(a, first', i, SlabAt(base, Coord(d, x, u), s));
    var slab := (i: int) => o(x * p + i);
    var total := (i: int) => Sum(Bin(d), w => part(w, i));
    PixelShift(o, second', k, 0, x * p);
    PixelExt(slab, i => o(x * p + i), second', k, 0);
    forall i | 0 <= i < 0 + Total(second')
      ensures slab(i) == total(i)
    {
      PixelAt(a, first, x, i, base);
      SumCongr(Bin(d), w => Pixel(a, first', i, SlabAt(base, Coord(d, x, w), s)), w => part(w, i));
    }
    PixelLocal(slab, total, second', k, 0);
    PixelExt(total, i => Sum(Bin(d), w => part(w, i)), second', k, 0);
    PixelSum(Bin(d), part, second', k, 0);
    forall u | 0 <= u < Bin(d)
      ensures Pixel(i => part(u, i), second', k, 0)
           == Pixel(a, ThenAll(first', second'), k, SlabAt(base, Coord(d, x, u), s))
    {
      PixelThen(a, i => part(u, i), first', second', k, SlabAt(base, Coord(d, x, u), s));
    }
    SumCongr(Bin(d),
      w => Pixel(i => part(w, i), second', k, 0),
      u => Pixel(a, ThenAll(first', second'), k, SlabAt(base, Coord(d, x, u), s)));
  }

  /** Every element of the first conversion is, for the second type, as good as before its cast. */
  ghost predicate NothingLost(t1: IntType, t2: IntType, v: seq<int>, first: seq<Axis>)
  {
    forall j :: 0 <= j < Count(first) ==>
      Wrap(t2, Wrap(t1, Pixel(At(v), first, j, 0))) == Wrap(t2, Pixel(At(v), first, j, 0))
  }

  /** Converting twice is converting once, casts and wrap-around included, where the first cast loses nothing. */
  lemma ConvertTwiceIf(t1: IntType, t2: IntType, v: seq<int>, first: seq<Axis>, second: seq<Axis>)
    requires AllFit(first) && AllFit(second) && Follows(first, second)
    requires NothingLost(t1, t2, v, first)
    ensures Converted(t2, Converted(t1, v, first), second) == Converted(t2, v, ThenAll(first, second))
  {
    hide Pixel, Wrap, Pow2, Total, Count, Fits, NothingLost;
    ThenAllFits(first, second);
    forall k | 0 <= k < Count(second)
      ensures Wrap(t2, Pixel(At(Converted(t1, v, first)), second, k, 0))
           == Wrap(t2, Pixel(At(v), ThenAll(first, second), k, 0))
    {
      PixelTwice(t1, t2, v, first, second, k);
    }
  }

  lemma PixelTwice(t1: IntType, t2: IntType, v: seq<int>, first: seq<Axis>, second: seq<Axis>, k: int)
    requires AllFit(first) && AllFit(second) && Follows(first, second)
    requires NothingLost(t1, t2, v, first) && 0 <= k < Count(second)
    ensures Wrap(t2, Pixel(At(Converted(t1, v, first)), second, k, 0))
         == Wrap(t2, Pixel(At(v), ThenAll(first, second), k, 0))
  {
    hide Pixel, Wrap, Pow2, Total, Count, Fits;
    var mid := Converted(t1, v, first);
    var m := Pow2(t2.bits);
    var o1 := (j: int) => Pixel(At(v), first, j, 0);
    var over := (j: int) => WrapCount(t2, o1(j)) - WrapCount(t2, Wrap(t1, o1(j)));
    ThenAllFits(first, second);
    var lifted := (i: int) => o1(i) + m * over(i);
    forall i | 0 <= i < 0 + Total(second)
      ensures At(mid)(i) == lifted(i)
    {
      assert At(mid)(i) == Wrap(t1, o1(i));
      CastAlike(t2, Wrap(t1, o1(i)), o1(i));
    }
    PixelLocal(At(mid), lifted, second, k, 0);
    PixelExt(lifted, i => o1(i) + m * over(i), second, k, 0);
    PixelLinear(o1, m, over, second, k, 0);
    PixelThen(At(v), o1, first, second, k, 0);
    WrapShift(t2, Pixel(o1, second, k, 0), Pixel(over, second, k, 0));
    Commutes(m, Pixel(over, second, k, 0));
  }

  lemma CastAlike(t: IntType, x: int, y: int)
    requires Wrap(t, x) == Wrap(t, y)
    ensures x == y + Pow2(t.bits) * (WrapCount(t, y) - WrapCount(t, x))
  {
    hide Wrap, Pow2;
    var m, a, b := Pow2(t.bits), WrapCount(t, y), WrapCount(t, x);
    assert m * (a - b) == a * m - b * m;
  }

  /** A second element type no wider than the first never sees what the first cast did. */
  lemma ConvertTwice(t1: IntType, t2: IntType, v: seq<int>, first: seq<Axis>, second: seq<Axis>)
    requires t2.bits <= t1.bits
    requires AllFit(first) && AllFit(second) && Follows(first, second)
    ensures Converted(t2, Converted(t1, v, first), second) == Converted(t2, v, ThenAll(first, second))
  {
    hide Pixel, Wrap, Count;
    forall j | 0 <= j < Count(first)
      ensures Wrap(t2, Wrap(t1, Pixel(At(v), first, j, 0))) == Wrap(t2, Pixel(At(v), first, j, 0))
    {
      WrapNarrow(t1, t2, Pixel(At(v), first, j, 0));
    }
    ConvertTwiceIf(t1, t2, v, first, second);
  }

  /** Nor does any second type where the first conversion's sums fit their type. */
  lemma ConvertTwiceUncut(t1: IntType, t2: IntType, v: seq<int>, first: seq<Axis>, second: seq<Axis>)
    requires forall j :: 0 <= j < Count(first) ==> InRange(t1, Pixel(At(v), first, j, 0))
    requires AllFit(first) && AllFit(second) && Follows(first, second)
    ensures Converted(t2, Converted(t1, v, first), second) == Converted(t2, v, ThenAll(first, second))
  {
    hide Pixel, Wrap, Count, InRange;
    forall j | 0 <= j < Count(first)
      ensures Wrap(t2, Wrap(t1, Pixel(At(v), first, j, 0))) == Wrap(t2, Pixel(At(v), first, j, 0))
    {
      WrapInRange(t1, Pixel(At(v), first, j, 0));
    }
    ConvertTwiceIf(t1, t2, v, first, second);
  }

  /** The whole of a dimension, mirrored or not. */
  function Whole(len: nat, reverse: bool): (x: Axis)
  {
    Axis(len, Dim(len, 0, 1, reverse))
  }

  ghost predicate IsIdentity(xs: seq<Axis>)
  {
    forall i :: 0 <= i < |xs| ==> xs[i] == Whole(xs[i].len, false) && xs[i].len > 0
  }

  /** Converting the whole source unbinned and unmirrored moves nothing. */
  lemma {:induction false} PixelIdentity(a: int -> int, xs: seq<Axis>, k: int, base: int)
    requires IsIdentity(xs) && 0 <= k < Count(xs)
    ensures Count(xs) == Total(xs) && Pixel(a, xs, k, base) == a(base + k)
    decreases |xs|
  {
    if |xs| > 0 {
      var n := |xs| - 1;
      var p, s := Count(xs[..n]), Total(xs[..n]);
      assert Out(xs[n].req) == xs[n].len && AllFit(xs[..n]);
      CountPositive(xs[..n]);
      Digits(k, p, xs[n].len);
      var c, j := k / p, k % p;
      PixelIdentity(a, xs[..n], j, SlabAt(base, c, s));
      PixelAt(a, xs, c, j, base);
      var f := (w: int) => Pixel(a, xs[..n], j, SlabAt(base, Coord(xs[n].req, c, w), s));
      assert Sum(1, f) == f(0);
    }
  }

  /** All of the first conversion's output, as it is. */
  ghost function AsIs(first: seq<Axis>): (xs: seq<Axis>)
    ensures |xs| == |first| && forall i :: 0 <= i < |xs| ==> xs[i] == Whole(Out(first[i].req), false)
  {
    seq(|first|, i requires 0 <= i < |first| => Whole(Out(first[i].req), false))
  }

  /**
   Whatever the second conversion, the two are one, if and only if the first cast loses
   nothing of any element that the second type would keep.
   */
  lemma ConvertTwiceIff(t1: IntType, t2: IntType, v: seq<int>, first: seq<Axis>)
    requires AllFit(first)
    ensures NothingLost(t1, t2, v, first) <==>
      forall second :: AllFit(second) && Follows(first, second) ==>
        Converted(t2, Converted(t1, v, first), second) == Converted(t2, v, ThenAll(first, second))
  {
    hide Pixel, Wrap, Count, Converted, NothingLost;
    if NothingLost(t1, t2, v, first) {
      forall second | AllFit(second) && Follows(first, second)
        ensures Converted(t2, Converted(t1, v, first), second) == Converted(t2, v, ThenAll(first, second))
      {
        ConvertTwiceIf(t1, t2, v, first, second);
      }
    } else {
      AsIsFits(first);
      assert Converted(t2, Converted(t1, v, first), AsIs(first)) != Converted(t2, v, ThenAll(first, AsIs(first))) by {
        if Converted(t2, Converted(t1, v, first), AsIs(first)) == Converted(t2, v, ThenAll(first, AsIs(first))) {
          LostShows(t1, t2, v, first);
        }
      }
    }
  }

  lemma AsIsFits(first: seq<Axis>)
    requires AllFit(first)
    ensures AllFit(AsIs(first)) && Follows(first, AsIs(first)) && IsIdentity(AsIs(first))
  {
    forall i | 0 <= i < |first|
      ensures Fits(AsIs(first)[i]) && Out(first[i].req) > 0
    {
      assert Fits(first[i]);
      WholeTwice(Out(first[i].req), false);
    }
  }

  lemma LostShows(t1: IntType, t2: IntType, v: seq<int>, first: seq<Axis>)
    requires AllFit(first) && AllFit(AsIs(first)) && Follows(first, AsIs(first)) && IsIdentity(AsIs(first))
    requires Converted(t2, Converted(t1, v, first), AsIs(first)) == Converted(t2, v, ThenAll(first, AsIs(first)))
    ensures NothingLost(t1, t2, v, first)
  {
    hide Pixel, Wrap, Count, Total, Fits;
    var second, mid := AsIs(first), Converted(t1, v, first);
    var o1 := (j: int) => Pixel(At(v), first, j, 0);
    ThenAllFits(first, second);
    SameCount(first);
    forall k | 0 <= k < Count(first)
      ensures Wrap(t2, Wrap(t1, Pixel(At(v), first, k, 0))) == Wrap(t2, Pixel(At(v), first, k, 0))
    {
      PixelIdentity(At(mid), second, k, 0);
      PixelThen(At(v), o1, first, second, k, 0);
      PixelIdentity(o1, second, k, 0);
      assert Converted(t2, mid, second)[k] == Wrap(t2, mid[k]);
      assert Converted(t2, v, ThenAll(first, second))[k] == Wrap(t2, o1(k));
    }
  }

  lemma {:induction false} SameCount(first: seq<Axis>)
    ensures Count(AsIs(first)) == Count(first)
  {
    if |first| > 0 {
      var n := |first| - 1;
      assert AsIs(first)[..n] == AsIs(first[..n]);
      SameCount(first[..n]);
    }
  }

  /** Two bytes binned to 8 bits and read as 16: the carry of the sum is gone. */
  lemma WiderLoses()
    ensures var first, second := [Axis(2, Dim(2, 0, 2, false))], [Whole(1, false)];
      && AllFit(first) && AllFit(second) && Follows(first, second)
      && Converted(IntType(16, false), Converted(IntType(8, false), [200, 100], first), second) == [44]
      && Converted(IntType(16, false), [200, 100], ThenAll(first, second)) == [300]
  {
    var first, second := [Axis(2, Dim(2, 0, 2, false))], [Whole(1, false)];
    assert ThenAll(first, second) == first;
    hide Pixel, Wrap, Converted, Sum;
    OneElement(IntType(8, false), [200, 100], first[0]);
    OneElement(IntType(16, false), [200, 100], first[0]);
    OneElement(IntType(16, false), [44], second[0]);
    SmallSums();
    SmallCasts();
  }

  lemma SmallSums()
    ensures Sum(2, At([200, 100])) == 300 && Sum(1, At([44])) == 44
  {
  }

  lemma SmallCasts()
    ensures Wrap(IntType(8, false), 300) == 44
    ensures Wrap(IntType(16, false), 300) == 300 && Wrap(IntType(16, false), 44) == 44
  {
    assert Pow2(8) == 256 && Pow2(16) == 65536;
  }

  /** The one output element of one dimension. */
  lemma OneElement(t: IntType, v: seq<int>, x: Axis)
    requires Out(x.req) == 1 && x.req.offset == 0 && !x.req.reverse
    ensures Converted(t, v, [x]) == [Wrap(t, Sum(Bin(x.req), At(v)))]
  {
    hide Wrap, Sum, Out;
    assert [x][..0] == [];
    assert Count([x]) == 1;
    SumCongr(Bin(x.req), w => Pixel(At(v), [x][..0], 0 % 1, SlabAt(0, Coord(x.req, 0 / 1, w), 1)), At(v));
  }

  /** A whole dimension mirrored twice, or not at all, is as it was. */
  lemma WholeTwice(len: nat, reverse: bool)
    requires len > 0
    ensures var x := Whole(len, reverse);
      Fits(x) && Out(x.req) == len && ThenAxis(x, x) == Whole(len, false)
  {
  }

  /** Reversing any choice of dimensions twice restores the array. */
  lemma ReverseTwice(t: IntType, v: seq<int>, xs: seq<Axis>)
    requires forall i :: 0 <= i < |xs| ==> xs[i] == Whole(xs[i].len, xs[i].req.reverse) && xs[i].len > 0
    requires |v| == Total(xs) && forall i :: 0 <= i < |v| ==> InRange(t, v[i])
    ensures Converted(t, Converted(t, v, xs), xs) == v
  {
    hide Pixel, Wrap, Total, Count, Out, Then, Fits, InRange;
    forall i | 0 <= i < |xs|
      ensures Fits(xs[i]) && Out(xs[i].req) == xs[i].len
      ensures ThenAxis(xs[i], xs[i]) == Whole(xs[i].len, false)
    {
      WholeTwice(xs[i].len, xs[i].req.reverse);
    }
    ConvertTwice(t, t, v, xs, xs);
    ThenAllFits(xs, xs);
    var id := ThenAll(xs, xs);
    forall k | 0 <= k < |v|
      ensures Wrap(t, Pixel(At(v), id, k, 0)) == v[k]
    {
      PixelIdentity(At(v), id, k, 0);
      WrapInRange(t, v[k]);
    }
  }

  /** The sum of the source region the output windows cover, in source order. */
  ghost function RegionSum(a: int -> int, xs: seq<Axis>, base: int): (v: int)
    decreases |xs|
  {
    if |xs| == 0 then a(base)
    else
      var n := |xs| - 1;
      var d, s := xs[n].req, Total(xs[..n]);
      Sum(Out(d) * Bin(d), x => RegionSum(a, xs[..n], SlabAt(base, d.offset + x, s)))
  }

  /** Along one dimension the output windows tile the covered run. */
  lemma Tile(d: Dim, g: int -> int)
    ensures Sum(Out(d), c => Sum(Bin(d), w => g(Coord(d, c, w)))) == Sum(Out(d) * Bin(d), x => g(d.offset + x))
  {
    var n, b := Out(d), Bin(d);
    hide Out, Sum;
    var f := (x: int) => g(d.offset + x);
    SumSplit(n, b, f);
    var block := (q: int) => Sum(b, r => f(q * b + r));
    SumCongr(n, block, q => Sum(b, r => f(q * b + r)));
    var window := (c: int) => Sum(b, w => g(Coord(d, c, w)));
    SumCongr(n, window, c => Sum(b, w => g(Coord(d, c, w))));
    forall c | 0 <= c < n
      ensures window(c) == block(Mirror(d, c))
    {
      var m := Mirror(d, c);
      assert forall w :: Coord(d, c, w) == d.offset + (m * b + w);
      SumCongr(b, w => g(Coord(d, c, w)), r => f(m * b + r));
    }
    if d.reverse {
      SumReverse(n, block);
      SumCongr(n, window, i => block(n - 1 - i));
    } else {
      SumCongr(n, window, block);
    }
  }

  /** Without casts: the output adds up to the covered region. */
  lemma {:induction false} PixelTotal(a: int -> int, xs: seq<Axis>, base: int)
    requires AllFit(xs)
    ensures Sum(Count(xs), k => Pixel(a, xs, k, base)) == RegionSum(a, xs, base)
    decreases |xs|, 0
  {
    if |xs| == 0 {
      var f := (k: int) => Pixel(a, xs, k, base);
      assert Sum(1, f) == f(0);
    } else {
      SlabTotals(a, xs, base);
    }
  }

  lemma {:induction false} SlabTotals(a: int -> int, xs: seq<Axis>, base: int)
    requires |xs| > 0 && AllFit(xs)
    ensures Sum(Count(xs), k => Pixel(a, xs, k, base)) == RegionSum(a, xs, base)
    decreases |xs| - 1, 2
  {
    hide Out, Total, Coord, SlabAt, Sum, Pixel;
    var n := |xs| - 1;
    var d, p, s := xs[n].req, Count(xs[..n]), Total(xs[..n]);
    var f := (k: int) => Pixel(a, xs, k, base);
    var g := (x: int) => RegionSum(a, xs[..n], SlabAt(base, x, s));
    SumSplit(Out(d), p, f);
    SumCongr(Count(xs), f, k => Pixel(a, xs, k, base));
    forall c | 0 <= c < Out(d)
      ensures Sum(p, r => f(c * p + r)) == Sum(Bin(d), w => g(Coord(d, c, w)))
    {
      SlabTotal(a, xs, c, base);
      SumCongr(p, r => f(c * p + r), r => Pixel(a, xs, c * p + r, base));
      SumCongr(Bin(d), w => RegionSum(a, xs[..n], SlabAt(base, Coord(d, c, w), s)), w => g(Coord(d, c, w)));
    }
    SumCongr(Out(d), q => Sum(p, r => f(q * p + r)), c => Sum(Bin(d), w => g(Coord(d, c, w))));
    Tile(d, g);
    SumCongr(Out(d) * Bin(d), x => g(d.offset + x), x => RegionSum(a, xs[..n], SlabAt(base, d.offset + x, s)));
  }

  lemma {:induction false} SlabTotal(a: int -> int, xs: seq<Axis>, c: int, base: int)
    requires |xs| > 0 && AllFit(xs)
    ensures var n := |xs| - 1;
      Sum(Count(xs[..n]), r => Pixel(a, xs, c * Count(xs[..n]) + r, base))
      == Sum(Bin(xs[n].req), w => RegionSum(a, xs[..n], SlabAt(base, Coord(xs[n].req, c, w), Total(xs[..n]))))
    decreases |xs| - 1, 1
  {
    hide Out, Count, Total, Coord, SlabAt, Sum, Pixel, RegionSum;
    var n := |xs| - 1;
    var d, p, s := xs[n].req, Count(xs[..n]), Total(xs[..n]);
    var f := (r: int, w: int) => Pixel(a, xs[..n], r, SlabAt(base, Coord(d, c, w), s));
    var q := (r: int) => Pixel(a, xs, c * p + r, base);
    forall r | 0 <= r < p
      ensures q(r) == Sum(Bin(d), w => f(r, w))
    {
      PixelAt(a, xs, c, r, base);
      SumCongr(Bin(d), w => Pixel(a, xs[..n], r, SlabAt(base, Coord(d, c, w), s)), w => f(r, w));
    }
    SumCongr(p, q, r => Pixel(a, xs, c * p + r, base));
    SumCongr(p, q, r => Sum(Bin(d), w => f(r, w)));
    SumSwap(p, Bin(d), f);
    SumCongr(p, r => Sum(Bin(d), w => f(r, w)), i => Sum(Bin(d), j => f(i, j)));
    forall w | 0 <= w < Bin(d)
      ensures Sum(p, r => f(r, w)) == RegionSum(a, xs[..n], SlabAt(base, Coord(d, c, w), s))
    {
      PixelTotal(a, xs[..n], SlabAt(base, Coord(d, c, w), s));
      SumCongr(p, r => f(r, w), k => Pixel(a, xs[..n], k, SlabAt(base, Coord(d, c, w), s)));
    }
    SumCongr(Bin(d), j => Sum(p, i => f(i, j)), w => RegionSum(a, xs[..n], SlabAt(base, Coord(d, c, w), s)));
  }

  /** The output total is the total of the covered source region, modulo 2^w. */
  lemma TotalConserved(t: IntType, v: seq<int>, xs: seq<Axis>)
    requires AllFit(xs)
    ensures |Converted(t, v, xs)| == Count(xs)
    ensures Wrap(t, Sum(Count(xs), At(Converted(t, v, xs)))) == Wrap(t, RegionSum(At(v), xs, 0))
  {
    hide Pixel, RegionSum, Count;
    PixelTotal(At(v), xs, 0);
    var f := (k: int) => Pixel(At(v), xs, k, 0);
    SumCongr(Count(xs), f, k => Pixel(At(v), xs, k, 0));
    WrapSum(t, Count(xs), At(Converted(t, v, xs)), f);
  }

  /** A sum of casts casts like the sum. */
  lemma {:induction false} WrapSum(t: IntType, n: nat, f: int -> int, g: int -> int)
    requires forall i :: 0 <= i < n ==> f(i) == Wrap(t, g(i))
    ensures Wrap(t, Sum(n, f)) == Wrap(t, Sum(n, g))
  {
    hide Wrap;
    if n > 0 {
      WrapSum(t, n - 1, f, g);
      WrapAdd(t, Sum(n - 1, f), g(n - 1));
      WrapAdd(t, Sum(n - 1, g), g(n - 1));
    }
  }
}
