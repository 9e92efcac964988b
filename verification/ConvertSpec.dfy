/**
 What converting an N-dimensional array means, element by element: every output
 element is the sum of the source elements in its binning window. Dimension 0
 varies fastest in the flat index.
 */
module ConvertSpec {
  import opened Arith
  import opened Sums
  import opened ElementTypes

  /** One dimension of an array, or of a conversion request. */
  datatype Dim = Dim(size: nat, offset: nat, binning: nat, reverse: bool)

  /** A binning of 0 is treated as 1. */
  function Bin(d: Dim): (b: nat)
    ensures b > 0
  {
    if d.binning > 1 then d.binning else 1
  }

  /** The output size of a requested dimension; a remainder is dropped. */
  function Out(d: Dim): (n: nat)
    ensures n * Bin(d) <= d.size
  {
    d.size / Bin(d)
  }

  /** As many whole bins as the requested size holds, a binning of 0 being one of 1. */
  lemma OutIs(d: Dim, n: nat)
    ensures n <= Out(d) <==> n * (if d.binning == 0 then 1 else d.binning) <= d.size
  {
    WholePart(d.size, Bin(d));
    if n <= Out(d) {
      MulMono(n, Out(d), Bin(d));
    } else {
      MulMono(Out(d) + 1, n, Bin(d));
      assert (Out(d) + 1) * Bin(d) == Out(d) * Bin(d) + Bin(d);
    }
  }

  /** The window an output coordinate is read from, mirrored on `reverse`. */
  function Mirror(d: Dim, c: int): (m: int)
  {
    if d.reverse then Out(d) - 1 - c else c
  }

  /** A source dimension's length with the request made on it. */
  datatype Axis = Axis(len: nat, req: Dim)

  /** The source elements. */
  function Total(xs: seq<Axis>): (n: nat)
  {
    if |xs| == 0 then 1 else Total(xs[..|xs| - 1]) * xs[|xs| - 1].len
  }

  /** The elements the conversion produces. */
  function Count(xs: seq<Axis>): (n: nat)
  {
    if |xs| == 0 then 1 else Count(xs[..|xs| - 1]) * Out(xs[|xs| - 1].req)
  }

  /** The request lies inside the source and has at least one output element. */
  ghost predicate Fits(x: Axis)
  {
    Out(x.req) > 0 && x.req.offset + x.req.size <= x.len
  }

  ghost predicate AllFit(xs: seq<Axis>)
  {
    forall i :: 0 <= i < |xs| ==> Fits(xs[i])
  }

  lemma {:induction false} CountPositive(xs: seq<Axis>)
    requires AllFit(xs)
    ensures Count(xs) > 0
  {
    if |xs| > 0 {
      CountPositive(xs[..|xs| - 1]);
      MulPositive(Count(xs[..|xs| - 1]), Out(xs[|xs| - 1].req));
    }
  }

  /** The source coordinate of window position w of output coordinate c. */
  function Coord(d: Dim, c: int, w: int): (x: int)
  {
    d.offset + Mirror(d, c) * Bin(d) + w
  }

  /** The first element of slab x, every slab having s elements. */
  function SlabAt(base: int, x: int, s: int): (i: int)
  {
    base + x * s
  }

  /**
   Output element k of the array `a`, whose first element is at `base`: the sum of
   `a` over the binning window of k's coordinates, one dimension after another.
   */
  ghost function Pixel(a: int -> int, xs: seq<Axis>, k: int, base: int): (v: int)
    decreases |xs|
  {
    if |xs| == 0 then a(base)
    else
      var n := |xs| - 1;
      var p, s := Count(xs[..n]), Total(xs[..n]);
      if p == 0 then 0
      else Sum(Bin(xs[n].req), w => Pixel(a, xs[..n], k % p, SlabAt(base, Coord(xs[n].req, k / p, w), s)))
  }

  /** A flat buffer as a function of the index. */
  function At(v: seq<int>): (a: int -> int)
  {
    i => if 0 <= i < |v| then v[i] else 0
  }

  /** The conversion of a buffer to element type t: every window sum modulo 2^w. */
  ghost function Converted(t: IntType, v: seq<int>, xs: seq<Axis>): (out: seq<int>)
  {
    seq(Count(xs), k => Wrap(t, Pixel(At(v), xs, k, 0)))
  }

  /** A window position lies within the source dimension. */
  lemma CoordInside(x: Axis, c: int, w: int)
    requires Fits(x) && 0 <= c < Out(x.req) && 0 <= w < Bin(x.req)
    ensures 0 <= Mirror(x.req, c) < Out(x.req)
    ensures x.req.offset <= Coord(x.req, c, w) < x.req.offset + Out(x.req) * Bin(x.req) <= x.len
  {
    hide Out;
    var m := Mirror(x.req, c);
    MulNonneg(m, Bin(x.req));
    MulMono(m + 1, Out(x.req), Bin(x.req));
  }

  /** A slab at coordinate x of the last dimension lies within the array. */
  lemma SlabInside(x: int, s: int, size: int)
    requires s >= 0 && 0 <= x < size
    ensures 0 <= x * s && x * s + s <= s * size
  {
    MulNonneg(x, s);
    MulMono(x + 1, size, s);
  }

  /** The element with last coordinate c and index k below it. */
  lemma PixelAt(a: int -> int, xs: seq<Axis>, c: int, k: int, base: int)
    requires |xs| > 0 && 0 <= k < Count(xs[..|xs| - 1])
    ensures var n := |xs| - 1;
      Pixel(a, xs, c * Count(xs[..n]) + k, base)
      == Sum(Bin(xs[n].req), w => Pixel(a, xs[..n], k, SlabAt(base, Coord(xs[n].req, c, w), Total(xs[..n]))))
  {
    hide Out, Count, Coord, Total;
    var n := |xs| - 1;
    var p, s := Count(xs[..n]), Total(xs[..n]);
    DivModUnique(c, k, p);
    SumCongr(Bin(xs[n].req),
      w => Pixel(a, xs[..n], (c * p + k) % p, SlabAt(base, Coord(xs[n].req, (c * p + k) / p, w), s)),
      w => Pixel(a, xs[..n], k, SlabAt(base, Coord(xs[n].req, c, w), s)));
  }

  /**
   Every source index a conversion reads is inside the source: the element depends
   on the array only there.
   */
  lemma {:induction false} PixelLocal(a: int -> int, b: int -> int, xs: seq<Axis>, k: int, base: int)
    requires AllFit(xs) && 0 <= k < Count(xs)
    requires forall i :: base <= i < base + Total(xs) ==> a(i) == b(i)
    ensures Pixel(a, xs, k, base) == Pixel(b, xs, k, base)
    decreases |xs|
  {
    hide Out, Coord, Sum;
    if |xs| > 0 {
      var n := |xs| - 1;
      var x, p, s := xs[n], Count(xs[..n]), Total(xs[..n]);
      CountPositive(xs[..n]);
      Digits(k, p, Out(x.req));
      forall w | 0 <= w < Bin(x.req)
        ensures Pixel(a, xs[..n], k % p, SlabAt(base, Coord(x.req, k / p, w), s))
             == Pixel(b, xs[..n], k % p, SlabAt(base, Coord(x.req, k / p, w), s))
      {
        CoordInside(x, k / p, w);
        SlabInside(Coord(x.req, k / p, w), s, x.len);
        PixelLocal(a, b, xs[..n], k % p, SlabAt(base, Coord(x.req, k / p, w), s));
      }
      SumCongr(Bin(x.req),
        w => Pixel(a, xs[..n], k % p, SlabAt(base, Coord(x.req, k / p, w), s)),
        w => Pixel(b, xs[..n], k % p, SlabAt(base, Coord(x.req, k / p, w), s)));
    }
  }

  /** Moving the array is moving the base. */
  lemma {:induction false} PixelShift(a: int -> int, xs: seq<Axis>, k: int, base: int, dist: int)
    ensures Pixel(a, xs, k, dist + base) == Pixel(i => a(dist + i), xs, k, base)
    decreases |xs|
  {
    hide Out, Coord, Count, Total, Sum;
    if |xs| > 0 && Count(xs[..|xs| - 1]) > 0 {
      var n := |xs| - 1;
      var d, p, s := xs[n].req, Count(xs[..n]), Total(xs[..n]);
      var moved := i => a(dist + i);
      forall w | 0 <= w < Bin(d)
        ensures Pixel(a, xs[..n], k % p, SlabAt(dist + base, Coord(d, k / p, w), s))
             == Pixel(moved, xs[..n], k % p, SlabAt(base, Coord(d, k / p, w), s))
      {
        PixelShift(a, xs[..n], k % p, SlabAt(base, Coord(d, k / p, w), s), dist);
        assert dist + SlabAt(base, Coord(d, k / p, w), s) == SlabAt(dist + base, Coord(d, k / p, w), s);
      }
      SumCongr(Bin(d),
        w => Pixel(a, xs[..n], k % p, SlabAt(dist + base, Coord(d, k / p, w), s)),
        w => Pixel(moved, xs[..n], k % p, SlabAt(base, Coord(d, k / p, w), s)));
    }
  }

  /** Conversion is linear in the array. */
  lemma {:induction false} PixelLinear(a: int -> int, m: int, b: int -> int, xs: seq<Axis>, k: int, base: int)
    ensures Pixel(i => a(i) + m * b(i), xs, k, base) == Pixel(a, xs, k, base) + m * Pixel(b, xs, k, base)
    decreases |xs|
  {
    hide Out, Coord, Count, Total, Sum;
    if |xs| > 0 && Count(xs[..|xs| - 1]) > 0 {
      var n := |xs| - 1;
      var d, p, s := xs[n].req, Count(xs[..n]), Total(xs[..n]);
      var both := i => a(i) + m * b(i);
      var fa := (w: int) => Pixel(a, xs[..n], k % p, SlabAt(base, Coord(d, k / p, w), s));
      var fb := (w: int) => Pixel(b, xs[..n], k % p, SlabAt(base, Coord(d, k / p, w), s));
      var mb := (w: int) => m * fb(w);
      forall w | 0 <= w < Bin(d)
        ensures Pixel(both, xs[..n], k % p, SlabAt(base, Coord(d, k / p, w), s)) == fa(w) + mb(w)
      {
        PixelLinear(a, m, b, xs[..n], k % p, SlabAt(base, Coord(d, k / p, w), s));
      }
      SumCongr(Bin(d), w => Pixel(both, xs[..n], k % p, SlabAt(base, Coord(d, k / p, w), s)), w => fa(w) + mb(w));
      SumPlus(Bin(d), fa, mb);
      SumScale(Bin(d), m, fb);
      SumCongr(Bin(d), mb, w => m * fb(w));
      SumCongr(Bin(d), fa, w => Pixel(a, xs[..n], k % p, SlabAt(base, Coord(d, k / p, w), s)));
      SumCongr(Bin(d), fb, w => Pixel(b, xs[..n], k % p, SlabAt(base, Coord(d, k / p, w), s)));
    }
  }

  /** Conversion depends on the array's values alone. */
  lemma {:induction false} PixelExt(a: int -> int, b: int -> int, xs: seq<Axis>, k: int, base: int)
    requires forall i :: a(i) == b(i)
    ensures Pixel(a, xs, k, base) == Pixel(b, xs, k, base)
    decreases |xs|
  {
    if |xs| > 0 && Count(xs[..|xs| - 1]) > 0 {
      hide Out, Coord, Count, Total, Sum;
      var n := |xs| - 1;
      var d, p, s := xs[n].req, Count(xs[..n]), Total(xs[..n]);
      forall w | 0 <= w < Bin(d)
        ensures Pixel(a, xs[..n], k % p, SlabAt(base, Coord(d, k / p, w), s))
             == Pixel(b, xs[..n], k % p, SlabAt(base, Coord(d, k / p, w), s))
      {
        PixelExt(a, b, xs[..n], k % p, SlabAt(base, Coord(d, k / p, w), s));
      }
      SumCongr(Bin(d),
        w => Pixel(a, xs[..n], k % p, SlabAt(base, Coord(d, k / p, w), s)),
        w => Pixel(b, xs[..n], k % p, SlabAt(base, Coord(d, k / p, w), s)));
    }
  }

  /** Conversion commutes with a finite sum of arrays. */
  lemma {:induction false} PixelSum(m: nat, f: (int, int) -> int, xs: seq<Axis>, k: int, base: int)
    ensures Pixel(i => Sum(m, w => f(w, i)), xs, k, base) == Sum(m, w => Pixel(i => f(w, i), xs, k, base))
  {
    hide Pixel;
    var whole := (i: int) => Sum(m, w => f(w, i));
    PixelExt(whole, i => Sum(m, w => f(w, i)), xs, k, base);
    if m == 0 {
      PixelLinear(whole, -1, whole, xs, k, base);
      PixelExt(whole, i => whole(i) + -1 * whole(i), xs, k, base);
    } else {
      PixelSum(m - 1, f, xs, k, base);
      var rest := (i: int) => Sum(m - 1, w => f(w, i));
      var last := (i: int) => f(m - 1, i);
      PixelLinear(rest, 1, last, xs, k, base);
      PixelExt(whole, i => rest(i) + 1 * last(i), xs, k, base);
      PixelExt(rest, i => Sum(m - 1, w => f(w, i)), xs, k, base);
      PixelExt(last, i => f(m - 1, i), xs, k, base);
    }
  }
}
