/** Two conversions of an array in a row: the data, the dimensions and where their metadata part ways. */
module ConvertChain {
  import opened Arith
  import opened Sums
  import opened ElementTypes
  import opened ConvertSpec
  import opened ConvertAlgebra
  import opened Convert

  /** The requests combined, dimension by dimension. */
  function ThenDims(first: seq<Dim>, second: seq<Dim>): (d: seq<Dim>)
    requires |first| == |second|
    requires forall i :: 0 <= i < |first| ==> second[i].offset + second[i].size <= Out(first[i])
    ensures |d| == |first| && forall i :: 0 <= i < |d| ==> d[i] == Then(first[i], second[i])
  {
    seq(|first|, i requires 0 <= i < |first| => Then(first[i], second[i]))
  }

  /** `mid` is laid out as the first conversion leaves it, and takes the second. */
  ghost predicate InARow(src: Layout, first: seq<Dim>, mid: Layout, second: seq<Dim>)
  {
    && Accepts(src, first) && Accepts(mid, second) && |mid.dims| == |src.dims|
    && forall i :: 0 <= i < |mid.dims| ==> mid.dims[i] == OutDim(src.dims[i], first[i])
  }

  lemma InARowFits(src: Layout, first: seq<Dim>, mid: Layout, second: seq<Dim>)
    requires InARow(src, first, mid, second)
    ensures forall i :: 0 <= i < |first| ==> Out(second[i]) > 0 && second[i].offset + second[i].size <= Out(first[i])
  {
    forall i | 0 <= i < |first|
      ensures Out(second[i]) > 0 && second[i].offset + second[i].size <= Out(first[i])
    {
      assert Fits(Axis(mid.dims[i].size, second[i]));
    }
  }

  /**
   Where the second element type is no wider than the first, the source takes the
   combined request too, and gives the same data at once.
   */
  lemma ArrayTwice(t1: IntType, t2: IntType, v: seq<int>, src: Layout, first: seq<Dim>, mid: Layout, second: seq<Dim>)
    requires InARow(src, first, mid, second) && t2.bits <= t1.bits
    ensures |first| == |second| && forall i :: 0 <= i < |first| ==> second[i].offset + second[i].size <= Out(first[i])
    ensures Accepts(src, ThenDims(first, second))
    ensures Converted(t2, Converted(t1, v, Axes(src.dims, first)), Axes(mid.dims, second))
         == Converted(t2, v, Axes(src.dims, ThenDims(first, second)))
  {
    hide Out, Then, Converted;
    InARowFits(src, first, mid, second);
    var xs, ys := Axes(src.dims, first), Axes(mid.dims, second);
    forall i | 0 <= i < |first|
      ensures Fits(Axis(src.dims[i].size, Then(first[i], second[i])))
      ensures Fits(xs[i]) && Fits(ys[i]) && ys[i].len == Out(xs[i].req)
    {
      assert Fits(Axis(src.dims[i].size, first[i])) && Fits(Axis(mid.dims[i].size, second[i]));
      ThenFits(first[i], second[i], src.dims[i].size);
    }
    ConvertAlgebra.ConvertTwice(t1, t2, v, xs, ys);
    assert ThenAll(xs, ys) == Axes(src.dims, ThenDims(first, second));
  }

  /**
   Adding the second offset moves the source's offset as far as the combined request
   does. After a mirrored first conversion that is the gap left at the far end, in source
   elements; else it is the second offset itself, in source elements.
   */
  predicate OffsetsAdd(first: Dim, second: Dim)
  {
    if first.reverse then second.offset == (Out(first) - second.offset - Out(second) * Bin(second)) * Bin(first)
    else second.offset == 0 || Bin(first) == 1
  }

  /**
   The output sizes and the cumulative binning and reversal agree with those of the
   combined request; the cumulative offset does exactly where the offsets add: mirrored,
   the second offset equals the far gap times the first binning; not mirrored, it is 0
   or the first is unbinned.
   */
  lemma MetadataTwice(src: Dim, first: Dim, second: Dim)
    requires Out(first) > 0 && Out(second) > 0 && second.offset + second.size <= Out(first)
    ensures var twice, once := OutDim(OutDim(src, first), second), OutDim(src, Then(first, second));
      && twice.size == once.size && twice.binning == once.binning && twice.reverse == once.reverse
      && (twice.offset == once.offset <==> OffsetsAdd(first, second))
  {
    hide Out;
    ThenFits(first, second, first.offset + first.size);
    Associates(src.binning, Bin(first), Bin(second));
    if !first.reverse {
      Scaled(second.offset, Bin(first));
    }
  }

  lemma Scaled(a: nat, b: nat)
    requires b > 0
    ensures a * b == a <==> a == 0 || b == 1
  {
    if a > 0 && b > 1 {
      MulMono(2, b, a);
    }
  }

  /** A second offset of 1 after a binning of 2 is recorded as 1 source element and not 2. */
  lemma OffsetNotScaled()
    ensures var src, first, second := Dim(8, 0, 1, false), Dim(8, 0, 2, false), Dim(2, 1, 1, false);
      && second.offset + second.size <= Out(first)
      && OutDim(OutDim(src, first), second).offset == 1 && OutDim(src, Then(first, second)).offset == 2
  {
  }

  // ---- the metadata locates the data

  /** A dimension of an array that has not been converted. */
  function Unconverted(len: nat): (d: Dim)
  {
    Dim(len, 0, 1, false)
  }

  /** Reported metadata read as a request on the original array. */
  function AsRequest(m: Dim): (d: Dim)
  {
    Dim(m.size * m.binning, m.offset, m.binning, m.reverse)
  }

  /** Element c of a converted dimension is the sum of `binning` elements from where `offset`, `binning` and `reverse` say. */
  lemma MetadataLocates(a: int -> int, len: nat, d: Dim, c: int)
    requires 0 <= c < OutDim(Unconverted(len), d).size
    ensures var m := OutDim(Unconverted(len), d);
      Pixel(a, [Axis(len, d)], c, 0)
        == Sum(m.binning, w => a(m.offset + (if m.reverse then m.size - 1 - c else c) * m.binning + w))
  {
    hide Out, Sum;
    var m, xs := OutDim(Unconverted(len), d), [Axis(len, d)];
    assert xs[..0] == [];
    SumCongr(m.binning,
      w => Pixel(a, xs[..0], c % 1, SlabAt(0, Coord(d, c / 1, w), 1)),
      w => a(m.offset + (if m.reverse then m.size - 1 - c else c) * m.binning + w));
  }

  /** Two requests on a dimension have the same windows. */
  ghost predicate SameWindows(x: Axis, y: Axis)
  {
    && x.len == y.len && Out(x.req) == Out(y.req) && Bin(x.req) == Bin(y.req)
    && x.req.offset == y.req.offset && x.req.reverse == y.req.reverse
  }

  lemma {:induction false} SamePixel(a: int -> int, xs: seq<Axis>, ys: seq<Axis>, k: int, base: int)
    requires |xs| == |ys| && forall i :: 0 <= i < |xs| ==> SameWindows(xs[i], ys[i])
    ensures Count(xs) == Count(ys) && Total(xs) == Total(ys) && Pixel(a, xs, k, base) == Pixel(a, ys, k, base)
    decreases |xs|
  {
    hide Out, Sum, Bin;
    if |xs| > 0 {
      var n := |xs| - 1;
      var x, y := xs[n].req, ys[n].req;
      assert SameWindows(xs[n], ys[n]);
      SamePixel(a, xs[..n], ys[..n], k, base);
      var p, s := Count(xs[..n]), Total(xs[..n]);
      if p > 0 {
        forall w | 0 <= w < Bin(x)
          ensures Pixel(a, xs[..n], k % p, SlabAt(base, Coord(x, k / p, w), s))
               == Pixel(a, ys[..n], k % p, SlabAt(base, Coord(y, k / p, w), s))
        {
          SamePixel(a, xs[..n], ys[..n], k % p, SlabAt(base, Coord(x, k / p, w), s));
        }
        SumCongr(Bin(x),
          w => Pixel(a, xs[..n], k % p, SlabAt(base, Coord(x, k / p, w), s)),
          w => Pixel(a, ys[..n], k % p, SlabAt(base, Coord(y, k / p, w), s)));
      }
    }
  }

  lemma SameConverted(t: IntType, v: seq<int>, xs: seq<Axis>, ys: seq<Axis>)
    requires |xs| == |ys| && forall i :: 0 <= i < |xs| ==> SameWindows(xs[i], ys[i])
    ensures Converted(t, v, xs) == Converted(t, v, ys)
  {
    hide Pixel, Count, Total, Wrap, SameWindows;
    SamePixel(At(v), xs, ys, 0, 0);
    forall k | 0 <= k < Count(xs)
      ensures Wrap(t, Pixel(At(v), xs, k, 0)) == Wrap(t, Pixel(At(v), ys, k, 0))
    {
      SamePixel(At(v), xs, ys, k, 0);
    }
  }

  /** The metadata read as a request has the windows of the request it reports. */
  lemma ReadBack(len: nat, d: Dim)
    requires Out(d) > 0
    ensures SameWindows(Axis(len, d), Axis(len, AsRequest(OutDim(Unconverted(len), d))))
  {
    var m := OutDim(Unconverted(len), d);
    assert m.binning == Bin(d) && m.size == Out(d);
    DivModUnique(m.size, 0, m.binning);
  }

  /** The reported metadata as requests, one for each dimension of an unconverted array. */
  function ReportedAxes(lens: seq<nat>, reported: seq<Dim>): (xs: seq<Axis>)
    requires |lens| == |reported|
    ensures |xs| == |lens| && forall i :: 0 <= i < |xs| ==> xs[i] == Axis(lens[i], AsRequest(reported[i]))
  {
    seq(|lens|, i requires 0 <= i < |lens| => Axis(lens[i], AsRequest(reported[i])))
  }

  /** An array whose every dimension is unconverted. */
  ghost predicate IsUnconverted(src: Layout, lens: seq<nat>)
  {
    |src.dims| == |lens| && forall i :: 0 <= i < |lens| ==> src.dims[i] == Unconverted(lens[i])
  }

  /** The conversion of an unconverted array is what its reported metadata, read as a request, says it is. */
  lemma ReportedOnce(t: IntType, v: seq<int>, src: Layout, lens: seq<nat>, request: seq<Dim>, reported: seq<Dim>)
    requires IsUnconverted(src, lens) && Accepts(src, request) && |reported| == |request|
    requires forall i :: 0 <= i < |request| ==> reported[i] == OutDim(src.dims[i], request[i])
    ensures Converted(t, v, Axes(src.dims, request)) == Converted(t, v, ReportedAxes(lens, reported))
  {
    hide Converted, SameWindows, OutDim, Out, AsRequest;
    var xs, ys := Axes(src.dims, request), ReportedAxes(lens, reported);
    forall i | 0 <= i < |xs|
      ensures SameWindows(xs[i], ys[i])
    {
      assert Fits(Axis(src.dims[i].size, request[i]));
      ReadBack(lens[i], request[i]);
    }
    SameConverted(t, v, xs, ys);
  }

  /** So is the second of two conversions, in every dimension of which the offsets add. */
  lemma ReportedTwice(t1: IntType, t2: IntType, v: seq<int>, src: Layout, lens: seq<nat>, first: seq<Dim>, mid: Layout,
                      second: seq<Dim>, reported: seq<Dim>)
    requires IsUnconverted(src, lens) && InARow(src, first, mid, second) && t2.bits <= t1.bits
    requires forall i :: 0 <= i < |first| ==> OffsetsAdd(first[i], second[i])
    requires |reported| == |second| && forall i :: 0 <= i < |second| ==> reported[i] == OutDim(mid.dims[i], second[i])
    ensures Converted(t2, Converted(t1, v, Axes(src.dims, first)), Axes(mid.dims, second))
         == Converted(t2, v, ReportedAxes(lens, reported))
  {
    hide Converted, OutDim, Out, AsRequest, Then, OffsetsAdd;
    ArrayTwice(t1, t2, v, src, first, mid, second);
    InARowFits(src, first, mid, second);
    var once := ThenDims(first, second);
    forall i | 0 <= i < |first|
      ensures reported[i] == OutDim(src.dims[i], once[i])
    {
      assert Fits(Axis(src.dims[i].size, first[i]));
      MetadataTwice(src.dims[i], first[i], second[i]);
    }
    ReportedOnce(t2, v, src, lens, once, reported);
  }
}
