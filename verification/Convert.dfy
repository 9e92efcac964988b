/**
 The conversion itself: sub-region, binning, reversal and cast, checked against the
 source and filled row by row into the output buffer.
 */
module Convert {
  import opened Wrappers
  import opened Arith
  import opened Sums
  import opened ElementTypes
  import opened ConvertSpec
  import opened ConvertRows
  import opened BinKernels
  import opened SourceRows

  datatype ConvertError = UnsupportedConversion | InvalidDimensions

  /** An array's layout: its dimensions, and whether its data is compressed. */
  datatype Layout = Layout(dims: seq<Dim>, compressed: bool)

  /** The request can be met: same number of dimensions, every one inside the source. */
  ghost predicate Accepts(src: Layout, dimsOut: seq<Dim>)
  {
    && !src.compressed
    && |dimsOut| == |src.dims|
    && forall i :: 0 <= i < |dimsOut| ==> Fits(Axis(src.dims[i].size, dimsOut[i]))
  }

  /** In numbers: every dimension asks for at least one whole bin, a binning of 0 being one of 1, and ends inside the source. */
  lemma AcceptsIff(src: Layout, dimsOut: seq<Dim>)
    ensures Accepts(src, dimsOut) <==>
      && !src.compressed && |dimsOut| == |src.dims|
      && forall i :: 0 <= i < |dimsOut| ==>
           var d := dimsOut[i];
           d.size > 0 && d.binning <= d.size && d.offset + d.size <= src.dims[i].size
  {
    forall i | 0 <= i < |dimsOut| && |dimsOut| == |src.dims|
      ensures Fits(Axis(src.dims[i].size, dimsOut[i])) <==>
        dimsOut[i].size > 0 && dimsOut[i].binning <= dimsOut[i].size
        && dimsOut[i].offset + dimsOut[i].size <= src.dims[i].size
    {
      OutIs(dimsOut[i], 1);
    }
  }

  /** The request paired with the source lengths. */
  function Axes(src: seq<Dim>, dimsOut: seq<Dim>): (xs: seq<Axis>)
    requires |src| == |dimsOut|
    ensures |xs| == |src| && forall i :: 0 <= i < |xs| ==> xs[i] == Axis(src[i].size, dimsOut[i])
  {
    seq(|src|, i requires 0 <= i < |src| => Axis(src[i].size, dimsOut[i]))
  }

  /** Cumulative metadata: offsets add, binnings multiply, reversals toggle. */
  function OutDim(src: Dim, d: Dim): (r: Dim)
  {
    Dim(Out(d), src.offset + d.offset, src.binning * Bin(d), d.reverse != src.reverse)
  }

  /** The output dimensions, or why there are none. */
  method OutputDims(src: Layout, dimsOut: seq<Dim>) returns (r: Result<seq<Dim>, ConvertError>)
    ensures r.Ok? <==> Accepts(src, dimsOut)
    ensures r.Err? ==> r.error == if src.compressed then UnsupportedConversion else InvalidDimensions
    ensures r.Ok? ==> |r.value| == |dimsOut|
    ensures r.Ok? ==> forall i :: 0 <= i < |dimsOut| ==> r.value[i] == OutDim(src.dims[i], dimsOut[i])
  {
    if src.compressed {
      return Err(UnsupportedConversion);
    }
    if |dimsOut| != |src.dims| {
      return Err(InvalidDimensions);
    }
    for i := 0 to |dimsOut|
      invariant forall j :: 0 <= j < i ==> Fits(Axis(src.dims[j].size, dimsOut[j]))
    {
      var d := dimsOut[i];
      if d.size == 0 || d.size / Bin(d) == 0 || d.offset + d.size > src.dims[i].size {
        assert !Fits(Axis(src.dims[i].size, d));
        return Err(InvalidDimensions);
      }
    }
    var dims := [];
    for i := 0 to |dimsOut|
      invariant |dims| == i
      invariant forall j :: 0 <= j < i ==> dims[j] == OutDim(src.dims[j], dimsOut[j])
    {
      dims := dims + [OutDim(src.dims[i], dimsOut[i])];
    }
    return Ok(dims);
  }

  /** Source and output strides: the elements below each dimension. */
  method Strides(xs: seq<Axis>) returns (src: seq<nat>, out: seq<nat>)
    requires |xs| > 0
    ensures |src| == |out| == |xs|
    ensures forall i :: 0 <= i < |xs| ==> src[i] == Total(xs[..i]) && out[i] == Count(xs[..i])
  {
    hide Out;
    assert xs[..0] == [];
    src, out := [1], [1];
    for i := 1 to |xs|
      invariant |src| == |out| == i
      invariant forall j :: 0 <= j < i ==> src[j] == Total(xs[..j]) && out[j] == Count(xs[..j])
    {
      assert xs[..i][..i - 1] == xs[..i - 1];
      src := src + [src[i - 1] * xs[i - 1].len];
      out := out + [out[i - 1] * Out(xs[i - 1].req)];
    }
  }

  /** The row index left for the first m dimensions. */
  function RowRest(xs: seq<Axis>, row: nat, m: nat): (r: nat)
    requires AllFit(xs) && 1 <= m <= |xs|
    decreases |xs| - m
  {
    if m == |xs| then row
    else
      RowsPositive(xs[..m]);
      RowRest(xs, row, m + 1) % Rows(xs[..m])
  }

  /** The output row's coordinate in dimension i, mirrored where asked. */
  function RowCoord(xs: seq<Axis>, row: nat, i: nat): (c: int)
    requires AllFit(xs) && 1 <= i < |xs|
  {
    RowsPositive(xs[..i]);
    Mirror(xs[i].req, RowRest(xs, row, i + 1) / Rows(xs[..i]))
  }

  lemma RowRestAll(xs: seq<Axis>, row: nat)
    requires |xs| > 0 && AllFit(xs)
    ensures RowRest(xs, row, |xs|) == row
  {
  }

  /** The next digit of the row index, and what it leaves. */
  lemma RowDigit(xs: seq<Axis>, row: nat, i: nat, stride: nat)
    requires AllFit(xs) && 1 <= i < |xs| && stride == Rows(xs[..i]) && stride > 0
    ensures Mirror(xs[i].req, RowRest(xs, row, i + 1) / stride) == RowCoord(xs, row, i)
    ensures RowRest(xs, row, i + 1) % stride == RowRest(xs, row, i)
  {
    hide Mirror, Rows;
  }

  /** The output row's coordinates in dimensions 1 on. */
  method RowCoords(xs: seq<Axis>, strides: seq<nat>, row: nat) returns (coords: seq<int>)
    requires |xs| > 0 && AllFit(xs)
    requires |strides| == |xs| && forall i :: 0 <= i < |xs| ==> strides[i] == Count(xs[..i])
    ensures |coords| == |xs|
    ensures forall i :: 1 <= i < |xs| ==> coords[i] == RowCoord(xs, row, i)
  {
    hide Out, Rows, Count, RowRest, RowCoord, Mirror;
    coords := seq(|xs|, _ => 0);
    RowRestAll(xs, row);
    var remaining := row;
    var i := |xs| - 1;
    while i >= 1
      invariant 0 <= i < |xs| == |coords|
      invariant remaining == RowRest(xs, row, i + 1)
      invariant forall j :: i < j < |xs| ==> coords[j] == RowCoord(xs, row, j)
    {
      var stride := RowStride(xs, strides, i);
      RowDigit(xs, row, i, stride);
      coords := coords[i := Mirror(xs[i].req, remaining / stride)];
      remaining := remaining % stride;
      i := i - 1;
    }
  }

  /** A row stride is the element stride without dimension 0. */
  method RowStride(xs: seq<Axis>, strides: seq<nat>, i: nat) returns (stride: nat)
    requires AllFit(xs) && 1 <= i < |xs|
    requires |strides| == |xs| && strides[i] == Count(xs[..i])
    ensures stride == Rows(xs[..i]) && stride > 0
  {
    hide Out, Rows, Count;
    CountIsRows(xs[..i]);
    RowsPositive(xs[..i]);
    assert xs[..i][0] == xs[0];
    DivModUnique(Rows(xs[..i]), 0, Out(xs[0].req));
    stride := strides[i] / Out(xs[0].req);
  }

  /** The flat source index of every source row binned into output row `row`. */
  method RowBases(xs: seq<Axis>, src: seq<nat>, out: seq<nat>, row: nat, binHi: nat) returns (bases: seq<int>)
    requires |xs| > 0 && AllFit(xs)
    requires |src| == |out| == |xs|
    requires forall i :: 0 <= i < |xs| ==> src[i] == Total(xs[..i]) && out[i] == Count(xs[..i])
    ensures |bases| == binHi && forall b :: 0 <= b < binHi ==> bases[b] == RowBase(xs, row, b)
  {
    hide Out, Rows, Count, Total, RowBase, RowCoord, RowRest;
    var coords := RowCoords(xs, out, row);
    bases := [];
    for b := 0 to binHi
      invariant |bases| == b
      invariant forall j :: 0 <= j < b ==> bases[j] == RowBase(xs, row, j)
    {
      var base := OneBase(xs, src, coords, row, b);
      bases := bases + [base];
    }
  }

  /** The flat source index of source row b. */
  method OneBase(xs: seq<Axis>, src: seq<nat>, coords: seq<int>, ghost row: nat, b: nat) returns (flat: int)
    requires |xs| > 0 && AllFit(xs)
    requires |src| == |coords| == |xs|
    requires forall i :: 0 <= i < |xs| ==> src[i] == Total(xs[..i])
    requires forall i :: 1 <= i < |xs| ==> coords[i] == RowCoord(xs, row, i)
    ensures flat == RowBase(xs, row, b)
  {
    hide Out, Rows, Count, Total, RowBase;
    flat := xs[0].req.offset;
    var br := b;
    var i := |xs| - 1;
    assert xs[..|xs|] == xs;
    while i >= 1
      invariant 0 <= i < |xs| && br >= 0
      invariant flat + RowBase(xs[..i + 1], RowRest(xs, row, i + 1), br) - xs[0].req.offset == RowBase(xs, row, b)
    {
      var bin := Bin(xs[i].req);
      RowBaseStep(xs[..i + 1], RowRest(xs, row, i + 1), br);
      assert xs[..i + 1][..i] == xs[..i];
      assert coords[i] == RowCoord(xs, row, i);
      flat := flat + (xs[i].req.offset + coords[i] * bin + br % bin) * src[i];
      br := br / bin;
      i := i - 1;
    }
    RowBaseOne(xs[..1], RowRest(xs, row, 1), br);
  }

  lemma RowBaseOne(xs: seq<Axis>, row: int, b: int)
    requires |xs| == 1
    ensures RowBase(xs, row, b) == xs[0].req.offset
  {
  }

  lemma RowBaseStep(xs: seq<Axis>, row: int, b: int)
    requires |xs| > 1 && AllFit(xs)
    ensures var n := |xs| - 1; var d := xs[n].req;
      && Rows(xs[..n]) > 0
      && RowBase(xs, row, b)
         == RowBase(xs[..n], row % Rows(xs[..n]), b / Bin(d))
            + (d.offset + Mirror(d, row / Rows(xs[..n])) * Bin(d) + b % Bin(d)) * Total(xs[..n])
  {
    RowsPositive(xs[..|xs| - 1]);
  }

  /** Every source row lies within the source. */
  lemma {:induction false} RowBaseInside(xs: seq<Axis>, row: int, b: int)
    requires |xs| > 0 && AllFit(xs) && 0 <= row < Rows(xs) && 0 <= b
    ensures 0 <= RowBase(xs, row, b)
    ensures RowBase(xs, row, b) + Out(xs[0].req) * Bin(xs[0].req) <= Total(xs)
    decreases |xs|
  {
    hide Out, Coord;
    if |xs| == 1 {
      assert xs[..0] == [];
    } else {
      var n := |xs| - 1;
      var p, d := Rows(xs[..n]), xs[n].req;
      RowsPositive(xs[..n]);
      Digits(row, p, Out(d));
      RowBaseInside(xs[..n], row % p, b / Bin(d));
      CoordInside(xs[n], row / p, b % Bin(d));
      SlabInside(Coord(d, row / p, b % Bin(d)), Total(xs[..n]), xs[n].len);
    }
  }

  /** Row `row` of the output before the reversal, with the first m source rows added. */
  ghost function PartialRow(t: IntType, v: seq<int>, bin: nat, bases: seq<int>, n: nat, m: nat): (r: seq<int>)
    requires m <= |bases|
    ensures |r| == n
  {
    seq(n, i => Wrap(t, Sum(m, b => if 0 <= b < |bases| then RowWindow(At(v), bin, bases[b], i) else 0)))
  }

  /** A bucket of a source row is the column's window. */
  lemma BucketIsWindow(v: seq<int>, base: int, n: nat, bin: nat, i: int)
    requires 0 <= base && base + n * bin <= |v| && 0 <= i < n
    ensures SumOf(Bucket(v[base..base + n * bin], bin, i)) == RowWindow(At(v), bin, base, i)
  {
    hide Sum, SumOf, At;
    var width := n * bin;
    BucketInside(v[base..base + width], bin, i, n);
    SliceWindow(v, base, width, i * bin, bin);
    SumCongr(bin, w => At(v)(base + (i * bin) + w), w => At(v)(base + i * bin + w));
  }

  lemma SliceWindow(v: seq<int>, base: nat, width: nat, at: nat, bin: nat)
    requires base + width <= |v| && at + bin <= width
    ensures SumOf(v[base..base + width][at..at + bin]) == Sum(bin, w => At(v)(base + at + w))
  {
    hide Sum, SumOf, At;
    SliceOfSlice(v, base, base + width, at, at + bin);
    SumOfSlice(v, base + at, bin);
    SumCongr(bin, w => At(v)((base + at) + w), w => At(v)(base + at + w));
  }

  lemma {:induction false} SumOfSlice(v: seq<int>, lo: nat, k: nat)
    requires lo + k <= |v|
    ensures SumOf(v[lo..lo + k]) == Sum(k, w => At(v)(lo + w))
  {
    var f := (w: int) => At(v)(lo + w);
    SumCongr(k, f, w => At(v)(lo + w));
    if k > 0 {
      SumOfSlice(v, lo, k - 1);
      SumCongr(k - 1, f, w => At(v)(lo + w));
      assert v[lo..lo + k][..k - 1] == v[lo..lo + k - 1];
      assert At(v)(lo + (k - 1)) == v[lo + (k - 1)];
    }
  }

  /** Adding source row m to the accumulators. */
  lemma PartialRowNext(t: IntType, v: seq<int>, bin: nat, bases: seq<int>, n: nat, m: nat)
    requires m < |bases| && 0 <= bases[m] && bases[m] + n * bin <= |v|
    ensures Binned(t, v[bases[m]..bases[m] + n * bin], bin, PartialRow(t, v, bin, bases, n, m))
         == PartialRow(t, v, bin, bases, n, m + 1)
  {
    hide Wrap, SumOf, Bucket, RowWindow;
    var row := v[bases[m]..bases[m] + n * bin];
    forall i | 0 <= i < n
      ensures Binned(t, row, bin, PartialRow(t, v, bin, bases, n, m))[i] == PartialRow(t, v, bin, bases, n, m + 1)[i]
    {
      BucketIsWindow(v, bases[m], n, bin, i);
      var f := (b: int) => if 0 <= b < |bases| then RowWindow(At(v), bin, bases[b], i) else 0;
      WrapAdd(t, Sum(m, f), f(m));
      SumCongr(m, f, b => if 0 <= b < |bases| then RowWindow(At(v), bin, bases[b], i) else 0);
      SumCongr(m + 1, f, b => if 0 <= b < |bases| then RowWindow(At(v), bin, bases[b], i) else 0);
    }
  }

  function Reversed(s: seq<int>): (r: seq<int>)
    ensures |r| == |s| && forall i :: 0 <= i < |s| ==> r[i] == s[|s| - 1 - i]
  {
    seq(|s|, i requires 0 <= i < |s| => s[|s| - 1 - i])
  }

  lemma ReversedRun(was: seq<int>, now: seq<int>, at: nat, n: nat)
    requires at + n <= |was| == |now|
    requires forall k :: at <= k < at + n ==> now[k] == was[at + at + n - 1 - k]
    requires forall k :: 0 <= k < at || at + n <= k < |was| ==> now[k] == was[k]
    ensures now == Splice(was, at, Reversed(was[at..at + n]))
  {
    var r := Reversed(was[at..at + n]);
    forall k | 0 <= k < |was|
      ensures now[k] == Splice(was, at, r)[k]
    {
      if at <= k < at + n {
        assert Splice(was, at, r)[k] == r[k - at] == was[at..at + n][n - 1 - (k - at)] == was[at + at + n - 1 - k];
      } else if k < at {
        assert Splice(was, at, r)[k] == was[..at][k];
      } else {
        assert Splice(was, at, r)[k] == was[at + n..][k - (at + n)];
      }
    }
  }

  /** The run of n at `at` reversed in place. */
  method ReverseRun(out: array<int>, at: nat, n: nat)
    requires at + n <= out.Length
    modifies out
    ensures out[..] == Splice(old(out[..]), at, Reversed(old(out[..])[at..at + n]))
  {
    hide Splice, Reversed;
    var i := 0;
    while i < n / 2
      invariant 0 <= i <= n / 2
      invariant forall k :: 0 <= k < out.Length ==>
        out[k] == if at <= k < at + i || at + n - i <= k < at + n then old(out[at + at + n - 1 - k]) else old(out[k])
    {
      out[at + i], out[at + n - 1 - i] := out[at + n - 1 - i], out[at + i];
      i := i + 1;
    }
    ReversedRun(old(out[..]), out[..], at, n);
  }

  /** The source rows can be read: each a row's width from its base. */
  ghost predicate Readable(src: Source, bases: seq<int>, width: int)
  {
    forall b :: 0 <= b < |bases| ==> 0 <= bases[b] && bases[b] + width <= src.Len()
  }

  lemma SliceFits(t: IntType, m: Vectors, src: Source, bin: nat, base: int, len: nat, at: nat, n: nat)
    requires Suits(t, m, src) && bin > 0 && at + n <= len && 0 <= base && base + n * bin <= src.Len()
    ensures n * bin >= 0 && RowFits(t, m, src.Slice(base, base + n * bin), bin, len, at, n)
  {
    hide Suits;
    SuitsSlice(t, m, src, base, base + n * bin);
  }

  /** The source rows at `bases`, cast, binned and summed into the output row at `at`. */
  method SumRows(t: IntType, m: Vectors, src: Source, bin: nat, bases: seq<int>, out: array<int>, at: nat, n: nat)
    requires Suits(t, m, src) && bin > 0 && at + n <= out.Length && Readable(src, bases, n * bin)
    modifies out
    ensures out[..] == Splice(old(out[..]), at, PartialRow(t, src.Values(), bin, bases, n, |bases|))
  {
    hide Splice, Wrap, Binned, PartialRow, Suits, RowFits, Source.Slice, Source.Values;
    ghost var v := src.Values();
    var zeros := seq(n, _ => 0);
    Store(zeros, out, at);
    EmptyRow(t, v, bin, bases, n);
    for b := 0 to |bases|
      invariant |PartialRow(t, v, bin, bases, n, b)| == n
      invariant out[..] == Splice(old(out[..]), at, PartialRow(t, v, bin, bases, n, b))
    {
      SpliceAgain(old(out[..]), at, PartialRow(t, v, bin, bases, n, b));
      PartialRowNext(t, v, bin, bases, n, b);
      SliceFits(t, m, src, bin, bases[b], out.Length, at, n);
      BinRow(t, m, src.Slice(bases[b], bases[b] + n * bin), bin, out, at, n);
      SpliceOver(old(out[..]), at, PartialRow(t, v, bin, bases, n, b), PartialRow(t, v, bin, bases, n, b + 1));
    }
  }

  /** The source rows at `bases` into the output row at `at`, by cast alone where nothing is binned, then mirrored. */
  method ConvertRow(t: IntType, m: Vectors, src: Source, d: Dim, bases: seq<int>, out: array<int>, at: nat)
    requires Suits(t, m, src) && |bases| > 0 && at + Out(d) <= out.Length && Readable(src, bases, Out(d) * Bin(d))
    modifies out
    ensures var row := PartialRow(t, src.Values(), Bin(d), bases, Out(d), |bases|);
      out[..] == Splice(old(out[..]), at, if d.reverse then Reversed(row) else row)
  {
    hide Out, Splice, Wrap, Binned, PartialRow, Reversed, Suits;
    var bin, n := Bin(d), Out(d);
    ghost var v := src.Values();
    ghost var row := PartialRow(t, v, bin, bases, n, |bases|);
    assert |row| == n;
    if bin == 1 && |bases| == 1 {
      SuitsSlice(t, m, src, bases[0], bases[0] + n);
      var cast := Cast(t, m, src.Slice(bases[0], bases[0] + n));
      UnbinnedRow(t, v, bases, n);
      Store(cast, out, at);
    } else {
      SumRows(t, m, src, bin, bases, out, at, n);
    }
    if d.reverse {
      SpliceAgain(old(out[..]), at, row);
      ReverseRun(out, at, n);
      SpliceOver(old(out[..]), at, row, Reversed(row));
    }
  }

  /** A run just written reads back. */
  lemma SpliceAgain(s: seq<int>, at: nat, r: seq<int>)
    requires at + |r| <= |s|
    ensures Splice(s, at, r)[at..at + |r|] == r
  {
  }

  /** Writing a run of the same length over a run. */
  lemma SpliceOver(s: seq<int>, at: nat, a: seq<int>, b: seq<int>)
    requires at + |a| <= |s| && |a| == |b|
    ensures Splice(Splice(s, at, a), at, b) == Splice(s, at, b)
  {
  }

  lemma EmptyRow(t: IntType, v: seq<int>, bin: nat, bases: seq<int>, n: nat)
    ensures PartialRow(t, v, bin, bases, n, 0) == seq(n, _ => 0)
  {
    WrapInRange(t, 0) by { assert InRange(t, 0); }
  }

  /** Without binning a row is its one source row, cast. */
  lemma UnbinnedRow(t: IntType, v: seq<int>, bases: seq<int>, n: nat)
    requires |bases| == 1 && 0 <= bases[0] && bases[0] + n <= |v|
    ensures CastAll(t, v[bases[0]..bases[0] + n]) == PartialRow(t, v, 1, bases, n, 1)
  {
    hide Wrap;
    forall i | 0 <= i < n
      ensures PartialRow(t, v, 1, bases, n, 1)[i] == Wrap(t, v[bases[0] + i])
    {
      var f := (b: int) => if 0 <= b < |bases| then RowWindow(At(v), 1, bases[b], i) else 0;
      assert Sum(1, f) == f(0);
      var g := (w: int) => At(v)(bases[0] + i * 1 + w);
      assert Sum(1, g) == g(0) == v[bases[0] + i];
    }
  }

  /** An element of a finished row is an element of the specification. */
  lemma RowElement(t: IntType, v: seq<int>, xs: seq<Axis>, row: int, bases: seq<int>, j: int)
    requires |xs| > 0 && AllFit(xs) && 0 <= row < Rows(xs) && 0 <= j < Out(xs[0].req)
    requires |bases| == BinHi(xs) && forall b :: 0 <= b < |bases| ==> bases[b] == RowBase(xs, row, b)
    ensures var d := xs[0].req; var n := Out(d);
      && 0 <= Mirror(d, j) < n
      && PartialRow(t, v, Bin(d), bases, n, |bases|)[Mirror(d, j)] == Wrap(t, Pixel(At(v), xs, row * n + j, 0))
  {
    hide Wrap, Out, RowWindow, RowBase, Pixel, BinHi, Count, Rows, Sum, At;
    var d := xs[0].req;
    RowSumIsPixel(At(v), xs, row, j, 0);
    SumCongr(|bases|,
      b => if 0 <= b < |bases| then RowWindow(At(v), Bin(d), bases[b], Mirror(d, j)) else 0,
      b => RowWindow(At(v), Bin(xs[0].req), 0 + RowBase(xs, row, b), Mirror(d, j)));
  }

  lemma RowInside(xs: seq<Axis>, row: int)
    requires |xs| > 0 && 0 <= row < Rows(xs)
    ensures var n := Out(xs[0].req); 0 <= row * n && row * n + n <= Count(xs)
  {
    hide Out, Count, Rows;
    CountIsRows(xs);
    MulNonneg(row, Out(xs[0].req));
    MulMono(row + 1, Rows(xs), Out(xs[0].req));
  }

  /** A finished row is a row of the specification. */
  lemma RowIsConverted(t: IntType, v: seq<int>, xs: seq<Axis>, row: int, bases: seq<int>)
    requires |xs| > 0 && AllFit(xs) && 0 <= row < Rows(xs)
    requires |bases| == BinHi(xs) && forall b :: 0 <= b < |bases| ==> bases[b] == RowBase(xs, row, b)
    ensures var d := xs[0].req; var n := Out(d); var r := PartialRow(t, v, Bin(d), bases, n, |bases|);
      && 0 <= row * n && row * n + n <= Count(xs)
      && (if d.reverse then Reversed(r) else r) == Converted(t, v, xs)[row * n..row * n + n]
  {
    hide Out, RowBase, BinHi, Count, Rows, PartialRow, AllFit, Converted;
    RowInside(xs, row);
    RowAt(t, v, xs, row, bases, row * Out(xs[0].req));
  }

  lemma RowAt(t: IntType, v: seq<int>, xs: seq<Axis>, row: int, bases: seq<int>, at: int)
    requires |xs| > 0 && AllFit(xs) && 0 <= row < Rows(xs)
    requires |bases| == BinHi(xs) && forall b :: 0 <= b < |bases| ==> bases[b] == RowBase(xs, row, b)
    requires at == row * Out(xs[0].req) && 0 <= at && at + Out(xs[0].req) <= Count(xs)
    ensures var d := xs[0].req; var n := Out(d); var r := PartialRow(t, v, Bin(d), bases, n, |bases|);
      && |Converted(t, v, xs)| == Count(xs)
      && (if d.reverse then Reversed(r) else r) == Converted(t, v, xs)[at..at + n]
  {
    hide Wrap, Out, RowBase, Pixel, BinHi, Count, Rows, PartialRow, AllFit, Converted, Bin;
    var d := xs[0].req;
    var r := PartialRow(t, v, Bin(d), bases, Out(d), |bases|);
    var got := if d.reverse then Reversed(r) else r;
    ConvertedAt(t, v, xs, at);
    forall j | 0 <= j < |got|
      ensures got[j] == Converted(t, v, xs)[at + j]
    {
      RowElement(t, v, xs, row, bases, j);
      assert got[j] == r[Mirror(d, j)];
      ConvertedAt(t, v, xs, at + j);
    }
    SliceIs(Converted(t, v, xs), at, got);
  }

  lemma ConvertedAt(t: IntType, v: seq<int>, xs: seq<Axis>, k: int)
    ensures |Converted(t, v, xs)| == Count(xs)
    ensures 0 <= k < Count(xs) ==> Converted(t, v, xs)[k] == Wrap(t, Pixel(At(v), xs, k, 0))
  {
    hide Wrap, Pixel, Count;
  }

  lemma SliceIs(s: seq<int>, at: nat, r: seq<int>)
    requires at + |r| <= |s| && forall j :: 0 <= j < |r| ==> r[j] == s[at + j]
    ensures r == s[at..at + |r|]
  {
  }

  /** The number of source rows in an output row's window. */
  method WindowRows(xs: seq<Axis>) returns (n: nat)
    requires |xs| > 0
    ensures n == BinHi(xs)
  {
    n := 1;
    for i := 1 to |xs|
      invariant n == BinHi(xs[..i])
    {
      assert xs[..i + 1][..i] == xs[..i];
      MulPositive(n, Bin(xs[i].req));
      n := n * Bin(xs[i].req);
    }
    assert xs[..|xs|] == xs;
  }

  /** Every output element, row by row. */
  method ConvertInto(t: IntType, m: Vectors, source: Source, xs: seq<Axis>, out: array<int>)
    requires Suits(t, m, source) && |xs| > 0 && AllFit(xs) && source.Len() >= Total(xs)
    requires out.Length == Count(xs)
    modifies out
    ensures out[..] == Converted(t, source.Values(), xs)
  {
    hide Out, Wrap, Rows, RowBase, Count, Total, Splice, PartialRow, Reversed, BinHi, Converted, Suits;
    ghost var v := source.Values();
    var d := xs[0].req;
    var n := Out(d);
    ghost var want := Converted(t, v, xs);
    ConvertedAt(t, v, xs, 0);
    var src, outs := Strides(xs);
    var binHi := WindowRows(xs);
    CountIsRows(xs);
    var rows := out.Length / n;
    DivModUnique(Rows(xs), 0, n);
    SpliceNothing(out[..], 0);
    assert want[..0 * n] == [];
    for row := 0 to rows
      invariant 0 <= row * n <= |want| == out.Length
      invariant out[..] == Splice(old(out[..]), 0, want[..row * n])
    {
      var bases := RowBases(xs, src, outs, row, binHi);
      forall b | 0 <= b < |bases|
        ensures 0 <= bases[b] && bases[b] + n * Bin(d) <= |v|
      {
        RowBaseInside(xs, row, b);
      }
      RowIsConverted(t, v, xs, row, bases);
      ConvertRow(t, m, source, d, bases, out, row * n);
      SpliceNext(old(out[..]), 0, want[..row * n], want[row * n..row * n + n]);
      NextSlice(want, row * n, n);
      assert (row + 1) * n == row * n + n;
    }
    assert want[..rows * n] == want;
    SpliceAll(old(out[..]), want);
  }

  lemma NextSlice(s: seq<int>, at: nat, n: nat)
    requires at + n <= |s|
    ensures s[..at] + s[at..at + n] == s[..at + n]
  {
  }

  lemma SpliceAll(s: seq<int>, r: seq<int>)
    requires |s| == |r|
    ensures Splice(s, 0, r) == r
  {
  }

  /**
   Sub-region, binning, reversal and cast of a whole array: refused exactly when the
   request does not fit the source, otherwise the specified array with its dimensions.
   */
  method ConvertDims(t: IntType, m: Vectors, src: Layout, source: Source, dimsOut: seq<Dim>)
    returns (r: Result<(seq<Dim>, seq<int>), ConvertError>)
    requires Suits(t, m, source) && |src.dims| > 0
    requires source.Len() >= Total(Axes(src.dims, src.dims))
    ensures r.Ok? <==> Accepts(src, dimsOut)
    ensures r.Err? ==> r.error == if src.compressed then UnsupportedConversion else InvalidDimensions
    ensures r.Ok? ==> |r.value.0| == |dimsOut|
    ensures r.Ok? ==> forall i :: 0 <= i < |dimsOut| ==> r.value.0[i] == OutDim(src.dims[i], dimsOut[i])
    ensures r.Ok? ==> r.value.1 == Converted(t, source.Values(), Axes(src.dims, dimsOut))
  {
    hide Out, Converted, Fits, Suits;
    var dims := OutputDims(src, dimsOut);
    if dims.Err? {
      return Err(dims.error);
    }
    var xs := Axes(src.dims, dimsOut);
    TotalOfLengths(Axes(src.dims, src.dims), xs);
    var out := new int[Count(xs)];
    ConvertInto(t, m, source, xs, out);
    return Ok((dims.value, out[..]));
  }

  lemma {:induction false} TotalOfLengths(xs: seq<Axis>, ys: seq<Axis>)
    requires |xs| == |ys| && forall i :: 0 <= i < |xs| ==> xs[i].len == ys[i].len
    ensures Total(xs) == Total(ys)
  {
    if |xs| > 0 {
      TotalOfLengths(xs[..|xs| - 1], ys[..|xs| - 1]);
    }
  }
}
