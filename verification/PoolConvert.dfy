/** Conversions whose output is allocated from the pool: never cut short, and refused only as any allocation is. */
module PoolConvert {
  import opened Wrappers
  import opened Arith
  import opened ElementTypes
  import opened ConvertSpec
  import opened BinKernels
  import opened SourceRows
  import opened Convert
  import opened FreeList
  import opened DataBuffer
  import opened Elements
  import opened Pool
  import opened PoolClass

  /** Why there is no output: the request, or the pool. */
  datatype Failure = BadRequest(request: ConvertError) | NoRoom(pool: PoolError)

  /** The bytes of `count` elements. */
  function SizeOf(d: DataType, count: nat): (n: nat)
    ensures n % ElementSize(d) == 0
  {
    DivModUnique(count, 0, ElementSize(d));
    count * ElementSize(d)
  }

  /** An allocation of `count` elements can be resized to that count. */
  lemma RoomForAll(p: PoolState, d: DataType, count: nat)
    requires Inv(p)
    ensures var r := Pool.Alloc(p, d, SizeOf(d, count)).1;
      r.Ok? ==>
        && r.value.data.Valid() && r.value.data.dataType == d
        && r.value.data.len == count && Allowed(r.value.data, count) == count
  {
    hide Pool.Alloc, Inv;
    var e := ElementSize(d);
    AllocHolds(p, d, count * e);
    var r := Pool.Alloc(p, d, count * e).1;
    if r.Ok? {
      DivModUnique(count, 0, e);
      DivModUnique(r.value.data.len, 0, e);
      DivMono(count * e, r.value.dataSize, e);
    }
  }

  /** The last array handed out, its buffer refilled, is in order. */
  lemma RefilledInv(p: PoolState, h: Held, data: Buffer)
    requires Inv(p) && |p.live| > 0 && p.live[|p.live| - 1] == h && Charged(data, h.arr.dataSize)
    ensures var n := |p.live| - 1;
      Inv(p.(live := p.live[n := Held(NDArray(data, h.arr.dataSize), h.requested)]))
  {
    hide SumSizes, LiveBytes, Charged, Counters.Count;
    assert InOrder(h);
    LiveUpdate(p.live, |p.live| - 1, Held(NDArray(data, h.arr.dataSize), h.requested));
  }

  /** The output array for `count` elements. */
  method Output(pool: NDArrayPool, d: DataType, count: nat) returns (r: Result<NDArray, PoolError>)
    requires Inv(pool.State())
    modifies pool
    ensures Inv(pool.State())
    ensures r.Ok? <==> pool.maxMemory == 0 || LiveBytes(old(pool.live)) + SizeOf(d, count) <= pool.maxMemory
    ensures r.Err? ==> r.error == PoolExhausted && pool.live == old(pool.live)
    ensures r.Ok? ==> pool.live == old(pool.live) + [Held(r.value, SizeOf(d, count))]
    ensures r.Ok? ==> Charged(r.value.data, r.value.dataSize) && r.value.data.dataType == d
    ensures r.Ok? ==> Allowed(r.value.data, count) == count
  {
    hide Inv, Pool.Alloc, LiveBytes, SizeOf;
    var size := SizeOf(d, count);
    ghost var p := pool.State();
    AllocIff(p, d, size);
    r := pool.Alloc(d, size);
    RoomForAll(p, d, count);
    AllocHolds(p, d, size);
  }

  /** The buffer resized to all of v and filled with it. */
  method Filling(b: Buffer, d: DataType, v: seq<int>) returns (r: Buffer)
    requires b.Valid() && b.dataType == d && IsInt(d) && Allowed(b, |v|) == |v|
    ensures r.Valid() && r.dataType == d && r.charge == b.charge && ElementsOf(r) == CastAll(IntTypeOf(d), v)
  {
    hide Wrap, EncodeAll, ElementsOf;
    ResizeContents(b, |v|);
    var s := Resized(b, |v|);
    WrittenElements(s, v);
    r := Written(s, EncodeAll(ElementSize(d), v));
  }

  /** The array just handed out, filled with v. */
  method Finish(pool: NDArrayPool, a: NDArray, ghost size: nat, d: DataType, v: seq<int>) returns (arr: NDArray)
    requires Inv(pool.State()) && IsInt(d) && |pool.live| > 0 && pool.live[|pool.live| - 1] == Held(a, size)
    requires Charged(a.data, a.dataSize) && a.data.dataType == d && Allowed(a.data, |v|) == |v|
    modifies pool`live
    ensures Inv(pool.State()) && pool.live == old(pool.live)[..|old(pool.live)| - 1] + [Held(arr, size)]
    ensures arr.data.Valid() && arr.data.dataType == d && ElementsOf(arr.data) == CastAll(IntTypeOf(d), v)
  {
    hide Inv, Wrap, ElementsOf;
    var data := Filling(a.data, d, v);
    arr := NDArray(data, a.dataSize);
    RefilledInv(pool.State(), Held(a, size), data);
    pool.live := pool.live[|pool.live| - 1 := Held(arr, size)];
  }

  /** The elements dimensions say. */
  method Product(dims: seq<Dim>, ghost xs: seq<Axis>) returns (n: nat)
    requires |dims| == |xs| && forall i :: 0 <= i < |dims| ==> dims[i].size == Out(xs[i].req)
    ensures n == Count(xs)
  {
    hide Out;
    n := 1;
    for i := 0 to |dims|
      invariant n == Count(xs[..i])
    {
      assert xs[..i + 1][..i] == xs[..i];
      n := n * dims[i].size;
    }
    assert xs[..|xs|] == xs;
  }

  /**
   A conversion through the pool: refused for the request exactly as the conversion is,
   else for room exactly as an allocation of the output is, else an array of the pool's
   that holds all of the specified output.
   */
  method ConvertPooled(pool: NDArrayPool, d: DataType, m: Vectors, src: Layout, source: Source, dimsOut: seq<Dim>)
    returns (r: Result<(seq<Dim>, NDArray), Failure>)
    requires Inv(pool.State()) && IsInt(d) && Suits(IntTypeOf(d), m, source) && |src.dims| > 0
    requires source.Len() >= Total(Axes(src.dims, src.dims))
    modifies pool
    ensures Inv(pool.State())
    ensures !Accepts(src, dimsOut) ==>
      && r == Err(BadRequest(if src.compressed then UnsupportedConversion else ConvertError.InvalidDimensions))
      && pool.State() == old(pool.State())
    ensures Accepts(src, dimsOut) ==>
      var size := SizeOf(d, Count(Axes(src.dims, dimsOut)));
      && (r.Ok? <==> pool.maxMemory == 0 || LiveBytes(old(pool.live)) + size <= pool.maxMemory)
      && (r.Err? ==> r.error == NoRoom(PoolExhausted) && pool.live == old(pool.live))
      && (r.Ok? ==>
            && |r.value.0| == |dimsOut|
            && (forall i :: 0 <= i < |dimsOut| ==> r.value.0[i] == OutDim(src.dims[i], dimsOut[i]))
            && pool.live == old(pool.live) + [Held(r.value.1, size)]
            && r.value.1.data.Valid() && r.value.1.data.dataType == d
            && ElementsOf(r.value.1.data) == Converted(IntTypeOf(d), source.Values(), Axes(src.dims, dimsOut)))
  {
    hide Inv, Suits, SizeOf, Converted, Count, Total, ElementsOf, LiveBytes, Wrap, Out, Charged, Fits;
    var dims := OutputDims(src, dimsOut);
    if dims.Err? {
      return Err(BadRequest(dims.error));
    }
    var xs := Axes(src.dims, dimsOut);
    TotalOfLengths(Axes(src.dims, src.dims), xs);
    ConvertedInRange(IntTypeOf(d), source.Values(), xs);
    var count := Product(dims.value, xs);
    var got := Output(pool, d, count);
    if got.Err? {
      return Err(NoRoom(got.error));
    }
    var out := new int[count];
    ConvertInto(IntTypeOf(d), m, source, xs, out);
    var arr := Finish(pool, got.value, SizeOf(d, count), d, out[..]);
    return Ok((dims.value, arr));
  }

  /**
   A change of element type through the pool: the cast of every element, as many as the
   output's charge holds, which is all of a source no longer than its dimensions say.
   */
  method ConvertType(pool: NDArrayPool, d: DataType, m: Vectors, src: Layout, source: Source)
    returns (r: Result<NDArray, Failure>)
    requires Inv(pool.State()) && IsInt(d) && Suits(IntTypeOf(d), m, source)
    modifies pool
    ensures Inv(pool.State())
    ensures src.compressed ==> r == Err(BadRequest(UnsupportedConversion)) && pool.State() == old(pool.State())
    ensures !src.compressed ==>
      var count := Total(Axes(src.dims, src.dims));
      && (r.Ok? <==> pool.maxMemory == 0 || LiveBytes(old(pool.live)) + SizeOf(d, count) <= pool.maxMemory)
      && (r.Err? ==> r.error == NoRoom(PoolExhausted) && pool.live == old(pool.live))
      && (r.Ok? ==>
            && pool.live == old(pool.live) + [Held(r.value, SizeOf(d, count))]
            && r.value.data.Valid() && r.value.data.dataType == d
            && r.value.data.len <= source.Len()
            && (source.Len() <= count ==> r.value.data.len == source.Len())
            && ElementsOf(r.value.data) == CastAll(IntTypeOf(d), source.Values()[..r.value.data.len]))
  {
    hide Inv, Suits, SizeOf, Total, ElementsOf, LiveBytes, Wrap, Charged;
    if src.compressed {
      return Err(BadRequest(UnsupportedConversion));
    }
    var count := OwnProduct(src.dims);
    var got := Output(pool, d, count);
    if got.Err? {
      return Err(NoRoom(got.error));
    }
    var n := Allowed(got.value.data, source.Len());
    AllowedAgain(got.value.data, source.Len(), count);
    SuitsSlice(IntTypeOf(d), m, source, 0, n);
    var cast := Cast(IntTypeOf(d), m, source.Slice(0, n));
    var arr := Finish(pool, got.value, SizeOf(d, count), d, cast);
    CastTwice(IntTypeOf(d), source.Values()[..n]);
    assert source.Values()[0..n] == source.Values()[..n];
    return Ok(arr);
  }

  /** What the charge allows it allows again. */
  lemma AllowedAgain(b: Buffer, len: nat, count: nat)
    requires Allowed(b, count) == count
    ensures Allowed(b, Allowed(b, len)) == Allowed(b, len) && (len <= count ==> Allowed(b, len) == len)
  {
  }

  lemma CastTwice(t: IntType, v: seq<int>)
    ensures CastAll(t, CastAll(t, v)) == CastAll(t, v)
  {
    hide Wrap;
    forall i | 0 <= i < |v|
      ensures Wrap(t, Wrap(t, v[i])) == Wrap(t, v[i])
    {
      WrapTwice(t, v[i]);
    }
  }

  /** The elements an array's own dimensions say. */
  method OwnProduct(dims: seq<Dim>) returns (n: nat)
    ensures n == Total(Axes(dims, dims))
  {
    var xs := Axes(dims, dims);
    n := 1;
    for i := 0 to |dims|
      invariant n == Total(xs[..i])
    {
      assert xs[..i + 1][..i] == xs[..i];
      n := n * dims[i].size;
    }
    assert xs[..|xs|] == xs;
  }

  /** Converted elements are of the type already. */
  lemma ConvertedInRange(t: IntType, v: seq<int>, xs: seq<Axis>)
    ensures |Converted(t, v, xs)| == Count(xs)
    ensures CastAll(t, Converted(t, v, xs)) == Converted(t, v, xs)
  {
    hide Wrap, Pixel, Count;
    var c := Converted(t, v, xs);
    forall i | 0 <= i < |c|
      ensures Wrap(t, c[i]) == c[i]
    {
      assert c[i] == Wrap(t, Pixel(At(v), xs, i, 0));
      WrapTwice(t, Pixel(At(v), xs, i, 0));
    }
  }

  lemma WrapTwice(t: IntType, x: int)
    ensures Wrap(t, Wrap(t, x)) == Wrap(t, x)
  {
    WrapInRange(t, Wrap(t, x));
  }
}
