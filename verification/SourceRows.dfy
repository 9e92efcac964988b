/**
 Source rows of any kind into the target type: cast, or cast and added into
 accumulators, by the path the source's kind and the bin width take.
 */
module SourceRows {
  import opened Arith
  import opened ElementTypes
  import opened BinKernels
  import opened FloatCast

  /** Source elements: of the target's own type, of another integer type, or floats. */
  datatype Source = Own(ints: seq<int>) | Ints(ints: seq<int>) | Floats(floats: seq<Float>)
  {
    /** The integers the elements are before they are reduced to the target type. */
    function Values(): (v: seq<int>)
      ensures |v| == Len()
    {
      if Floats? then seq(|floats|, i requires 0 <= i < |floats| => ToI128(floats[i])) else ints
    }

    function Len(): (n: nat)
    {
      if Floats? then |floats| else |ints|
    }

    function Slice(lo: nat, hi: nat): (s: Source)
      requires lo <= hi <= Len()
      ensures s.Values() == Values()[lo..hi] && (s.Own? <==> Own?) && (s.Floats? <==> Floats?)
    {
      match this
      case Own(v) => Own(v[lo..hi])
      case Ints(v) => Ints(v[lo..hi])
      case Floats(v) => Floats(v[lo..hi])
    }
  }

  /** The vectors: lanes of the target type, lanes of f64, and 2^depth of the latter to one of the former. */
  datatype Vectors = Vectors(lanes: nat, wide: nat, depth: nat)

  /** The source's kind agrees with the target type and the vectors with its width. */
  ghost predicate Suits(t: IntType, m: Vectors, src: Source)
  {
    && m.lanes > 0 && m.wide > 0
    && (src.Own? ==> forall i :: 0 <= i < |src.ints| ==> InRange(t, src.ints[i]))
    && (src.Floats? ==> t.bits * Pow2(m.depth) == 64)
  }

  lemma SuitsSlice(t: IntType, m: Vectors, src: Source, lo: nat, hi: nat)
    requires Suits(t, m, src) && lo <= hi <= src.Len()
    ensures Suits(t, m, src.Slice(lo, hi))
  {
    hide Pow2, InRange;
  }

  /** A run of elements cast to the target type: as it is, by the C cast, or by the float kernel. */
  method Cast(t: IntType, m: Vectors, src: Source) returns (buf: seq<int>)
    requires Suits(t, m, src)
    ensures buf == CastAll(t, src.Values())
  {
    hide Wrap, ToI128, Pow2, InRange;
    match src
    case Own(v) =>
      forall i | 0 <= i < |v|
        ensures Wrap(t, v[i]) == v[i]
      {
        WrapInRange(t, v[i]);
      }
      buf := v;
    case Ints(v) =>
      buf := CastInts(t, v);
    case Floats(v) =>
      buf := CastFloats(t, m.depth, m.wide, v);
  }

  method CastInts(t: IntType, src: seq<int>) returns (buf: seq<int>)
    ensures buf == CastAll(t, src)
  {
    hide Wrap;
    buf := [];
    for i := 0 to |src|
      invariant buf == CastAll(t, src[..i])
    {
      assert CastAll(t, src[..i + 1]) == CastAll(t, src[..i]) + [Wrap(t, src[i])];
      buf := buf + [Wrap(t, src[i])];
    }
    assert src[..|src|] == src;
  }

  /** Room for a row of n accumulators at `at` and the source elements that go into them. */
  ghost predicate RowFits(t: IntType, m: Vectors, src: Source, bin: nat, len: nat, at: nat, n: nat)
  {
    Suits(t, m, src) && bin > 0 && at + n <= len && src.Len() == n * bin
  }

  const CHUNK: nat := 1024

  /** One chunk: cast, then added natively. */
  method BinCast(t: IntType, m: Vectors, src: Source, bin: nat, acc: array<int>, at: nat, n: nat)
    requires RowFits(t, m, src, bin, acc.Length, at, n)
    modifies acc
    ensures acc[..] == Splice(old(acc[..]), at, Binned(t, src.Values(), bin, old(acc[..])[at..at + n]))
  {
    hide Wrap, SumOf, Bucket, Binned, Splice, Pow2, InRange;
    var buf := Cast(t, m, src);
    BinnedCast(t, src.Values(), bin, acc[..][at..at + n]);
    BinNative(t, buf, bin, m.lanes, acc, at, n);
  }

  /** The row through cast chunks of `step` bins each. */
  method BinChunks(t: IntType, m: Vectors, src: Source, bin: nat, step: nat, acc: array<int>, at: nat, n: nat)
    requires RowFits(t, m, src, bin, acc.Length, at, n) && step > 0
    modifies acc
    ensures acc[..] == Splice(old(acc[..]), at, Binned(t, src.Values(), bin, old(acc[..])[at..at + n]))
  {
    hide Wrap, SumOf, Bucket, Binned, Splice, Suits;
    ghost var v := src.Values();
    ghost var want := Binned(t, v, bin, acc[..][at..at + n]);
    var i := 0;
    assert want[..0] == [];
    SpliceNothing(acc[..], at);
    while i < n
      invariant 0 <= i <= n && |want| == n
      invariant acc[..] == Splice(old(acc[..]), at, want[..i])
    {
      var k := if i + step <= n then i + step else n;
      RunPiece(t, v, bin, old(acc[..]), at, n, i, k);
      SuitsSlice(t, m, src, i * bin, k * bin);
      BinCast(t, m, src.Slice(i * bin, k * bin), bin, acc, at + i, k - i);
      i := k;
    }
    assert want[..n] == want;
  }

  /** The row through cast chunks: a run of whole bins is cast, then added natively. */
  method BinRowChunked(t: IntType, m: Vectors, src: Source, bin: nat, acc: array<int>, at: nat, n: nat)
    requires RowFits(t, m, src, bin, acc.Length, at, n)
    modifies acc
    ensures acc[..] == Splice(old(acc[..]), at, Binned(t, src.Values(), bin, old(acc[..])[at..at + n]))
  {
    var step := BinsPerChunk(bin);
    BinChunks(t, m, src, bin, step, acc, at, n);
  }

  /** The bins of one chunk: at least one, and no more elements than fit unless one bin is longer. */
  function BinsPerChunk(bin: nat): (k: nat)
    requires bin > 0
    ensures k >= 1 && (bin <= CHUNK ==> k * bin <= CHUNK) && (bin > CHUNK ==> k == 1)
  {
    if bin <= CHUNK then
      assert CHUNK / bin >= 1 by { Digits(CHUNK - bin, bin, CHUNK); ModShift(CHUNK - bin, 1, bin); }
      CHUNK / bin
    else 1
  }

  /**
   The source row added into the accumulators: natively where it is the target's own
   type, through chunks for floats and for the widths that add on lanes, else in one
   scalar loop.
   */
  method BinRow(t: IntType, m: Vectors, src: Source, bin: nat, acc: array<int>, at: nat, n: nat)
    requires RowFits(t, m, src, bin, acc.Length, at, n)
    modifies acc
    ensures acc[..] == Splice(old(acc[..]), at, Binned(t, src.Values(), bin, old(acc[..])[at..at + n]))
  {
    hide Wrap, SumOf, Bucket, Binned, Splice, Pow2, InRange;
    match src
    case Own(v) =>
      BinNative(t, v, bin, m.lanes, acc, at, n);
    case Floats(_) =>
      BinRowChunked(t, m, src, bin, acc, at, n);
    case Ints(v) =>
      if bin == 2 || bin == 4 {
        BinRowChunked(t, m, src, bin, acc, at, n);
      } else {
        BinRowScalar(t, v, bin, acc, at, n);
      }
  }
}
