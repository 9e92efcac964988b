/**
 The row additions of the conversion: a run added into accumulators, `bin` consecutive
 elements each. The plain loop and the lane kernels compute the same row.
 */
module BinKernels {
  import opened Arith
  import opened ElementTypes

  function SumOf(s: seq<int>): (v: int)
  {
    if |s| == 0 then 0 else SumOf(s[..|s| - 1]) + s[|s| - 1]
  }

  /** The elements that go into accumulator i. */
  function Bucket(src: seq<int>, bin: nat, i: int): (b: seq<int>)
  {
    if 0 <= i * bin <= i * bin + bin <= |src| then src[i * bin..i * bin + bin] else []
  }

  /** Accumulators after adding the row: the sum of bucket i goes into accumulator i. */
  function Binned(t: IntType, src: seq<int>, bin: nat, acc: seq<int>): (r: seq<int>)
    ensures |r| == |acc|
    ensures forall i :: 0 <= i < |r| ==> r[i] == Wrap(t, acc[i] + SumOf(Bucket(src, bin, i)))
  {
    seq(|acc|, i requires 0 <= i < |acc| => Wrap(t, acc[i] + SumOf(Bucket(src, bin, i))))
  }

  function CastAll(t: IntType, src: seq<int>): (r: seq<int>)
    ensures |r| == |src| && forall i :: 0 <= i < |src| ==> r[i] == Wrap(t, src[i])
  {
    seq(|src|, i requires 0 <= i < |src| => Wrap(t, src[i]))
  }

  lemma BucketInside(src: seq<int>, bin: nat, i: int, n: int)
    requires |src| == n * bin && 0 <= i < n
    ensures 0 <= i * bin && i * bin + bin <= |src|
  {
    MulNonneg(i, bin);
    MulMono(i + 1, n, bin);
  }

  /** A sum of casts casts like the sum. */
  lemma {:induction false} WrapSumOf(t: IntType, s: seq<int>)
    ensures Wrap(t, SumOf(CastAll(t, s))) == Wrap(t, SumOf(s))
  {
    hide Wrap;
    if |s| > 0 {
      var n := |s| - 1;
      assert CastAll(t, s)[..n] == CastAll(t, s[..n]);
      WrapSumOf(t, s[..n]);
      WrapAdd(t, SumOf(CastAll(t, s[..n])), s[n]);
      WrapAdd(t, SumOf(s[..n]), s[n]);
    }
  }

  /** Casting first changes no bin sum. */
  lemma BinnedCast(t: IntType, src: seq<int>, bin: nat, acc: seq<int>)
    requires |src| == |acc| * bin
    ensures Binned(t, CastAll(t, src), bin, acc) == Binned(t, src, bin, acc)
  {
    hide Wrap, SumOf;
    forall i | 0 <= i < |acc|
      ensures Wrap(t, acc[i] + SumOf(Bucket(CastAll(t, src), bin, i))) == Wrap(t, acc[i] + SumOf(Bucket(src, bin, i)))
    {
      var b := Bucket(src, bin, i);
      BucketInside(src, bin, i, |acc|);
      assert Bucket(CastAll(t, src), bin, i) == CastAll(t, b);
      WrapSumOf(t, b);
      WrapAdd(t, acc[i], SumOf(b));
      WrapAdd(t, acc[i], SumOf(CastAll(t, b)));
    }
  }

  lemma SliceOfSlice(s: seq<int>, lo: nat, hi: nat, m: nat, k: nat)
    requires lo <= hi <= |s| && m <= k <= hi - lo
    ensures s[lo..hi][m..k] == s[lo + m..lo + k]
  {
    forall i | 0 <= i < k - m
      ensures s[lo..hi][m..k][i] == s[lo + m..lo + k][i]
    {
      assert s[lo..hi][m + i] == s[lo + m + i];
    }
  }

  /** Rows are added piece by piece, cut at whole bins. */
  lemma BinnedPiece(t: IntType, src: seq<int>, bin: nat, acc: seq<int>, m: nat, k: nat)
    requires |src| == |acc| * bin && m <= k <= |acc|
    ensures 0 <= m * bin <= k * bin <= |src| && k * bin - m * bin == (k - m) * bin
    ensures Binned(t, src[m * bin..k * bin], bin, acc[m..k]) == Binned(t, src, bin, acc)[m..k]
  {
    hide Wrap, SumOf;
    MulMono(k, |acc|, bin);
    MulMono(m, k, bin);
    MulNonneg(m, bin);
    var piece := src[m * bin..k * bin];
    assert |piece| == (k - m) * bin;
    forall i | m <= i < k
      ensures Bucket(piece, bin, i - m) == Bucket(src, bin, i)
    {
      BucketInside(src, bin, i, |acc|);
      BucketInside(piece, bin, i - m, k - m);
      assert m * bin + (i - m) * bin == i * bin;
      SliceOfSlice(src, m * bin, k * bin, (i - m) * bin, (i - m) * bin + bin);
    }
  }

  /** s with the run r written over it at `at`. */
  function Splice(s: seq<int>, at: nat, r: seq<int>): (out: seq<int>)
    requires at + |r| <= |s|
    ensures |out| == |s|
  {
    s[..at] + r + s[at + |r|..]
  }

  /** Runs written one after the other are one run. */
  lemma SpliceNext(s: seq<int>, at: nat, a: seq<int>, b: seq<int>)
    requires at + |a| + |b| <= |s|
    ensures Splice(Splice(s, at, a), at + |a|, b) == Splice(s, at, a + b)
    ensures Splice(s, at, a)[at + |a|..at + |a| + |b|] == s[at + |a|..at + |a| + |b|]
  {
  }

  /** Writing the next element of a run. */
  lemma SpliceOne(s: seq<int>, at: nat, r: seq<int>, i: nat)
    requires at + |r| <= |s| && i < |r|
    ensures Splice(s, at, r[..i])[at + i] == s[at + i]
    ensures Splice(s, at, r[..i])[at + i := r[i]] == Splice(s, at, r[..i + 1])
  {
  }

  /** The scalar bin loop over the run of n accumulators at `at`. */
  method BinRowScalar(t: IntType, src: seq<int>, bin: nat, acc: array<int>, at: nat, n: nat)
    requires bin > 0 && at + n <= acc.Length && |src| == n * bin
    modifies acc
    ensures acc[..] == Splice(old(acc[..]), at, Binned(t, src, bin, old(acc[..])[at..at + n]))
  {
    hide Wrap, SumOf, Splice;
    ghost var was := acc[..][at..at + n];
    ghost var want := Binned(t, src, bin, was);
    SpliceNothing(acc[..], at);
    assert want[..0] == [];
    for i := 0 to n
      invariant acc[..] == Splice(old(acc[..]), at, want[..i])
    {
      BucketInside(src, bin, i, n);
      SpliceOne(old(acc[..]), at, want, i);
      assert acc[..][at + i] == was[i];
      var sum := AddBucket(t, src[i * bin..i * bin + bin], acc[at + i]);
      ghost var before := acc[..];
      acc[at + i] := sum;
      assert acc[..] == before[at + i := want[i]];
    }
    assert want[..n] == want;
  }

  /** The inner loop: one accumulator takes its bucket, wrapping at every add. */
  method AddBucket(t: IntType, bucket: seq<int>, start: int) returns (sum: int)
    ensures sum == if |bucket| == 0 then start else Wrap(t, start + SumOf(bucket))
  {
    hide Wrap;
    sum := start;
    for w := 0 to |bucket|
      invariant sum == if w == 0 then start else Wrap(t, start + SumOf(bucket[..w]))
    {
      assert bucket[..w + 1][..w] == bucket[..w];
      WrapAdd(t, start + SumOf(bucket[..w]), bucket[w]);
      WrapAdd(t, sum, bucket[w]);
      sum := Wrap(t, sum + Wrap(t, bucket[w]));
    }
    assert bucket[..|bucket|] == bucket;
  }

  /** The even elements of the run a + b. */
  function Evens(a: seq<int>, b: seq<int>): (r: seq<int>)
    requires |a| == |b|
    ensures |r| == |a| && forall i :: 0 <= i < |r| ==> r[i] == (a + b)[2 * i]
  {
    seq(|a|, i requires 0 <= i < |a| => (a + b)[2 * i])
  }

  /** The odd elements of the run a + b. */
  function Odds(a: seq<int>, b: seq<int>): (r: seq<int>)
    requires |a| == |b|
    ensures |r| == |a| && forall i :: 0 <= i < |r| ==> r[i] == (a + b)[2 * i + 1]
  {
    seq(|a|, i requires 0 <= i < |a| => (a + b)[2 * i + 1])
  }

  /** The wrapping add, lane for lane. */
  function LaneAdd(t: IntType, a: seq<int>, b: seq<int>): (r: seq<int>)
    requires |a| == |b|
    ensures |r| == |a| && forall i :: 0 <= i < |r| ==> r[i] == Wrap(t, a[i] + b[i])
  {
    seq(|a|, i requires 0 <= i < |a| => Wrap(t, a[i] + b[i]))
  }

  /** Bin 2 of two vectors: split into even and odd elements, add in element order. */
  function LaneBin2(t: IntType, v0: seq<int>, v1: seq<int>, acc: seq<int>): (r: seq<int>)
    requires |v0| == |v1| == |acc|
  {
    LaneAdd(t, LaneAdd(t, acc, Evens(v0, v1)), Odds(v0, v1))
  }

  /** Bin 4 of four vectors: the split twice over. */
  function LaneBin4(t: IntType, v0: seq<int>, v1: seq<int>, v2: seq<int>, v3: seq<int>, acc: seq<int>): (r: seq<int>)
    requires |v0| == |v1| == |v2| == |v3| == |acc|
    ensures |r| == |acc|
  {
    var (e01, o01, e23, o23) := (Evens(v0, v1), Odds(v0, v1), Evens(v2, v3), Odds(v2, v3));
    LaneAdd(t, LaneAdd(t, LaneAdd(t, LaneAdd(t, acc, Evens(e01, e23)), Evens(o01, o23)), Odds(e01, e23)), Odds(o01, o23))
  }

  lemma LaneBin2Binned(t: IntType, v0: seq<int>, v1: seq<int>, acc: seq<int>)
    requires |v0| == |v1| == |acc|
    ensures LaneBin2(t, v0, v1, acc) == Binned(t, v0 + v1, 2, acc)
  {
    hide Wrap;
    var src := v0 + v1;
    forall i | 0 <= i < |acc|
      ensures LaneBin2(t, v0, v1, acc)[i] == Wrap(t, acc[i] + SumOf(Bucket(src, 2, i)))
    {
      assert Bucket(src, 2, i) == [src[2 * i], src[2 * i + 1]];
      SumOfTwo(src[2 * i], src[2 * i + 1]);
      WrapAdd(t, acc[i] + src[2 * i], src[2 * i + 1]);
    }
  }

  lemma SumOfTwo(a: int, b: int)
    ensures SumOf([a, b]) == a + b
  {
    assert [a, b][..1] == [a];
    assert SumOf([a]) == a;
  }

  lemma SumOfFour(a: int, b: int, c: int, d: int)
    ensures SumOf([a, b, c, d]) == a + b + c + d
  {
    assert [a, b, c, d][..3] == [a, b, c];
    assert [a, b, c][..2] == [a, b];
    SumOfTwo(a, b);
  }

  /** Splitting the splits finds every fourth element. */
  lemma QuarterSplit(v0: seq<int>, v1: seq<int>, v2: seq<int>, v3: seq<int>, i: int)
    requires |v0| == |v1| == |v2| == |v3| && 0 <= i < |v0|
    ensures var src := v0 + v1 + v2 + v3;
      var (e01, o01, e23, o23) := (Evens(v0, v1), Odds(v0, v1), Evens(v2, v3), Odds(v2, v3));
      && Evens(e01, e23)[i] == src[4 * i] && Evens(o01, o23)[i] == src[4 * i + 1]
      && Odds(e01, e23)[i] == src[4 * i + 2] && Odds(o01, o23)[i] == src[4 * i + 3]
  {
    var src := v0 + v1 + v2 + v3;
    var (e01, o01, e23, o23) := (Evens(v0, v1), Odds(v0, v1), Evens(v2, v3), Odds(v2, v3));
    forall j | 0 <= j < 2 * |v0|
      ensures (e01 + e23)[j] == src[2 * j] && (o01 + o23)[j] == src[2 * j + 1]
    {
      if j >= |v0| {
        assert (v2 + v3)[2 * (j - |v0|)] == src[2 * j];
        assert (v2 + v3)[2 * (j - |v0|) + 1] == src[2 * j + 1];
      }
    }
  }

  /** One accumulator takes its four elements in turn. */
  lemma LaneBin4At(t: IntType, v0: seq<int>, v1: seq<int>, v2: seq<int>, v3: seq<int>, acc: seq<int>, i: int)
    requires |v0| == |v1| == |v2| == |v3| == |acc| && 0 <= i < |acc|
    ensures var src := v0 + v1 + v2 + v3;
      LaneBin4(t, v0, v1, v2, v3, acc)[i]
      == Wrap(t, Wrap(t, Wrap(t, Wrap(t, acc[i] + src[4 * i]) + src[4 * i + 1]) + src[4 * i + 2]) + src[4 * i + 3])
  {
    hide Wrap;
    QuarterSplit(v0, v1, v2, v3, i);
  }

  lemma LaneBin4Binned(t: IntType, v0: seq<int>, v1: seq<int>, v2: seq<int>, v3: seq<int>, acc: seq<int>)
    requires |v0| == |v1| == |v2| == |v3| == |acc|
    ensures LaneBin4(t, v0, v1, v2, v3, acc) == Binned(t, v0 + v1 + v2 + v3, 4, acc)
  {
    hide Wrap, SumOf, LaneBin4;
    var src, r := v0 + v1 + v2 + v3, LaneBin4(t, v0, v1, v2, v3, acc);
    forall i | 0 <= i < |acc|
      ensures r[i] == Wrap(t, acc[i] + SumOf(Bucket(src, 4, i)))
    {
      var a, b, c, d := src[4 * i], src[4 * i + 1], src[4 * i + 2], src[4 * i + 3];
      LaneBin4At(t, v0, v1, v2, v3, acc, i);
      WrapFour(t, acc[i], a, b, c, d);
      SumOfFour(a, b, c, d);
      assert Bucket(src, 4, i) == [a, b, c, d];
    }
  }

  lemma WrapFour(t: IntType, x: int, a: int, b: int, c: int, d: int)
    ensures Wrap(t, Wrap(t, Wrap(t, Wrap(t, x + a) + b) + c) + d) == Wrap(t, x + (a + b + c + d))
  {
    hide Wrap;
    WrapAdd(t, x + a, b);
    WrapAdd(t, x + a + b, c);
    WrapAdd(t, x + a + b + c, d);
  }

  /** One vector step of a kernel: `bin` vectors into one vector of accumulators. */
  method LaneStep(t: IntType, bin: nat, c: seq<int>, acc: seq<int>) returns (r: seq<int>)
    requires (bin == 2 || bin == 4) && |c| == bin * |acc|
    ensures r == Binned(t, c, bin, acc)
  {
    hide Wrap, SumOf, Bucket, Binned;
    var n := |acc|;
    if bin == 2 {
      r := LaneBin2(t, c[..n], c[n..], acc);
      LaneBin2Binned(t, c[..n], c[n..], acc);
      assert c[..n] + c[n..] == c;
    } else {
      r := LaneBin4(t, c[..n], c[n..2 * n], c[2 * n..3 * n], c[3 * n..], acc);
      LaneBin4Binned(t, c[..n], c[n..2 * n], c[2 * n..3 * n], c[3 * n..], acc);
      assert c[..n] + c[n..2 * n] + c[2 * n..3 * n] + c[3 * n..] == c;
    }
  }

  /** A vector stored over acc[at..]. */
  method Store(v: seq<int>, acc: array<int>, at: nat)
    requires at + |v| <= acc.Length
    modifies acc
    ensures acc[..] == Splice(old(acc[..]), at, v)
  {
    hide Splice;
    SpliceNothing(acc[..], at);
    assert v[..0] == [];
    for i := 0 to |v|
      invariant acc[..] == Splice(old(acc[..]), at, v[..i])
    {
      SpliceOne(old(acc[..]), at, v, i);
      ghost var before := acc[..];
      acc[at + i] := v[i];
      assert acc[..] == before[at + i := v[i]];
    }
    assert v[..|v|] == v;
  }

  /**
   The bin 2 and bin 4 kernels on vectors of `lanes` elements: whole vectors on
   lanes, the rest of the row by the scalar loop.
   */
  method BinLanes(t: IntType, src: seq<int>, bin: nat, lanes: nat, acc: array<int>, at: nat, n: nat)
    requires (bin == 2 || bin == 4) && lanes > 0
    requires at + n <= acc.Length && |src| == n * bin
    modifies acc
    ensures acc[..] == Splice(old(acc[..]), at, Binned(t, src, bin, old(acc[..])[at..at + n]))
  {
    hide Wrap, SumOf, Bucket, Binned, Splice;
    ghost var want := Binned(t, src, bin, acc[..][at..at + n]);
    var m := 0;
    assert want[..0] == [];
    SpliceNothing(acc[..], at);
    while m + lanes <= n
      invariant 0 <= m <= n && |want| == n
      invariant acc[..] == Splice(old(acc[..]), at, want[..m])
    {
      var k := m + lanes;
      RunPiece(t, src, bin, old(acc[..]), at, n, m, k);
      assert acc[at + m..at + k] == acc[..][at + m..at + k];
      var r := LaneStep(t, bin, src[m * bin..k * bin], acc[at + m..at + k]);
      Store(r, acc, at + m);
      m := k;
    }
    RunPiece(t, src, bin, old(acc[..]), at, n, m, n);
    BinRowScalar(t, src[m * bin..n * bin], bin, acc, at + m, n - m);
    assert want[..n] == want;
  }

  lemma SpliceNothing(s: seq<int>, at: nat)
    requires at <= |s|
    ensures Splice(s, at, []) == s
  {
  }

  /** Binning accumulators m..k of a run already binned below m extends it to k. */
  lemma RunPiece(t: IntType, src: seq<int>, bin: nat, s: seq<int>, at: nat, n: nat, m: nat, k: nat)
    requires at + n <= |s| && |src| == n * bin && m <= k <= n
    ensures var want := Binned(t, src, bin, s[at..at + n]);
      && |want| == n
      && 0 <= m * bin <= k * bin <= |src| && k * bin - m * bin == (k - m) * bin
      && Splice(s, at, want[..m])[at + m..at + k] == s[at + m..at + k]
      && |Binned(t, src[m * bin..k * bin], bin, s[at + m..at + k])| == k - m
      && Splice(Splice(s, at, want[..m]), at + m, Binned(t, src[m * bin..k * bin], bin, s[at + m..at + k]))
         == Splice(s, at, want[..k])
  {
    hide Wrap, SumOf, Bucket, Splice;
    var acc := s[at..at + n];
    var want := Binned(t, src, bin, acc);
    SliceOfSlice(s, at, at + n, m, k);
    BinnedPiece(t, src, bin, acc, m, k);
    SpliceNext(s, at, want[..m], want[m..k]);
    assert want[..m] + want[m..k] == want[..k];
  }

  /** The target type's own adds: bin 2 and bin 4 on lanes, every other width scalar. */
  method BinNative(t: IntType, src: seq<int>, bin: nat, lanes: nat, acc: array<int>, at: nat, n: nat)
    requires bin > 0 && lanes > 0 && at + n <= acc.Length && |src| == n * bin
    modifies acc
    ensures acc[..] == Splice(old(acc[..]), at, Binned(t, src, bin, old(acc[..])[at..at + n]))
  {
    if bin == 2 || bin == 4 {
      BinLanes(t, src, bin, lanes, acc, at, n);
    } else {
      BinRowScalar(t, src, bin, acc, at, n);
    }
  }
}
