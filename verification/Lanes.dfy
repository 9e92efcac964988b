/**
 Element runs through the byte shuffles: N consecutive vectors of elements split into
 planes, and planes joined back, the elements held as their bytes.
 */
module Lanes {
  import opened Arith
  import opened Shuffle

  /** An element, as its e bytes. */
  type Elem = Vec

  /** The place of element i of plane c in the interleaved run. */
  function Slot(N: nat, i: int, c: int): (q: int)
  {
    N * i + c
  }

  ghost predicate Sized(e: nat, v: seq<Elem>)
  {
    forall i :: 0 <= i < |v| ==> |v[i]| == e
  }

  /** One vector of m elements as bytes. */
  function ToBytes(s: Shape, v: seq<Elem>): (b: Vec)
    requires s.Valid() && |v| == s.m && Sized(s.e, v)
    ensures |b| == s.Width()
    ensures forall j :: 0 <= j < s.Width() ==> 0 <= j / s.e < s.m && b[j] == v[j / s.e][j % s.e]
  {
    Positions(s);
    seq(s.Width(), j requires 0 <= j < s.Width() => v[j / s.e][j % s.e])
  }

  /** One vector's bytes as its m elements. */
  function FromBytes(s: Shape, b: Vec): (v: seq<Elem>)
    requires s.Valid() && |b| == s.Width()
    ensures |v| == s.m && Sized(s.e, v)
    ensures forall i :: 0 <= i < s.m ==> 0 <= i * s.e && i * s.e + s.e <= |b| && v[i] == b[i * s.e..i * s.e + s.e]
  {
    Elements(s);
    seq(s.m, i requires 0 <= i < s.m => b[i * s.e..i * s.e + s.e])
  }

  lemma Positions(s: Shape)
    requires s.Valid()
    ensures forall j :: 0 <= j < s.Width() ==> 0 <= j / s.e < s.m
  {
    forall j | 0 <= j < s.Width()
      ensures 0 <= j / s.e < s.m
    {
      Commutes(s.m, s.e);
      Digits(j, s.e, s.m);
    }
  }

  lemma Elements(s: Shape)
    requires s.Valid()
    ensures forall i :: 0 <= i < s.m ==> 0 <= i * s.e && i * s.e + s.e <= s.Width()
  {
    forall i | 0 <= i < s.m
      ensures 0 <= i * s.e && i * s.e + s.e <= s.Width()
    {
      MulNonneg(i, s.e);
      MulMono(i + 1, s.m, s.e);
    }
  }

  /** The k-th run of m elements. */
  function Chunk(v: seq<Elem>, m: nat, k: nat): (r: seq<Elem>)
  {
    MulNonneg(k, m);
    if k * m + m <= |v| then v[k * m..k * m + m] else []
  }

  ghost predicate Chunked(s: Shape, v: seq<Elem>)
  {
    forall k :: 0 <= k < s.N ==> |Chunk(v, s.m, k)| == s.m && Sized(s.e, Chunk(v, s.m, k))
  }

  lemma Chunks(s: Shape, v: seq<Elem>)
    requires |v| == s.N * s.m && Sized(s.e, v)
    ensures Chunked(s, v)
    ensures forall k, i :: 0 <= k < s.N && 0 <= i < s.m ==> 0 <= k * s.m + i < |v| && Chunk(v, s.m, k)[i] == v[k * s.m + i]
  {
    forall k | 0 <= k < s.N
      ensures 0 <= k * s.m && k * s.m + s.m <= |v|
    {
      MulNonneg(k, s.m);
      MulMono(k + 1, s.N, s.m);
    }
  }

  /** N consecutive vectors of a run, as bytes. */
  method LoadVecs(s: Shape, v: seq<Elem>) returns (b: seq<Vec>)
    requires s.Valid() && |v| == s.N * s.m && Sized(s.e, v)
    ensures Vectors(s, b) && Lays(s, v, b)
  {
    assert Chunked(s, v) by {
      Chunks(s, v);
    }
    hide Chunk, ToBytes, Lays, Sized, s.Valid, s.Width;
    b := [];
    for k := 0 to s.N
      invariant |b| == k
      invariant forall x :: 0 <= x < k ==> b[x] == ToBytes(s, Chunk(v, s.m, x))
    {
      b := b + [ToBytes(s, Chunk(v, s.m, k))];
    }
    Laid(s, v, b);
  }

  lemma Laid(s: Shape, v: seq<Elem>, b: seq<Vec>)
    requires s.Valid() && |v| == s.N * s.m && Sized(s.e, v) && Chunked(s, v)
    requires |b| == s.N && forall k :: 0 <= k < s.N ==> b[k] == ToBytes(s, Chunk(v, s.m, k))
    ensures Vectors(s, b) && Lays(s, v, b)
  {
    hide ToBytes, Chunk, JoinElement;
    assert Vectors(s, b);
    forall k, j | 0 <= k < s.N && 0 <= j < s.Width() && 0 <= JoinElement(s, k, j) < |v|
      ensures b[k][j] == v[JoinElement(s, k, j)][j % s.e]
    {
      LaidAt(s, k, j);
      Chunks(s, v);
      assert b[k][j] == Chunk(v, s.m, k)[j / s.e][j % s.e];
    }
  }

  /** Byte j of vector k belongs to element j / e of that vector. */
  lemma LaidAt(s: Shape, k: int, j: int)
    requires s.Valid() && 0 <= k < s.N && 0 <= j < s.Width()
    ensures JoinElement(s, k, j) == k * s.m + j / s.e
    ensures 0 <= j / s.e < s.m && 0 <= k * s.m && k * s.m + s.m <= s.N * s.m
  {
    Positions(s);
    Associates(k, s.m, s.e);
    assert k * s.Width() + j == (k * s.m + j / s.e) * s.e + j % s.e;
    DivModUnique(k * s.m + j / s.e, j % s.e, s.e);
    MulNonneg(k, s.m);
    MulMono(k + 1, s.N, s.m);
  }

  /** One lane step of the split: element N * i + c of the run becomes element i of plane c. */
  method SplitStep(s: Shape, v: seq<Elem>) returns (planes: seq<seq<Elem>>)
    requires s.Valid() && |v| == s.N * s.m && Sized(s.e, v)
    ensures |planes| == s.N
    ensures forall c :: 0 <= c < s.N ==> |planes[c]| == s.m
    ensures forall c, i :: 0 <= c < s.N && 0 <= i < s.m ==>
      0 <= Slot(s.N, i, c) < |v| && planes[c][i] == v[Slot(s.N, i, c)]
  {
    hide SplitTables, JoinElement, Pulled, FromBytes, s.Valid, s.Width, Lays, IsShuffle, Slot;
    var b := LoadVecs(s, v);
    var p := ShuffleVecs(s, SplitTables(s), b);
    planes := seq(s.N, c requires 0 <= c < s.N => FromBytes(s, p[c]));
    Shuffled(s, SplitTables(s), b, p);
    forall c, i | 0 <= c < s.N && 0 <= i < s.m
      ensures 0 <= Slot(s.N, i, c) < |v| && planes[c][i] == v[Slot(s.N, i, c)]
    {
      SplitTo(s, v, b, p, c, i);
    }
  }

  lemma Shuffled(s: Shape, t: seq<seq<Table>>, v: seq<Vec>, p: seq<Vec>)
    requires TablesFor(s, t) && Vectors(s, v) && Vectors(s, p)
    requires forall i, j :: 0 <= i < s.N && 0 <= j < s.Width() ==> p[i][j] == Pulled(t[i], v, j, s.N)
    ensures IsShuffle(s, t, v, p)
  {
  }

  lemma SplitTo(s: Shape, v: seq<Elem>, b: seq<Vec>, p: seq<Vec>, c: int, i: int)
    requires s.Valid() && |v| == s.N * s.m && Sized(s.e, v) && Vectors(s, b) && Vectors(s, p)
    requires Lays(s, v, b) && IsShuffle(s, SplitTables(s), b, p) && 0 <= c < s.N && 0 <= i < s.m
    ensures 0 <= Slot(s.N, i, c) < |v| && FromBytes(s, p[c])[i] == v[Slot(s.N, i, c)]
  {
    hide SplitTables, IsShuffle, Lays, FromBytes;
    SplitElement(s, v, b, p, c, i, 0);
    var to := FromBytes(s, p[c])[i];
    forall x | 0 <= x < s.e
      ensures to[x] == v[s.N * i + c][x]
    {
      SplitElement(s, v, b, p, c, i, x);
      assert to == p[c][i * s.e..i * s.e + s.e];
    }
  }

  lemma LaidElement(s: Shape, k: int, i: int, x: int)
    requires s.Valid() && 0 <= k < s.N && 0 <= i < s.m && 0 <= x < s.e
    ensures 0 <= i * s.e + x < s.Width() && (i * s.e + x) % s.e == x
    ensures JoinElement(s, k, i * s.e + x) == k * s.m + i
  {
    hide JoinElement;
    Compose(i, x, s.e, s.m);
    Commutes(s.m, s.e);
    LaidAt(s, k, i * s.e + x);
  }

  /** The plane and position that byte x of element i of vector k is joined from. */
  lemma JoinPlace(s: Shape, k: int, i: int, x: int)
    requires s.Valid() && 0 <= k < s.N && 0 <= i < s.m && 0 <= x < s.e
    ensures 0 <= i * s.e + x < s.Width()
    ensures var q := k * s.m + i;
      && 0 <= q / s.N < s.m && 0 <= q % s.N < s.N && 0 <= (q / s.N) * s.e + x < s.Width()
      && JoinPlane(s, k, i * s.e + x) == q % s.N && JoinPos(s, k, i * s.e + x) == (q / s.N) * s.e + x
  {
    hide JoinElement;
    var q := k * s.m + i;
    LaidElement(s, k, i, x);
    Compose(k, i, s.m, s.N);
    Commutes(s.m, s.N);
    Digits(q, s.N, s.m);
    Compose(q / s.N, x, s.e, s.m);
    Commutes(s.m, s.e);
  }

  /** Joining planes puts byte x of element i of plane c at byte x of element N * i + c. */
  lemma JoinedElement(s: Shape, p: seq<Vec>, w: seq<Vec>, k: int, i: int, x: int)
    requires s.Valid() && Vectors(s, p) && Vectors(s, w) && IsShuffle(s, JoinTables(s), p, w)
    requires 0 <= k < s.N && 0 <= i < s.m && 0 <= x < s.e
    ensures 0 <= i * s.e + x < s.Width()
    ensures var q := k * s.m + i;
      && 0 <= q / s.N < s.m && 0 <= q % s.N < s.N && 0 <= (q / s.N) * s.e + x < s.Width()
      && w[k][i * s.e + x] == p[q % s.N][(q / s.N) * s.e + x]
  {
    hide JoinTables, Pulled, JoinPlane, JoinPos;
    JoinPlace(s, k, i, x);
    JoinByte(s, p, k, i * s.e + x);
  }

  /** The run interleaving the planes: element i of plane c at N * i + c. */
  ghost predicate Interleaves(s: Shape, planes: seq<seq<Elem>>, v: seq<Elem>)
    requires s.N > 0 && |planes| == s.N && forall c :: 0 <= c < s.N ==> |planes[c]| == s.m
  {
    forall q :: 0 <= q < |v| ==> 0 <= q / s.N < s.m && v[q] == planes[q % s.N][q / s.N]
  }

  /** One lane step of the join: element i of plane c becomes element N * i + c of the run. */
  method JoinStep(s: Shape, planes: seq<seq<Elem>>) returns (v: seq<Elem>)
    requires s.Valid() && |planes| == s.N
    requires forall c :: 0 <= c < s.N ==> |planes[c]| == s.m && Sized(s.e, planes[c])
    ensures |v| == s.N * s.m && Interleaves(s, planes, v)
  {
    hide JoinTables, JoinElement, Pulled, FromBytes, ToBytes, s.Width, IsShuffle, Interleaves;
    var p := seq(s.N, c requires 0 <= c < s.N => ToBytes(s, planes[c]));
    var w := ShuffleVecs(s, JoinTables(s), p);
    Shuffled(s, JoinTables(s), p, w);
    v := [];
    Nothing(s, planes);
    for k := 0 to s.N
      invariant |v| == k * s.m && Interleaves(s, planes, v)
    {
      StoredVector(s, planes, p, w, k, v);
      v := v + FromBytes(s, w[k]);
      assert |v| == k * s.m + s.m;
    }
  }

  lemma Nothing(s: Shape, planes: seq<seq<Elem>>)
    requires s.N > 0 && |planes| == s.N && forall c :: 0 <= c < s.N ==> |planes[c]| == s.m
    ensures Interleaves(s, planes, [])
  {
  }

  lemma StoredVector(s: Shape, planes: seq<seq<Elem>>, p: seq<Vec>, w: seq<Vec>, k: int, v: seq<Elem>)
    requires s.Valid() && |planes| == s.N && Vectors(s, p) && Vectors(s, w)
    requires forall c :: 0 <= c < s.N ==> |planes[c]| == s.m && Sized(s.e, planes[c]) && p[c] == ToBytes(s, planes[c])
    requires IsShuffle(s, JoinTables(s), p, w) && 0 <= k < s.N
    requires |v| == k * s.m && Interleaves(s, planes, v)
    ensures Interleaves(s, planes, v + FromBytes(s, w[k]))
  {
    hide JoinTables, Pulled, IsShuffle, ToBytes, FromBytes, s.Width;
    var next := FromBytes(s, w[k]);
    forall q | 0 <= q < |v + next|
      ensures 0 <= q / s.N < s.m && (v + next)[q] == planes[q % s.N][q / s.N]
    {
      if q < |v| {
        assert (v + next)[q] == v[q];
      } else {
        StoredElement(s, planes, p, w, k, q - k * s.m);
        assert (v + next)[q] == next[q - k * s.m];
      }
    }
  }

  lemma StoredElement(s: Shape, planes: seq<seq<Elem>>, p: seq<Vec>, w: seq<Vec>, k: int, i: int)
    requires s.Valid() && |planes| == s.N && Vectors(s, p) && Vectors(s, w)
    requires forall c :: 0 <= c < s.N ==> |planes[c]| == s.m && Sized(s.e, planes[c]) && p[c] == ToBytes(s, planes[c])
    requires IsShuffle(s, JoinTables(s), p, w) && 0 <= k < s.N && 0 <= i < s.m
    ensures var q := k * s.m + i;
      0 <= q / s.N < s.m && 0 <= q % s.N < s.N && FromBytes(s, w[k])[i] == planes[q % s.N][q / s.N]
  {
    hide JoinTables, Pulled, IsShuffle, ToBytes, FromBytes;
    var q := k * s.m + i;
    JoinedElement(s, p, w, k, i, 0);
    var from, to := planes[q % s.N][q / s.N], FromBytes(s, w[k])[i];
    forall x | 0 <= x < s.e
      ensures to[x] == from[x]
    {
      JoinedElement(s, p, w, k, i, x);
      var j := (q / s.N) * s.e + x;
      DivModUnique(q / s.N, x, s.e);
      assert p[q % s.N][j] == planes[q % s.N][j / s.e][j % s.e];
      assert to == w[k][i * s.e..i * s.e + s.e];
    }
  }
}
