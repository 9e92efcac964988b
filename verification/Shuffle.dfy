/**
 The byte-swizzle tables that split N-element groups across N vectors into planes and
 join planes back into groups, for any group size N, any vector width n up to 255 bytes
 and any element size e dividing it.
 */
module Shuffle {
  import opened Arith

  type Octet = bv8
  type Vec = seq<Octet>
  /** Entries are byte positions; 0xFF, past every vector, reads as zero. */
  type Table = seq<nat>

  const NONE: nat := 0xFF

  /** The sizes: N vectors of m elements of e bytes each. */
  datatype Shape = Shape(N: nat, m: nat, e: nat)
  {
    ghost predicate Valid()
    {
      N > 0 && m > 0 && e > 0 && m * e <= 255
    }

    /** Bytes per vector. */
    function Width(): (n: nat)
    {
      m * e
    }
  }

  /** The flat byte that lands in byte j of plane c. */
  function SplitSource(s: Shape, c: int, j: int): (g: int)
    requires s.e > 0
  {
    (s.N * (j / s.e) + c) * s.e + j % s.e
  }

  function SplitEntry(s: Shape, c: nat, k: nat, j: nat): (x: nat)
    requires s.Valid()
  {
    MulPositive(s.m, s.e);
    var g := SplitSource(s, c, j);
    if g / s.Width() == k then g % s.Width() else NONE
  }

  /** The element of the joined groups that byte j of vector k belongs to. */
  function JoinElement(s: Shape, k: int, j: int): (q: int)
    requires s.e > 0
  {
    (k * s.Width() + j) / s.e
  }

  function JoinEntry(s: Shape, k: nat, c: nat, j: nat): (x: nat)
    requires s.Valid()
  {
    MulNonneg(k, s.Width());
    DivNonneg(k * s.Width() + j, s.e);
    var q := JoinElement(s, k, j);
    DivNonneg(q, s.N);
    MulNonneg(q / s.N, s.e);
    if q % s.N == c then (q / s.N) * s.e + j % s.e else NONE
  }

  lemma Regroup(e: int, N: int, m: int)
    ensures e * (N * m) == N * (m * e)
  {
  }

  /** The split's source byte is inside the N vectors. */
  lemma SplitInside(s: Shape, c: int, j: int)
    requires s.Valid() && 0 <= c < s.N && 0 <= j < s.Width()
    ensures s.Width() > 0 && 0 <= SplitSource(s, c, j) / s.Width() < s.N
    ensures SplitSource(s, c, j) / s.e == s.N * (j / s.e) + c && SplitSource(s, c, j) % s.e == j % s.e
  {
    MulPositive(s.m, s.e);
    var x, y, g := j / s.e, j % s.e, SplitSource(s, c, j);
    Commutes(s.m, s.e);
    Digits(j, s.e, s.m);
    Commutes(s.N, x);
    Compose(x, c, s.N, s.m);
    Compose(s.N * x + c, y, s.e, s.N * s.m);
    Regroup(s.e, s.N, s.m);
    Commutes(s.N, s.Width());
    Digits(g, s.Width(), s.N);
  }

  /** The join's source byte is inside its plane. */
  lemma JoinInside(s: Shape, k: int, j: int)
    requires s.Valid() && 0 <= k < s.N && 0 <= j < s.Width()
    ensures var q := JoinElement(s, k, j);
      && 0 <= (q / s.N) * s.e + j % s.e < s.Width()
      && k * s.Width() + j == q * s.e + j % s.e && (k * s.Width() + j) % s.e == j % s.e
  {
    var n, q := s.Width(), JoinElement(s, k, j);
    MulPositive(s.m, s.e);
    Compose(k, j, n, s.N);
    Regroup(s.e, s.N, s.m);
    Commutes(s.N, n);
    Digits(k * n + j, s.e, s.N * s.m);
    Digits(q, s.N, s.m);
    ModShift(j, k * s.m, s.e);
    Associates(k, s.m, s.e);
    Compose(q / s.N, j % s.e, s.e, s.m);
    Commutes(s.m, s.e);
  }

  /** The vector and position byte j of plane c is split from. */
  function SplitVec(s: Shape, c: int, j: int): (k: int)
    requires s.Valid() && 0 <= c < s.N && 0 <= j < s.Width()
    ensures 0 <= k < s.N
  {
    SplitInside(s, c, j);
    SplitSource(s, c, j) / s.Width()
  }

  function SplitPos(s: Shape, c: int, j: int): (x: int)
    requires s.Valid() && 0 <= c < s.N && 0 <= j < s.Width()
    ensures 0 <= x < s.Width()
  {
    SplitSource(s, c, j) % s.Width()
  }

  /** The plane and position byte j of vector k is joined from. */
  function JoinPlane(s: Shape, k: int, j: int): (c: int)
    requires s.Valid()
    ensures 0 <= c < s.N
  {
    JoinElement(s, k, j) % s.N
  }

  function JoinPos(s: Shape, k: int, j: int): (x: int)
    requires s.Valid() && 0 <= k < s.N && 0 <= j < s.Width()
    ensures 0 <= x < s.Width()
  {
    JoinInside(s, k, j);
    (JoinElement(s, k, j) / s.N) * s.e + j % s.e
  }

  /** The N tables of one output vector. */
  function TableRow(s: Shape, entry: (nat, nat, nat) -> nat, i: nat): (t: seq<Table>)
    ensures |t| == s.N && forall k :: 0 <= k < s.N ==> |t[k]| == s.Width()
    ensures forall k, j :: 0 <= k < s.N && 0 <= j < s.Width() ==> t[k][j] == entry(i, k, j)
  {
    seq(s.N, k requires 0 <= k < s.N => seq(s.Width(), j requires 0 <= j < s.Width() => entry(i, k, j)))
  }

  function Tables(s: Shape, entry: (nat, nat, nat) -> nat): (t: seq<seq<Table>>)
    ensures |t| == s.N && forall i :: 0 <= i < s.N ==> |t[i]| == s.N
    ensures forall i, k :: 0 <= i < s.N && 0 <= k < s.N ==> |t[i][k]| == s.Width()
    ensures forall i, k, j :: 0 <= i < s.N && 0 <= k < s.N && 0 <= j < s.Width() ==> t[i][k][j] == entry(i, k, j)
  {
    seq(s.N, i requires 0 <= i < s.N => TableRow(s, entry, i))
  }

  function SplitTables(s: Shape): (t: seq<seq<Table>>)
    requires s.Valid()
    ensures |t| == s.N && forall i :: 0 <= i < s.N ==> |t[i]| == s.N
    ensures forall i, k :: 0 <= i < s.N && 0 <= k < s.N ==> |t[i][k]| == s.Width()
    ensures forall i, k, j :: 0 <= i < s.N && 0 <= k < s.N && 0 <= j < s.Width() ==> t[i][k][j] == SplitEntry(s, i, k, j)
  {
    Tables(s, (c, k, j) => SplitEntry(s, c, k, j))
  }

  function JoinTables(s: Shape): (t: seq<seq<Table>>)
    requires s.Valid()
    ensures |t| == s.N && forall i :: 0 <= i < s.N ==> |t[i]| == s.N
    ensures forall i, k :: 0 <= i < s.N && 0 <= k < s.N ==> |t[i][k]| == s.Width()
    ensures forall i, k, j :: 0 <= i < s.N && 0 <= k < s.N && 0 <= j < s.Width() ==> t[i][k][j] == JoinEntry(s, i, k, j)
  {
    Tables(s, (k, c, j) => JoinEntry(s, k, c, j))
  }

  /** N vectors of the shape's width. */
  ghost predicate Vectors(s: Shape, v: seq<Vec>)
  {
    |v| == s.N && forall k :: 0 <= k < s.N ==> |v[k]| == s.Width()
  }

  ghost predicate TablesFor(s: Shape, t: seq<seq<Table>>)
  {
    && |t| == s.N && (forall i :: 0 <= i < s.N ==> |t[i]| == s.N)
    && forall i, k :: 0 <= i < s.N && 0 <= k < s.N ==> |t[i][k]| == s.Width()
  }

  /** Byte lookup: an entry past the vector is zero. */
  function Swizzle(v: Vec, t: Table): (r: Vec)
    ensures |r| == |t| && forall j :: 0 <= j < |t| ==> r[j] == if t[j] < |v| then v[t[j]] else 0
  {
    seq(|t|, j requires 0 <= j < |t| => if t[j] < |v| then v[t[j]] else 0)
  }

  function Or(a: Vec, b: Vec): (r: Vec)
    requires |a| == |b|
    ensures |r| == |a| && forall j :: 0 <= j < |a| ==> r[j] == a[j] | b[j]
  {
    seq(|a|, j requires 0 <= j < |a| => a[j] | b[j])
  }

  /** Byte j of the N pulls of output i or'd together, the first k of them. */
  function Pulled(t: seq<Table>, v: seq<Vec>, j: nat, k: nat): (b: Octet)
    requires |t| == |v| && k <= |t| && forall x :: 0 <= x < |t| ==> j < |t[x]|
  {
    if k == 0 then 0
    else Pulled(t, v, j, k - 1) | (if t[k - 1][j] < |v[k - 1]| then v[k - 1][t[k - 1][j]] else 0)
  }

  /** Every output vector: the pulls from every input vector or'd, byte by byte. */
  method ShuffleVecs(s: Shape, t: seq<seq<Table>>, v: seq<Vec>) returns (out: seq<Vec>)
    requires s.Valid() && TablesFor(s, t) && Vectors(s, v)
    ensures Vectors(s, out)
    ensures forall i, j :: 0 <= i < s.N && 0 <= j < s.Width() ==> out[i][j] == Pulled(t[i], v, j, s.N)
  {
    out := v;
    for i := 0 to s.N
      invariant Vectors(s, out)
      invariant forall x, j :: 0 <= x < i && 0 <= j < s.Width() ==> out[x][j] == Pulled(t[x], v, j, s.N)
    {
      var o := Swizzle(v[0], t[i][0]);
      forall j | 0 <= j < s.Width()
        ensures o[j] == Pulled(t[i], v, j, 1)
      {
        ZeroOr(if t[i][0][j] < |v[0]| then v[0][t[i][0][j]] else 0);
        assert Pulled(t[i], v, j, 0) == 0;
      }
      for k := 1 to s.N
        invariant |o| == s.Width() && forall j :: 0 <= j < s.Width() ==> o[j] == Pulled(t[i], v, j, k)
      {
        o := Or(o, Swizzle(v[k], t[i][k]));
      }
      out := out[i := o];
    }
  }

  lemma ZeroOr(b: Octet)
    ensures 0 | b == b && b | 0 == b
  {
  }

  /** With one contributor, the or is that contributor's byte. */
  lemma {:induction false} PulledFromOne(t: seq<Table>, v: seq<Vec>, j: nat, k: nat, one: nat)
    requires |t| == |v| && k <= |t| && forall x :: 0 <= x < |t| ==> j < |t[x]|
    requires forall x :: 0 <= x < |t| && x != one ==> t[x][j] >= |v[x]|
    requires one < |t| && t[one][j] < |v[one]|
    ensures Pulled(t, v, j, k) == if one < k then v[one][t[one][j]] else 0
  {
    if k > 0 {
      PulledFromOne(t, v, j, k - 1, one);
      ZeroOr(v[one][t[one][j]]);
      ZeroOr(0);
    }
  }

  /** Splitting puts that byte, and only it, at byte j of plane c. */
  lemma SplitByte(s: Shape, v: seq<Vec>, c: int, j: int)
    requires s.Valid() && Vectors(s, v) && 0 <= c < s.N && 0 <= j < s.Width()
    ensures Pulled(SplitTables(s)[c], v, j, s.N) == v[SplitVec(s, c, j)][SplitPos(s, c, j)]
    ensures forall k :: 0 <= k < s.N ==> (SplitTables(s)[c][k][j] < s.Width() <==> k == SplitVec(s, c, j))
  {
    var t := SplitTables(s)[c];
    forall k | 0 <= k < s.N
      ensures t[k][j] == if k == SplitVec(s, c, j) then SplitPos(s, c, j) else NONE
    {
      assert t[k][j] == SplitEntry(s, c, k, j);
    }
    hide SplitSource, SplitVec, SplitPos, SplitTables, SplitEntry, Pulled;
    PulledFromOne(t, v, j, s.N, SplitVec(s, c, j));
  }

  /** Joining reads byte j of vector k from one byte of one plane. */
  lemma JoinByte(s: Shape, p: seq<Vec>, k: int, j: int)
    requires s.Valid() && Vectors(s, p) && 0 <= k < s.N && 0 <= j < s.Width()
    ensures Pulled(JoinTables(s)[k], p, j, s.N) == p[JoinPlane(s, k, j)][JoinPos(s, k, j)]
    ensures forall c :: 0 <= c < s.N ==> (JoinTables(s)[k][c][j] < s.Width() <==> c == JoinPlane(s, k, j))
  {
    var t := JoinTables(s)[k];
    forall c | 0 <= c < s.N
      ensures t[c][j] == if c == JoinPlane(s, k, j) then JoinPos(s, k, j) else NONE
    {
      assert t[c][j] == JoinEntry(s, k, c, j);
    }
    hide JoinElement, JoinPlane, JoinPos, JoinTables, JoinEntry, Pulled;
    PulledFromOne(t, p, j, s.N, JoinPlane(s, k, j));
  }

  /** The byte a split and then a join bring to byte j of vector k is that byte. */
  lemma SplitOfJoin(s: Shape, k: int, j: int)
    requires s.Valid() && 0 <= k < s.N && 0 <= j < s.Width()
    ensures SplitVec(s, JoinPlane(s, k, j), JoinPos(s, k, j)) == k
    ensures SplitPos(s, JoinPlane(s, k, j), JoinPos(s, k, j)) == j
  {
    hide JoinElement;
    JoinInside(s, k, j);
    var q, at := JoinElement(s, k, j), JoinPos(s, k, j);
    DivModUnique(q / s.N, j % s.e, s.e);
    Commutes(s.N, q / s.N);
    assert SplitSource(s, q % s.N, at) == k * s.Width() + j;
    DivModUnique(k, j, s.Width());
  }

  /** The byte a join and then a split bring to byte j of plane c is that byte. */
  lemma JoinOfSplit(s: Shape, c: int, j: int)
    requires s.Valid() && 0 <= c < s.N && 0 <= j < s.Width()
    ensures JoinPlane(s, SplitVec(s, c, j), SplitPos(s, c, j)) == c
    ensures JoinPos(s, SplitVec(s, c, j), SplitPos(s, c, j)) == j
  {
    hide SplitSource, SplitVec, SplitPos, JoinElement, s.Width;
    SplitWhere(s, c, j);
    DivModUnique(j / s.e, c, s.N);
    Commutes(s.N, j / s.e);
    WholePart(j, s.e);
  }

  /** Where byte j of plane c is split from, as the join counts it. */
  lemma SplitWhere(s: Shape, c: int, j: int)
    requires s.Valid() && 0 <= c < s.N && 0 <= j < s.Width()
    ensures var k, i := SplitVec(s, c, j), SplitPos(s, c, j);
      JoinElement(s, k, i) == s.N * (j / s.e) + c && i % s.e == j % s.e
  {
    SplitInside(s, c, j);
    hide SplitSource, s.Width;
    var k, i := SplitVec(s, c, j), SplitPos(s, c, j);
    WholePart(SplitSource(s, c, j), s.Width());
    JoinInside(s, k, i);
  }

  /** p is the table shuffle of v. */
  ghost predicate IsShuffle(s: Shape, t: seq<seq<Table>>, v: seq<Vec>, p: seq<Vec>)
    requires TablesFor(s, t) && Vectors(s, v) && Vectors(s, p)
  {
    forall i, j :: 0 <= i < s.N && 0 <= j < s.Width() ==> p[i][j] == Pulled(t[i], v, j, s.N)
  }

  /** Splitting and joining restores the vectors byte for byte. */
  lemma SplitThenJoin(s: Shape, v: seq<Vec>, p: seq<Vec>, w: seq<Vec>)
    requires s.Valid() && Vectors(s, v) && Vectors(s, p) && Vectors(s, w)
    requires IsShuffle(s, SplitTables(s), v, p) && IsShuffle(s, JoinTables(s), p, w)
    ensures w == v
  {
    hide SplitSource, JoinElement, Pulled, SplitTables, JoinTables, SplitVec, SplitPos, JoinPlane, JoinPos;
    forall k | 0 <= k < s.N
      ensures w[k] == v[k]
    {
      forall j | 0 <= j < s.Width()
        ensures w[k][j] == v[k][j]
      {
        JoinByte(s, p, k, j);
        SplitByte(s, v, JoinPlane(s, k, j), JoinPos(s, k, j));
        SplitOfJoin(s, k, j);
      }
    }
  }

  /** Joining and splitting restores the planes byte for byte. */
  lemma JoinThenSplit(s: Shape, p: seq<Vec>, v: seq<Vec>, w: seq<Vec>)
    requires s.Valid() && Vectors(s, p) && Vectors(s, v) && Vectors(s, w)
    requires IsShuffle(s, JoinTables(s), p, v) && IsShuffle(s, SplitTables(s), v, w)
    ensures w == p
  {
    hide SplitSource, JoinElement, Pulled, SplitTables, JoinTables, SplitVec, SplitPos, JoinPlane, JoinPos;
    forall c | 0 <= c < s.N
      ensures w[c] == p[c]
    {
      forall j | 0 <= j < s.Width()
        ensures w[c][j] == p[c][j]
      {
        SplitByte(s, v, c, j);
        JoinByte(s, p, SplitVec(s, c, j), SplitPos(s, c, j));
        JoinOfSplit(s, c, j);
      }
    }
  }

  /** Byte b of element r of a run of elements of e bytes laid over vectors of the shape's width. */
  ghost predicate Lays(s: Shape, elements: seq<Vec>, v: seq<Vec>)
    requires s.Valid() && Vectors(s, v)
  {
    && |elements| == s.N * s.m && (forall r :: 0 <= r < |elements| ==> |elements[r]| == s.e)
    && forall k, j :: 0 <= k < s.N && 0 <= j < s.Width() && 0 <= JoinElement(s, k, j) < |elements| ==>
         v[k][j] == elements[JoinElement(s, k, j)][j % s.e]
  }

  /** Byte b of element i of plane c is split from that byte of element N * i + c. */
  lemma SplitPlace(s: Shape, c: int, i: int, b: int)
    requires s.Valid() && 0 <= c < s.N && 0 <= i < s.m && 0 <= b < s.e
    ensures 0 <= s.N * i + c < s.N * s.m && 0 <= i * s.e + b < s.Width()
    ensures var k, x := SplitVec(s, c, i * s.e + b), SplitPos(s, c, i * s.e + b);
      JoinElement(s, k, x) == s.N * i + c && x % s.e == b
  {
    var j := i * s.e + b;
    Compose(i, b, s.e, s.m);
    Commutes(s.m, s.e);
    Compose(i, c, s.N, s.m);
    Commutes(s.N, i);
    SplitInside(s, c, j);
    var g, n := SplitSource(s, c, j), s.Width();
    var k, x := SplitVec(s, c, j), SplitPos(s, c, j);
    hide SplitSource;
    assert k * n + x == g;
    JoinInside(s, k, x);
  }

  /** Splitting a run of elements puts element N * i + c at position i of plane c. */
  lemma SplitElement(s: Shape, elements: seq<Vec>, v: seq<Vec>, p: seq<Vec>, c: int, i: int, b: int)
    requires s.Valid() && Vectors(s, v) && Vectors(s, p) && Lays(s, elements, v)
    requires IsShuffle(s, SplitTables(s), v, p)
    requires 0 <= c < s.N && 0 <= i < s.m && 0 <= b < s.e
    ensures 0 <= s.N * i + c < |elements| && 0 <= i * s.e + b < s.Width()
    ensures p[c][i * s.e + b] == elements[s.N * i + c][b]
  {
    hide Pulled, SplitTables, SplitVec, SplitPos, JoinElement;
    SplitPlace(s, c, i, b);
    SplitByte(s, v, c, i * s.e + b);
  }
}
