/** The row-by-row layout conversion: whole vectors of columns on lanes, the rest of every row scalar. */
module RgbRows {
  import opened Wrappers
  import opened Arith
  import opened Arrays
  import opened Shuffle
  import opened Lanes
  import opened RgbLayout
  import opened Convert

  /** A conversion between two layouts of w by h pixels. */
  datatype Job = Job(from: Mode, to: Mode, w: nat, h: nat)
  {
    ghost predicate Fits(v: seq<Elem>, out: seq<Elem>)
    {
      w > 0 && h > 0 && |v| >= Size(w, h) && |out| == Size(w, h)
    }
  }

  /** The elements of the target at the coordinates in p are converted; the others are as they were. */
  ghost predicate Wrote(j: Job, v: seq<Elem>, was: seq<Elem>, now: seq<Elem>, p: Coords -> bool)
    requires j.Fits(v, was)
  {
    && |now| == |was|
    && forall k :: 0 <= k < |now| ==>
         now[k] == if p(CoordsOf(j.to, j.w, j.h, k)) then Moved(v, j.from, j.to, j.w, j.h, k) else was[k]
  }

  lemma WroteNothing(j: Job, v: seq<Elem>, was: seq<Elem>, p: Coords -> bool)
    requires j.Fits(v, was) && forall q :: Inside(q, j.w, j.h) ==> !p(q)
    ensures Wrote(j, v, was, was, p)
  {
    hide CoordsOf, Index, Size;
    forall k | 0 <= k < |was|
      ensures !p(CoordsOf(j.to, j.w, j.h, k))
    {
      OfIndex(j.to, j.w, j.h, k);
    }
  }

  /** One write after another covers what either covers. */
  lemma WroteMore(j: Job, v: seq<Elem>, was: seq<Elem>, mid: seq<Elem>, now: seq<Elem>,
                  p: Coords -> bool, q: Coords -> bool, r: Coords -> bool)
    requires j.Fits(v, was) && j.Fits(v, mid) && Wrote(j, v, was, mid, p) && Wrote(j, v, mid, now, q)
    requires forall x :: Inside(x, j.w, j.h) ==> (r(x) <==> p(x) || q(x))
    ensures Wrote(j, v, was, now, r)
  {
    hide CoordsOf, Index, Size, Moved;
    forall k | 0 <= k < |now|
      ensures now[k] == if r(CoordsOf(j.to, j.w, j.h, k)) then Moved(v, j.from, j.to, j.w, j.h, k) else was[k]
    {
      OfIndex(j.to, j.w, j.h, k);
    }
  }

  /** The same coordinates, said another way. */
  lemma WroteSame(j: Job, v: seq<Elem>, was: seq<Elem>, now: seq<Elem>, p: Coords -> bool, r: Coords -> bool)
    requires j.Fits(v, was) && Wrote(j, v, was, now, p)
    requires forall x :: Inside(x, j.w, j.h) ==> (r(x) <==> p(x))
    ensures Wrote(j, v, was, now, r)
  {
    hide CoordsOf, Index, Size, Moved;
    forall k | 0 <= k < |now|
      ensures r(CoordsOf(j.to, j.w, j.h, k)) <==> p(CoordsOf(j.to, j.w, j.h, k))
    {
      OfIndex(j.to, j.w, j.h, k);
    }
  }

  /** Writing everywhere is the whole conversion. */
  lemma WroteAll(j: Job, v: seq<Elem>, was: seq<Elem>, now: seq<Elem>, p: Coords -> bool)
    requires j.Fits(v, was) && Wrote(j, v, was, now, p) && forall x :: Inside(x, j.w, j.h) ==> p(x)
    ensures now == Relaid(v, j.from, j.to, j.w, j.h)
  {
    hide CoordsOf, Index, Size, Moved;
    forall k | 0 <= k < |now|
      ensures now[k] == Moved(v, j.from, j.to, j.w, j.h, k)
    {
      OfIndex(j.to, j.w, j.h, k);
    }
  }

  /** A write that puts the right element at every place of p and touches no other. */
  lemma WroteBy(j: Job, v: seq<Elem>, was: seq<Elem>, now: seq<Elem>, p: Coords -> bool)
    requires j.Fits(v, was) && |now| == |was|
    requires forall q | Inside(q, j.w, j.h) && p(q) ::
      0 <= Index(j.to, j.w, j.h, q) < |now| && 0 <= Index(j.from, j.w, j.h, q) < |v| ==>
        now[Index(j.to, j.w, j.h, q)] == v[Index(j.from, j.w, j.h, q)]
    requires forall k :: 0 <= k < |now| && !p(CoordsOf(j.to, j.w, j.h, k)) ==> now[k] == was[k]
    ensures Wrote(j, v, was, now, p)
  {
    hide CoordsOf, Index, Size;
    forall k | 0 <= k < |now| && p(CoordsOf(j.to, j.w, j.h, k))
      ensures now[k] == Moved(v, j.from, j.to, j.w, j.h, k)
    {
      OfIndex(j.to, j.w, j.h, k);
      IndexOf(j.from, j.w, j.h, CoordsOf(j.to, j.w, j.h, k));
    }
  }

  /** Along x the planar and row-interleaved layouts are contiguous. */
  lemma Contiguous(m: Mode, w: nat, h: nat, p: Coords, i: int)
    requires m != RGB1
    ensures Index(m, w, h, Coords(p.x + i, p.c, p.y)) == Index(m, w, h, p) + i
  {
  }

  /** Along a row the interleaved layout is contiguous over x and c together. */
  lemma Interleaved(w: nat, h: nat, x: int, y: int, i: int, c: int)
    ensures Index(RGB1, w, h, Coords(x + i, c, y)) == Index(RGB1, w, h, Coords(x, 0, y)) + Slot(3, i, c)
  {
  }

  /** A run of n columns of channel c of row y, from column x. */
  ghost function Run(x: int, n: int, c: int, y: int): (p: Coords -> bool)
  {
    (q: Coords) => q.y == y && q.c == c && x <= q.x < x + n
  }

  /** The source's element of the coordinates. */
  ghost predicate FromSource(j: Job, v: seq<Elem>, e: Elem, p: Coords)
  {
    var k := Index(j.from, j.w, j.h, p);
    0 <= k < |v| && e == v[k]
  }

  /** A run of the source along x from p. */
  ghost predicate Plane(j: Job, v: seq<Elem>, run: seq<Elem>, p: Coords)
  {
    forall i :: 0 <= i < |run| ==> FromSource(j, v, run[i], Coords(p.x + i, p.c, p.y))
  }

  lemma PlaneAt(j: Job, v: seq<Elem>, start: nat, n: nat, p: Coords)
    requires j.from != RGB1 && start == Index(j.from, j.w, j.h, p) && start + n <= |v|
    ensures Plane(j, v, v[start..start + n], p)
  {
    hide Index;
    var run := v[start..start + n];
    forall i | 0 <= i < |run|
      ensures FromSource(j, v, run[i], Coords(p.x + i, p.c, p.y))
    {
      Contiguous(j.from, j.w, j.h, p, i);
    }
  }

  lemma PlaneFrom(j: Job, v: seq<Elem>, run: seq<Elem>, p: Coords, q: Coords)
    requires Plane(j, v, run, p) && q.y == p.y && q.c == p.c && p.x <= q.x < p.x + |run|
    ensures 0 <= Index(j.from, j.w, j.h, q) < |v| && run[q.x - p.x] == v[Index(j.from, j.w, j.h, q)]
    ensures q == Coords(p.x + (q.x - p.x), p.c, p.y)
  {
    hide Index;
    var i := q.x - p.x;
    assert FromSource(j, v, run[i], Coords(p.x + i, p.c, p.y));
    assert Coords(p.x + i, p.c, p.y) == q;
  }

  /** A contiguous run put in place. */
  lemma PutRun(j: Job, v: seq<Elem>, was: seq<Elem>, now: seq<Elem>, run: seq<Elem>, p: Coords)
    requires j.Fits(v, was) && |now| == |was| && j.to != RGB1
    requires Inside(p, j.w, j.h) && p.x + |run| <= j.w
    requires var at := Index(j.to, j.w, j.h, p);
      forall k :: 0 <= k < |now| ==> now[k] == if at <= k < at + |run| then run[k - at] else was[k]
    requires Plane(j, v, run, p)
    ensures Wrote(j, v, was, now, Run(p.x, |run|, p.c, p.y))
  {
    hide CoordsOf, Index, Size, Plane;
    var at := Index(j.to, j.w, j.h, p);
    var r := Run(p.x, |run|, p.c, p.y);
    forall q | Inside(q, j.w, j.h) && r(q) && 0 <= Index(j.to, j.w, j.h, q) < |now|
      ensures 0 <= Index(j.from, j.w, j.h, q) < |v| && now[Index(j.to, j.w, j.h, q)] == v[Index(j.from, j.w, j.h, q)]
    {
      PlaneFrom(j, v, run, p, q);
      Contiguous(j.to, j.w, j.h, p, q.x - p.x);
    }
    forall k | 0 <= k < |now| && !r(CoordsOf(j.to, j.w, j.h, k))
      ensures !(at <= k < at + |run|)
    {
      if at <= k < at + |run| {
        Contiguous(j.to, j.w, j.h, p, k - at);
        IndexOf(j.to, j.w, j.h, Coords(p.x + (k - at), p.c, p.y));
      }
    }
    WroteBy(j, v, was, now, r);
  }

  /** The rest of one channel of one row, from column x0 on. */
  method CopyRun(j: Job, v: seq<Elem>, out: array<Elem>, x0: nat, c: nat, y: nat)
    requires j.Fits(v, out[..]) && x0 < j.w && c < 3 && y < j.h
    modifies out
    ensures Wrote(j, v, old(out[..]), out[..], Run(x0, j.w - x0, c, y))
  {
    hide Index, CoordsOf, Size, Moved, RgbStrides, At;
    var src, dst := RgbStrides(j.from, j.w, j.h), RgbStrides(j.to, j.w, j.h);
    var p := Coords(x0, c, y);
    var s, d := At(src, x0, c, y), At(dst, x0, c, y);
    StridesIndex(j.from, j.w, j.h, x0, c, y);
    StridesIndex(j.to, j.w, j.h, x0, c, y);
    IndexOf(j.from, j.w, j.h, p);
    IndexOf(j.to, j.w, j.h, p);
    ghost var was := out[..];
    if src.x == 1 && dst.x == 1 {
      UnitStrides(j);
      EndOfRun(j.from, j.w, j.h, p);
      EndOfRun(j.to, j.w, j.h, p);
      var run := v[s..s + (j.w - x0)];
      Put(out, d, run);
      PlaneAt(j, v, s, j.w - x0, p);
      PutRun(j, v, was, out[..], run, p);
    } else {
      WroteNothing(j, v, was, Run(x0, 0, c, y));
      for i := 0 to j.w - x0
        invariant Wrote(j, v, was, out[..], Run(x0, i, c, y))
      {
        StridesIndex(j.from, j.w, j.h, x0 + i, c, y);
        StridesIndex(j.to, j.w, j.h, x0 + i, c, y);
        IndexOf(j.from, j.w, j.h, Coords(x0 + i, c, y));
        IndexOf(j.to, j.w, j.h, Coords(x0 + i, c, y));
        ghost var mid := out[..];
        out[At(dst, x0 + i, c, y)] := v[At(src, x0 + i, c, y)];
        PutOne(j, v, mid, out[..], Coords(x0 + i, c, y));
        WroteMore(j, v, was, mid, out[..], Run(x0, i, c, y), Run(x0 + i, 1, c, y), Run(x0, i + 1, c, y));
      }
    }
  }

  lemma UnitStrides(j: Job)
    ensures RgbStrides(j.from, j.w, j.h).x == 1 <==> j.from != RGB1
    ensures RgbStrides(j.to, j.w, j.h).x == 1 <==> j.to != RGB1
    ensures RgbStrides(j.from, j.w, j.h).x == 3 <==> j.from == RGB1
    ensures RgbStrides(j.to, j.w, j.h).x == 3 <==> j.to == RGB1
  {
  }

  /** A row's run ends inside the frame. */
  lemma EndOfRun(m: Mode, w: nat, h: nat, p: Coords)
    requires m != RGB1 && Inside(p, w, h)
    ensures Index(m, w, h, p) + (w - p.x) <= Size(w, h)
  {
    hide Index, CoordsOf, Size;
    Contiguous(m, w, h, p, w - 1 - p.x);
    IndexOf(m, w, h, Coords(w - 1, p.c, p.y));
  }

  lemma PutOne(j: Job, v: seq<Elem>, was: seq<Elem>, now: seq<Elem>, p: Coords)
    requires j.Fits(v, was) && Inside(p, j.w, j.h)
    requires 0 <= Index(j.to, j.w, j.h, p) < |was| && 0 <= Index(j.from, j.w, j.h, p) < |v|
    requires now == was[Index(j.to, j.w, j.h, p) := v[Index(j.from, j.w, j.h, p)]]
    ensures Wrote(j, v, was, now, Run(p.x, 1, p.c, p.y))
  {
    hide CoordsOf, Index, Size;
    var r := Run(p.x, 1, p.c, p.y);
    IndexOf(j.to, j.w, j.h, p);
    forall q | r(q)
      ensures q == p
    {
    }
    WroteBy(j, v, was, now, r);
  }

  /** Rows before y in full and channels before c of row y, from column x0 on. */
  ghost function Rest(x0: int, c: int, y: int): (p: Coords -> bool)
  {
    (q: Coords) => q.x >= x0 && (q.y < y || (q.y == y && q.c < c))
  }

  /** The scalar form, from column x0 of every row on. */
  method ScalarRows(j: Job, v: seq<Elem>, out: array<Elem>, x0: nat)
    requires j.Fits(v, out[..]) && x0 <= j.w
    modifies out
    ensures Wrote(j, v, old(out[..]), out[..], Rest(x0, 0, j.h))
  {
    hide Index, CoordsOf, Size, Moved, Wrote;
    ghost var was := out[..];
    WroteNothing(j, v, was, Rest(x0, 0, 0));
    if x0 == j.w {
      WroteNothing(j, v, was, Rest(x0, 0, j.h));
      return;
    }
    for y := 0 to j.h
      invariant Wrote(j, v, was, out[..], Rest(x0, 0, y))
    {
      for c := 0 to 3
        invariant Wrote(j, v, was, out[..], Rest(x0, c, y))
      {
        ghost var mid := out[..];
        CopyRun(j, v, out, x0, c, y);
        WroteMore(j, v, was, mid, out[..], Rest(x0, c, y), Run(x0, j.w - x0, c, y), Rest(x0, c + 1, y));
      }
      WroteSame(j, v, was, out[..], Rest(x0, 3, y), Rest(x0, 0, y + 1));
    }
  }

  /** Columns before x1 of row y. */
  ghost function Columns(x1: int, y: int): (p: Coords -> bool)
  {
    (q: Coords) => q.y == y && q.x < x1
  }

  /** Columns before x0 of the rows before y. */
  ghost function Above(x0: int, y: int): (p: Coords -> bool)
  {
    (q: Coords) => q.x < x0 && q.y < y
  }

  /** One row of the split: the columns before x0, a vector of pixels at a time. */
  method SplitRow(j: Job, s: Shape, v: seq<Elem>, out: array<Elem>, steps: nat, y: nat)
    requires j.Fits(v, out[..]) && j.from == RGB1 && j.to != RGB1 && y < j.h
    requires s.Valid() && s.N == 3 && Sized(s.e, v) && steps * s.m <= j.w
    modifies out
    ensures Wrote(j, v, old(out[..]), out[..], Columns(steps * s.m, y))
  {
    hide Index, CoordsOf, Size, Moved, Wrote, Sized, Slot, s.Valid;
    ghost var was := out[..];
    WroteNothing(j, v, was, Columns(0, y));
    for i := 0 to steps
      invariant Wrote(j, v, was, out[..], Columns(i * s.m, y))
    {
      MulNonneg(i, s.m);
      MulMono(i + 1, steps, s.m);
      ghost var mid := out[..];
      SplitVector(j, s, v, out, i * s.m, y);
      assert i * s.m + s.m == (i + 1) * s.m;
      WroteMore(j, v, was, mid, out[..], Columns(i * s.m, y), Band(i * s.m, s.m, 3, y), Columns((i + 1) * s.m, y));
    }
  }

  /** The channels before c of n columns of row y from column x. */
  ghost function Band(x: int, n: int, c: int, y: int): (p: Coords -> bool)
  {
    (q: Coords) => q.y == y && x <= q.x < x + n && q.c < c
  }

  lemma SizedPart(e: nat, v: seq<Elem>, a: nat, b: nat)
    requires a <= b <= |v| && Sized(e, v)
    ensures Sized(e, v[a..b])
  {
  }

  /** A plane split from the pixels at `at` is the source's run of that channel. */
  lemma SplitPlane(j: Job, v: seq<Elem>, at: nat, plane: seq<Elem>, p: Coords)
    requires j.from == RGB1 && at == Index(RGB1, j.w, j.h, Coords(p.x, 0, p.y)) && at + 3 * |plane| <= |v| && 0 <= p.c < 3
    requires forall i :: 0 <= i < |plane| ==> plane[i] == v[at..at + 3 * |plane|][Slot(3, i, p.c)]
    ensures Plane(j, v, plane, p)
  {
    hide Index;
    forall i | 0 <= i < |plane|
      ensures FromSource(j, v, plane[i], Coords(p.x + i, p.c, p.y))
    {
      Interleaved(j.w, j.h, p.x, p.y, i, p.c);
    }
  }

  /** One step of the split: a vector of pixels to its three channel runs. */
  method SplitVector(j: Job, s: Shape, v: seq<Elem>, out: array<Elem>, x: nat, y: nat)
    requires j.Fits(v, out[..]) && j.from == RGB1 && j.to != RGB1 && y < j.h
    requires s.Valid() && s.N == 3 && Sized(s.e, v) && x + s.m <= j.w
    modifies out
    ensures Wrote(j, v, old(out[..]), out[..], Band(x, s.m, 3, y))
  {
    hide Index, CoordsOf, Size, Moved, Wrote, Plane, Sized;
    ghost var was := out[..];
    var at := PixelRun(j.from, j.w, j.h, x, s.m, y);
    assert Sized(s.e, v[at..at + 3 * s.m]) by {
      SizedPart(s.e, v, at, at + 3 * s.m);
    }
    var planes := SplitStep(s, v[at..at + 3 * s.m]);
    WroteNothing(j, v, was, Band(x, s.m, 0, y));
    for c := 0 to 3
      invariant Wrote(j, v, was, out[..], Band(x, s.m, c, y))
    {
      var p := Coords(x, c, y);
      IndexOf(j.to, j.w, j.h, p);
      EndOfRun(j.to, j.w, j.h, p);
      ghost var mid := out[..];
      Put(out, Index(j.to, j.w, j.h, p), planes[c]);
      SplitPlane(j, v, at, planes[c], p);
      PutRun(j, v, mid, out[..], planes[c], p);
      WroteMore(j, v, was, mid, out[..], Band(x, s.m, c, y), Run(x, s.m, c, y), Band(x, s.m, c + 1, y));
    }
  }

  /** Where n interleaved pixels of a row start; all their elements are in the frame. */
  function PixelRun(m: Mode, w: nat, h: nat, x: nat, n: nat, y: nat): (at: nat)
    requires m == RGB1 && n > 0 && x + n <= w && y < h
    ensures at == Index(RGB1, w, h, Coords(x, 0, y)) && at + 3 * n <= Size(w, h)
  {
    IndexOf(RGB1, w, h, Coords(x, 0, y));
    IndexOf(RGB1, w, h, Coords(x + n - 1, 2, y));
    Interleaved(w, h, x, y, n - 1, 2);
    Index(m, w, h, Coords(x, 0, y))
  }

  /** A vector of each channel of row y, from column x. */
  method LoadPlanes(j: Job, s: Shape, v: seq<Elem>, x: nat, y: nat) returns (planes: seq<seq<Elem>>)
    requires j.from != RGB1 && y < j.h && s.m > 0 && Sized(s.e, v) && x + s.m <= j.w && |v| >= Size(j.w, j.h)
    ensures |planes| == 3
    ensures forall c :: 0 <= c < 3 ==> |planes[c]| == s.m && Sized(s.e, planes[c]) && Plane(j, v, planes[c], Coords(x, c, y))
  {
    hide Index, CoordsOf, Size, Plane;
    planes := [];
    for c := 0 to 3
      invariant |planes| == c
      invariant forall d :: 0 <= d < c ==> |planes[d]| == s.m && Sized(s.e, planes[d]) && Plane(j, v, planes[d], Coords(x, d, y))
    {
      var p := Coords(x, c, y);
      IndexOf(j.from, j.w, j.h, p);
      EndOfRun(j.from, j.w, j.h, p);
      var start := Index(j.from, j.w, j.h, p);
      PlaneAt(j, v, start, s.m, p);
      planes := planes + [v[start..start + s.m]];
    }
  }

  /** One step of the join: three channel runs to a vector of pixels. */
  method JoinVector(j: Job, s: Shape, v: seq<Elem>, out: array<Elem>, x: nat, y: nat)
    requires j.Fits(v, out[..]) && j.from != RGB1 && j.to == RGB1 && y < j.h
    requires s.Valid() && s.N == 3 && Sized(s.e, v) && x + s.m <= j.w
    modifies out
    ensures Wrote(j, v, old(out[..]), out[..], Band(x, s.m, 3, y))
  {
    hide Index, CoordsOf, Size, Moved, Wrote, Plane, Interleaves, Sized;
    ghost var was := out[..];
    var at := PixelRun(j.to, j.w, j.h, x, s.m, y);
    var planes := LoadPlanes(j, s, v, x, y);
    var run := JoinStep(s, planes);
    Put(out, at, run);
    PutPixels(j, s, v, was, out[..], planes, run, x, y);
  }

  /** A run of whole pixels put in place. */
  lemma PutPixels(j: Job, s: Shape, v: seq<Elem>, was: seq<Elem>, now: seq<Elem>,
                  planes: seq<seq<Elem>>, run: seq<Elem>, x: nat, y: nat)
    requires j.Fits(v, was) && |now| == |was| && j.to == RGB1
    requires s.N == 3 && s.m > 0 && x + s.m <= j.w && y < j.h
    requires |planes| == 3 && forall c :: 0 <= c < 3 ==> |planes[c]| == s.m && Plane(j, v, planes[c], Coords(x, c, y))
    requires |run| == 3 * s.m && Interleaves(s, planes, run)
    requires var at := Index(RGB1, j.w, j.h, Coords(x, 0, y));
      forall k :: 0 <= k < |now| ==> now[k] == if at <= k < at + |run| then run[k - at] else was[k]
    ensures Wrote(j, v, was, now, Band(x, s.m, 3, y))
  {
    hide CoordsOf, Index, Size, Plane, Interleaves;
    var at := Index(RGB1, j.w, j.h, Coords(x, 0, y));
    var r := Band(x, s.m, 3, y);
    forall q | Inside(q, j.w, j.h) && r(q) && 0 <= Index(j.to, j.w, j.h, q) < |now|
      ensures 0 <= Index(j.from, j.w, j.h, q) < |v| && now[Index(j.to, j.w, j.h, q)] == v[Index(j.from, j.w, j.h, q)]
    {
      PixelFrom(j, s, v, planes, run, x, q);
      Interleaved(j.w, j.h, x, y, q.x - x, q.c);
    }
    forall k | 0 <= k < |now| && at <= k < at + |run|
      ensures r(CoordsOf(j.to, j.w, j.h, k))
    {
      var i, c := (k - at) / 3, (k - at) % 3;
      Interleaved(j.w, j.h, x, y, i, c);
      IndexOf(RGB1, j.w, j.h, Coords(x + i, c, y));
    }
    WroteBy(j, v, was, now, r);
  }

  /** The joined run holds the source element of every coordinate it covers. */
  lemma PixelFrom(j: Job, s: Shape, v: seq<Elem>, planes: seq<seq<Elem>>, run: seq<Elem>, x: nat, q: Coords)
    requires s.N == 3 && s.m > 0 && x <= q.x < x + s.m && 0 <= q.c < 3
    requires |planes| == 3 && forall c :: 0 <= c < 3 ==> |planes[c]| == s.m && Plane(j, v, planes[c], Coords(x, c, q.y))
    requires |run| == 3 * s.m && Interleaves(s, planes, run)
    ensures 0 <= Slot(3, q.x - x, q.c) < |run| && 0 <= Index(j.from, j.w, j.h, q) < |v|
    ensures run[Slot(3, q.x - x, q.c)] == v[Index(j.from, j.w, j.h, q)]
  {
    hide Index, Plane;
    var i := q.x - x;
    var z := Slot(3, i, q.c);
    assert z / s.N == i && z % s.N == q.c;
    assert run[z] == planes[q.c][i];
    PlaneFrom(j, v, planes[q.c], Coords(x, q.c, q.y), q);
  }

  /** One row of the join. */
  method JoinRow(j: Job, s: Shape, v: seq<Elem>, out: array<Elem>, steps: nat, y: nat)
    requires j.Fits(v, out[..]) && j.from != RGB1 && j.to == RGB1 && y < j.h
    requires s.Valid() && s.N == 3 && Sized(s.e, v) && steps * s.m <= j.w
    modifies out
    ensures Wrote(j, v, old(out[..]), out[..], Columns(steps * s.m, y))
  {
    hide Index, CoordsOf, Size, Moved, Wrote, Sized, s.Valid;
    ghost var was := out[..];
    WroteNothing(j, v, was, Columns(0, y));
    for i := 0 to steps
      invariant Wrote(j, v, was, out[..], Columns(i * s.m, y))
    {
      MulNonneg(i, s.m);
      MulMono(i + 1, steps, s.m);
      ghost var mid := out[..];
      JoinVector(j, s, v, out, i * s.m, y);
      assert i * s.m + s.m == (i + 1) * s.m;
      WroteMore(j, v, was, mid, out[..], Columns(i * s.m, y), Band(i * s.m, s.m, 3, y), Columns((i + 1) * s.m, y));
    }
  }

  /** The lane form: the columns of every row that whole vectors reach, none when neither side is interleaved. */
  method LaneRows(j: Job, s: Shape, v: seq<Elem>, out: array<Elem>) returns (x0: nat)
    requires j.Fits(v, out[..]) && s.Valid() && s.N == 3 && Sized(s.e, v)
    modifies out
    ensures x0 <= j.w && Wrote(j, v, old(out[..]), out[..], Above(x0, j.h))
    ensures (j.from == RGB1) != (j.to == RGB1) ==> j.w - x0 < s.m
  {
    hide Index, CoordsOf, Size, Moved, Wrote, Sized;
    ghost var was := out[..];
    UnitStrides(j);
    var src, dst := RgbStrides(j.from, j.w, j.h), RgbStrides(j.to, j.w, j.h);
    var steps := j.w / s.m;
    x0 := steps * s.m;
    if src.x == 3 && dst.x == 1 {
      WroteNothing(j, v, was, Above(x0, 0));
      for y := 0 to j.h
        invariant Wrote(j, v, was, out[..], Above(x0, y))
      {
        ghost var mid := out[..];
        SplitRow(j, s, v, out, steps, y);
        WroteMore(j, v, was, mid, out[..], Above(x0, y), Columns(x0, y), Above(x0, y + 1));
      }
    } else if src.x == 1 && dst.x == 3 {
      WroteNothing(j, v, was, Above(x0, 0));
      for y := 0 to j.h
        invariant Wrote(j, v, was, out[..], Above(x0, y))
      {
        ghost var mid := out[..];
        JoinRow(j, s, v, out, steps, y);
        WroteMore(j, v, was, mid, out[..], Above(x0, y), Columns(x0, y), Above(x0, y + 1));
      }
    } else {
      x0 := 0;
      WroteNothing(j, v, was, Above(0, j.h));
    }
  }

  /** The two forms together: every element of the target, each by exactly one of them. */
  method LayoutRows(j: Job, s: Shape, v: seq<Elem>, out: array<Elem>)
    requires j.Fits(v, out[..]) && s.Valid() && s.N == 3 && Sized(s.e, v)
    modifies out
    ensures out[..] == Relaid(v, j.from, j.to, j.w, j.h)
  {
    hide Index, CoordsOf, Size, Moved, Wrote, Sized;
    ghost var was := out[..];
    var x0 := LaneRows(j, s, v, out);
    ghost var mid := out[..];
    ScalarRows(j, v, out, x0);
    WroteMore(j, v, was, mid, out[..], Above(x0, j.h), Rest(x0, 0, j.h), Everywhere());
    WroteAll(j, v, was, out[..], Everywhere());
  }

  ghost function Everywhere(): (p: Coords -> bool)
  {
    (q: Coords) => true
  }

  /** Width, height and color size a source's dimensions say, by its layout. */
  function Sizes(m: Mode, dims: seq<nat>): (s: (nat, nat, nat))
    requires |dims| == 3
  {
    match m
    case RGB1 => (dims[1], dims[2], dims[0])
    case RGB2 => (dims[0], dims[2], dims[1])
    case RGB3 => (dims[0], dims[1], dims[2])
  }

  /**
   The conversion between color modes, None for one that is not RGB: refused unless the
   source has three dimensions and three colors and both modes are RGB, in that order
   of complaint.
   */
  method ConvertRgbLayout(dims: seq<nat>, v: seq<Elem>, from: Option<Mode>, to: Option<Mode>, s: Shape)
    returns (r: Result<(seq<nat>, seq<Elem>), ConvertError>)
    requires s.Valid() && s.N == 3 && Sized(s.e, v)
    requires |dims| == 3 ==> |v| >= dims[0] * (dims[1] * dims[2])
    ensures r.Ok? <==> |dims| == 3 && from.Some? && to.Some? && Sizes(from.value, dims).2 == 3
    ensures r.Ok? ==> var (w, h, _) := Sizes(from.value, dims);
      dims == MakeDims(from.value, w, h) && r.value == (MakeDims(to.value, w, h), Relaid(v, from.value, to.value, w, h))
    ensures r.Err? ==> (r.error == UnsupportedConversion <==>
      |dims| == 3 && (from.None? || (Sizes(from.value, dims).2 == 3 && to.None?)))
  {
    if |dims| != 3 {
      return Err(InvalidDimensions);
    }
    if from.None? {
      return Err(UnsupportedConversion);
    }
    var (w, h, color) := Sizes(from.value, dims);
    if color != 3 {
      return Err(InvalidDimensions);
    }
    if to.None? {
      return Err(UnsupportedConversion);
    }
    FrameSize(from.value, dims);
    MulNonneg(w, h);
    var out := new Elem[Size(w, h)];
    if w > 0 && h > 0 {
      LayoutRows(Job(from.value, to.value, w, h), s, v, out);
    }
    assert out[..] == Relaid(v, from.value, to.value, w, h);
    r := Ok((MakeDims(to.value, w, h), out[..]));
  }

  lemma FrameSize(m: Mode, dims: seq<nat>)
    requires |dims| == 3 && Sizes(m, dims).2 == 3
    ensures Size(Sizes(m, dims).0, Sizes(m, dims).1) == dims[0] * (dims[1] * dims[2])
    ensures Sizes(m, dims).0 == 0 || Sizes(m, dims).1 == 0 ==> Size(Sizes(m, dims).0, Sizes(m, dims).1) == 0
  {
    match m
    case RGB1 =>
    case RGB2 =>
      Rotate(dims[0], 3, dims[2]);
    case RGB3 =>
      Rotate3(dims[0], dims[1], 3);
  }
}
