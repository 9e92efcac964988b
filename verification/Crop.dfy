/** Cropping a region of a color frame by copying runs, which is the general conversion on that region. */
module Crop {
  import opened Wrappers
  import opened Arith
  import opened Arrays
  import opened Sums
  import opened ElementTypes
  import opened ConvertSpec
  import opened Convert
  import opened RgbLayout

  /** A frame's color layout; None is Mono and every mode that is laid out like it. */
  datatype ColorLayout = ColorLayout(mode: Option<Mode>, w: nat, h: nat)

  function IndexIn(l: ColorLayout, x: nat, y: nat, c: nat): (k: int)
  {
    match l.mode
    case None => y * l.w + x
    case Some(m) => LayoutIndex(m, l.w, l.h, x, y, c)
  }

  function SizesOf(l: ColorLayout): (dims: seq<nat>)
    ensures |dims| == if l.mode.None? then 2 else 3
  {
    match l.mode
    case None => [l.w, l.h]
    case Some(m) => MakeDims(m, l.w, l.h)
  }

  /** A plain dimension. */
  function NewDim(size: nat): (d: Dim)
  {
    Dim(size, 0, 1, false)
  }

  function NewDims(l: ColorLayout): (dims: seq<Dim>)
    ensures |dims| == |SizesOf(l)| && forall i :: 0 <= i < |dims| ==> dims[i] == NewDim(SizesOf(l)[i])
  {
    seq(|SizesOf(l)|, i requires 0 <= i < |SizesOf(l)| => NewDim(SizesOf(l)[i]))
  }

  datatype Region = Region(x: nat, y: nat, sx: nat, sy: nat)

  /** The region cut back to the frame. */
  function Clamped(l: ColorLayout, r: Region): (c: Region)
    ensures c.x + c.sx <= l.w && c.y + c.sy <= l.h
  {
    var x, y := Min(r.x, l.w), Min(r.y, l.h);
    Region(x, y, Min(r.sx, l.w - x), Min(r.sy, l.h - y))
  }

  predicate Covers(r: Region, x: int, y: int)
  {
    r.x <= x < r.x + r.sx && r.y <= y < r.y + r.sy
  }

  /** The clamped region covers exactly the requested pixels that the frame has. */
  lemma ClampedCovers(l: ColorLayout, r: Region, x: int, y: int)
    ensures Covers(Clamped(l, r), x, y) <==> Covers(r, x, y) && x < l.w && y < l.h
  {
  }

  /** The dimensions x and y run along. */
  function XDim(l: ColorLayout): (i: nat)
    ensures i < |SizesOf(l)|
  {
    if l.mode == Some(RGB1) then 1 else 0
  }

  function YDim(l: ColorLayout): (i: nat)
    ensures i < |SizesOf(l)|
  {
    if l.mode == Some(RGB1) || l.mode == Some(RGB2) then 2 else 1
  }

  /** The layout of the cropped frame. */
  function Target(l: ColorLayout, r: Region): (d: ColorLayout)
  {
    ColorLayout(l.mode, r.sx, r.sy)
  }

  /** The region as a conversion request. */
  function Request(l: ColorLayout, r: Region): (dims: seq<Dim>)
    ensures |dims| == |SizesOf(l)|
  {
    var d := NewDims(Target(l, r));
    d[XDim(l) := d[XDim(l)].(offset := r.x)][YDim(l) := d[YDim(l)].(offset := r.y)]
  }

  /** The request paired with the frame's own sizes. */
  function RegionAxes(l: ColorLayout, r: Region): (xs: seq<Axis>)
    ensures |xs| == |SizesOf(l)| && forall i :: 0 <= i < |xs| ==> xs[i] == Axis(SizesOf(l)[i], Request(l, r)[i])
  {
    seq(|SizesOf(l)|, i requires 0 <= i < |SizesOf(l)| => Axis(SizesOf(l)[i], Request(l, r)[i]))
  }

  /** A region inside the frame with something in it. */
  ghost predicate Within(l: ColorLayout, r: Region)
  {
    r.sx > 0 && r.sy > 0 && r.x + r.sx <= l.w && r.y + r.sy <= l.h
  }

  // ---- an unbinned, unmirrored conversion picks single elements

  ghost predicate Plain(x: Axis)
  {
    Fits(x) && x.req.binning == 1 && !x.req.reverse
  }

  /** The source element of output element k. */
  function SourceOf(xs: seq<Axis>, k: int, base: int): (i: int)
  {
    if |xs| == 0 then base
    else
      var n := |xs| - 1;
      var p := Count(xs[..n]);
      if p == 0 then 0
      else SourceOf(xs[..n], k % p, SlabAt(base, xs[n].req.offset + k / p, Total(xs[..n])))
  }

  lemma {:induction false} PlainPixel(a: int -> int, xs: seq<Axis>, k: int, base: int)
    requires forall i :: 0 <= i < |xs| ==> Plain(xs[i])
    requires 0 <= k < Count(xs)
    ensures Pixel(a, xs, k, base) == a(SourceOf(xs, k, base))
    decreases |xs|
  {
    if |xs| > 0 {
      var n := |xs| - 1;
      var p, s, d := Count(xs[..n]), Total(xs[..n]), xs[n].req;
      CountPositive(xs[..n]);
      Digits(k, p, Out(d));
      var f := (w: int) => Pixel(a, xs[..n], k % p, SlabAt(base, Coord(d, k / p, w), s));
      assert Plain(xs[n]);
      assert Bin(d) == 1 && Coord(d, k / p, 0) == d.offset + k / p;
      hide Out, Coord, Count, Total;
      assert Sum(1, f) == f(0) by {
        assert Sum(0, f) == 0;
      }
      SumCongr(1, f, w => Pixel(a, xs[..n], k % p, SlabAt(base, Coord(d, k / p, w), s)));
      PlainPixel(a, xs[..n], k % p, SlabAt(base, d.offset + k / p, s));
    }
  }

  /** The elements of two dimensions. */
  lemma Plain2(xs: seq<Axis>, k: int)
    requires |xs| == 2 && Plain(xs[0]) && Plain(xs[1])
    ensures Count(xs) == xs[0].req.size * xs[1].req.size && xs[0].req.size > 0
    ensures var n := xs[0].req.size;
      SourceOf(xs, k, 0) == (xs[1].req.offset + k / n) * xs[0].len + (xs[0].req.offset + k % n)
  {
    assert xs[..1][..0] == [];
    assert Count(xs[..1]) == xs[0].req.size && Total(xs[..1]) == xs[0].len;
    var n := xs[0].req.size;
    var b := SlabAt(0, xs[1].req.offset + k / n, xs[0].len);
    assert SourceOf(xs[..1], k % n, b) == SourceOf(xs[..1][..0], (k % n) % 1, SlabAt(b, xs[0].req.offset + k % n, 1));
  }

  lemma Extents(xs: seq<Axis>)
    requires |xs| == 3 && Plain(xs[0]) && Plain(xs[1]) && Plain(xs[2])
    ensures Count(xs[..1]) == xs[0].req.size && Total(xs[..1]) == xs[0].len
    ensures Count(xs[..2]) == xs[0].req.size * xs[1].req.size && Total(xs[..2]) == xs[0].len * xs[1].len
    ensures Count(xs) == xs[0].req.size * xs[1].req.size * xs[2].req.size
  {
    assert xs[..2][..1] == xs[..1] && xs[..1][..0] == [];
  }

  /** The elements of three dimensions. */
  lemma Plain3(xs: seq<Axis>, i: int, j: int, l: int)
    requires |xs| == 3 && Plain(xs[0]) && Plain(xs[1]) && Plain(xs[2])
    requires 0 <= i < xs[0].req.size && 0 <= j < xs[1].req.size
    ensures Count(xs) == xs[0].req.size * xs[1].req.size * xs[2].req.size
    ensures SourceOf(xs, Pack(xs[0].req.size, xs[1].req.size, i, j, l), 0)
         == Pack(xs[0].len, xs[1].len, xs[0].req.offset + i, xs[1].req.offset + j, xs[2].req.offset + l)
  {
    hide Plain, Count, Total, SourceOf;
    Extents(xs);
    assert xs[..2][..1] == xs[..1];
    var n, m := xs[0].req.size, xs[1].req.size;
    Spread(l, m, j, n);
    Compose(j, i, n, m);
    SourceStep(xs, l, j * n + i, 0);
    var b := SlabAt(0, xs[2].req.offset + l, xs[0].len * xs[1].len);
    SourceStep(xs[..2], j, i, b);
    var b' := SlabAt(b, xs[1].req.offset + j, xs[0].len);
    Source1(xs[..1], i, b');
    Spread(xs[2].req.offset + l, xs[1].len, xs[1].req.offset + j, xs[0].len);
  }

  /** The outermost dimension picks its slab. */
  lemma SourceStep(xs: seq<Axis>, q: int, k: int, base: int)
    requires |xs| > 0 && 0 <= k < Count(xs[..|xs| - 1])
    ensures var n := |xs| - 1;
      SourceOf(xs, q * Count(xs[..n]) + k, base)
        == SourceOf(xs[..n], k, SlabAt(base, xs[n].req.offset + q, Total(xs[..n])))
  {
    DivModUnique(q, k, Count(xs[..|xs| - 1]));
  }

  lemma Source1(xs: seq<Axis>, k: int, base: int)
    requires |xs| == 1
    ensures SourceOf(xs, k, base) == SlabAt(base, xs[0].req.offset + k, 1)
  {
    assert SourceOf(xs, k, base) == SourceOf(xs[..0], k % 1, SlabAt(base, xs[0].req.offset + k / 1, Total(xs[..0])));
  }

  // ---- the runs: one per row of the region, per color plane where colors are apart

  function Planes(l: ColorLayout): (n: nat)
  {
    if l.mode.None? || l.mode == Some(RGB1) then 1 else 3
  }

  function RunLen(l: ColorLayout, r: Region): (n: nat)
  {
    if l.mode == Some(RGB1) then 3 * r.sx else r.sx
  }

  /** The place in the target of the run of row y and plane c, counted in runs. */
  function RunIndex(l: ColorLayout, r: Region, y: int, c: int): (n: int)
  {
    match l.mode
    case None => y
    case Some(RGB1) => y
    case Some(RGB2) => y * 3 + c
    case Some(RGB3) => c * r.sy + y
  }

  /** The row and plane of the n-th run of the target. */
  function RunRow(l: ColorLayout, r: Region, n: int): (y: int)
    requires r.sy > 0
  {
    match l.mode
    case None => n
    case Some(RGB1) => n
    case Some(RGB2) => n / 3
    case Some(RGB3) => n % r.sy
  }

  function RunPlane(l: ColorLayout, r: Region, n: int): (c: int)
    requires r.sy > 0
  {
    match l.mode
    case None => 0
    case Some(RGB1) => 0
    case Some(RGB2) => n % 3
    case Some(RGB3) => n / r.sy
  }

  /** The runs of a region, as many as rows and planes. */
  function Runs(l: ColorLayout, r: Region): (n: nat)
  {
    Planes(l) * r.sy
  }

  lemma RunOf(l: ColorLayout, r: Region, y: int, c: int)
    requires 0 <= y < r.sy && 0 <= c < Planes(l)
    ensures 0 <= RunIndex(l, r, y, c) < Runs(l, r)
    ensures RunRow(l, r, RunIndex(l, r, y, c)) == y && RunPlane(l, r, RunIndex(l, r, y, c)) == c
  {
    if l.mode == Some(RGB3) {
      Compose(c, y, r.sy, 3);
    }
  }

  lemma RunBack(l: ColorLayout, r: Region, n: int)
    requires r.sy > 0 && 0 <= n < Runs(l, r)
    ensures 0 <= RunRow(l, r, n) < r.sy && 0 <= RunPlane(l, r, n) < Planes(l)
    ensures RunIndex(l, r, RunRow(l, r, n), RunPlane(l, r, n)) == n
  {
    if l.mode == Some(RGB3) {
      Digits(n, r.sy, 3);
    }
  }

  /** A run starts in the target where the runs before it end. */
  lemma TargetAt(l: ColorLayout, r: Region, y: nat, c: nat)
    requires c < Planes(l)
    ensures IndexIn(Target(l, r), 0, y, c) == RunIndex(l, r, y, c) * RunLen(l, r)
  {
    match l.mode
    case None =>
    case Some(RGB1) =>
      Distributes(y, r.sx, 3);
    case Some(RGB2) =>
      Spread(y, 3, c, r.sx);
      Distributes(y, r.sx, 3);
    case Some(RGB3) =>
      Spread(c, r.sy, y, r.sx);
      Distributes(c, r.sx, r.sy);
  }

  /** Where the n-th run is copied from. */
  function RunStart(l: ColorLayout, r: Region, n: int): (k: int)
    requires r.sy > 0
  {
    var y, c := RunRow(l, r, n), RunPlane(l, r, n);
    if y >= 0 && c >= 0 then IndexIn(l, r.x, r.y + y, c) else 0
  }

  /** The elements of a frame. */
  function Elements(l: ColorLayout): (n: int)
  {
    if l.mode.None? then l.w * l.h else Size(l.w, l.h)
  }

  /** Every run is read from inside the frame. */
  lemma RunInside(l: ColorLayout, r: Region, n: int)
    requires Within(l, r) && 0 <= n < Runs(l, r)
    ensures 0 <= RunStart(l, r, n) && RunStart(l, r, n) + RunLen(l, r) <= Elements(l)
  {
    RunBack(l, r, n);
    var y, c := RunRow(l, r, n), RunPlane(l, r, n);
    hide RunRow, RunPlane, Runs;
    match l.mode
    case None =>
      Compose(r.y + y, r.x, l.w, l.h);
      Compose(r.y + y, r.x + r.sx - 1, l.w, l.h);
    case Some(m) =>
      hide Index, CoordsOf, Size;
      var d := if m == RGB1 then 2 else c;
      StridesAgree(m, l.w, l.h, r.x, r.y + y, c);
      StridesIndex(m, l.w, l.h, r.x, c, r.y + y);
      IndexOf(m, l.w, l.h, Coords(r.x, c, r.y + y));
      IndexOf(m, l.w, l.h, Coords(r.x + r.sx - 1, d, r.y + y));
      LastOfRun(m, l.w, l.h, r.x, r.sx, r.y + y, c, d);
  }

  lemma LastOfRun(m: Mode, w: nat, h: nat, x: int, n: int, y: int, c: int, d: int)
    requires if m == RGB1 then c == 0 && d == 2 else d == c
    ensures Index(m, w, h, Coords(x + n - 1, d, y)) + 1 == Index(m, w, h, Coords(x, c, y)) + if m == RGB1 then 3 * n else n
  {
  }

  /** The cropped data: run after run. */
  function Cropped(v: seq<int>, l: ColorLayout, r: Region): (out: seq<int>)
    requires r.sx > 0 && r.sy > 0
  {
    MulNonneg(Runs(l, r), RunLen(l, r));
    seq(Runs(l, r) * RunLen(l, r), k => ConvertSpec.At(v)(RunStart(l, r, k / RunLen(l, r)) + k % RunLen(l, r)))
  }

  // ---- the runs are the conversion

  lemma AxesPlain(l: ColorLayout, r: Region)
    requires Within(l, r)
    ensures forall i :: 0 <= i < |SizesOf(l)| ==> Plain(RegionAxes(l, r)[i])
  {
    var xs := RegionAxes(l, r);
    forall i | 0 <= i < |SizesOf(l)|
      ensures Plain(xs[i])
    {
      var d := xs[i].req;
      assert d.binning == 1 && !d.reverse;
      assert Out(d) == d.size;
    }
  }

  ghost predicate InRun(l: ColorLayout, r: Region, n: int, i: int)
  {
    Within(l, r) && 0 <= n < Runs(l, r) && 0 <= i < RunLen(l, r)
  }

  /** Run n of the target holds, element by element, what the conversion puts there. */
  ghost predicate RunHolds(l: ColorLayout, r: Region, n: int, i: int)
    requires Within(l, r)
  {
    && Count(RegionAxes(l, r)) == Runs(l, r) * RunLen(l, r)
    && SourceOf(RegionAxes(l, r), n * RunLen(l, r) + i, 0) == RunStart(l, r, n) + i
  }

  lemma RunMono(l: ColorLayout, r: Region, n: int, i: int)
    requires InRun(l, r, n, i) && l.mode == None
    ensures RunHolds(l, r, n, i)
  {
    AxesPlain(l, r);
    var xs := RegionAxes(l, r);
    assert xs[0].len == l.w && xs[0].req.size == r.sx && xs[0].req.offset == r.x;
    assert xs[1].req.size == r.sy && xs[1].req.offset == r.y;
    hide Count, SourceOf, Plain, Request, SizesOf;
    DivModUnique(n, i, r.sx);
    Plain2(xs, n * r.sx + i);
    Commutes(r.sx, r.sy);
  }

  lemma RunRgb1(l: ColorLayout, r: Region, n: int, i: int)
    requires InRun(l, r, n, i) && l.mode == Some(RGB1)
    ensures RunHolds(l, r, n, i)
  {
    AxesPlain(l, r);
    hide Count, SourceOf, Plain;
    var xs := RegionAxes(l, r);
    assert xs[0] == Axis(3, NewDim(3)) && xs[1].req.size == r.sx && xs[2].req.size == r.sy;
    Plain3(xs, i % 3, i / 3, n);
    Distributes(n, r.sx, 3);
    Products(3, r.sx, r.sy);
    assert Pack(3, r.sx, i % 3, i / 3, n) == n * (3 * r.sx) + i;
  }

  lemma RunRgb2(l: ColorLayout, r: Region, n: int, i: int)
    requires InRun(l, r, n, i) && l.mode == Some(RGB2)
    ensures RunHolds(l, r, n, i)
  {
    AxesPlain(l, r);
    hide Count, SourceOf, Plain;
    var xs := RegionAxes(l, r);
    var y, c := n / 3, n % 3;
    assert xs[1] == Axis(3, NewDim(3)) && xs[0].req.size == r.sx && xs[2].req.size == r.sy;
    Plain3(xs, i, c, y);
    Spread(r.y + y, 3, c, l.w);
    Distributes(r.y + y, l.w, 3);
    Products(r.sx, 3, r.sy);
  }

  lemma RunRgb3(l: ColorLayout, r: Region, n: int, i: int)
    requires InRun(l, r, n, i) && l.mode == Some(RGB3)
    ensures RunHolds(l, r, n, i)
  {
    RunBack(l, r, n);
    AxesPlain(l, r);
    hide Count, SourceOf, Plain;
    var xs := RegionAxes(l, r);
    var y, c := n % r.sy, n / r.sy;
    assert xs[2] == Axis(3, NewDim(3)) && xs[0].req.size == r.sx && xs[1].req.size == r.sy;
    Plain3(xs, i, y, c);
    Spread(c, l.h, r.y + y, l.w);
    Distributes(c, l.w, l.h);
    Products(r.sx, r.sy, 3);
  }

  lemma RunSource(l: ColorLayout, r: Region, n: int, i: int)
    requires InRun(l, r, n, i)
    ensures RunHolds(l, r, n, i)
  {
    hide InRun, RunHolds;
    match l.mode
    case None =>
      RunMono(l, r, n, i);
    case Some(RGB1) =>
      RunRgb1(l, r, n, i);
    case Some(RGB2) =>
      RunRgb2(l, r, n, i);
    case Some(RGB3) =>
      RunRgb3(l, r, n, i);
  }

  lemma Products(a: int, b: int, c: int)
    ensures a * b * c == (b * c) * a && a * b * c == c * (a * b)
  {
  }

  /** Copying the runs of a region gives the same data as converting it. */
  lemma CroppedIsConverted(t: IntType, v: seq<int>, l: ColorLayout, r: Region)
    requires Within(l, r) && |v| >= Elements(l) && forall i :: 0 <= i < |v| ==> ElementTypes.InRange(t, v[i])
    ensures Cropped(v, l, r) == Converted(t, v, RegionAxes(l, r))
  {
    hide Count, SourceOf, Runs, RunLen, RunStart, RegionAxes, Elements, Wrap;
    var xs, len := RegionAxes(l, r), RunLen(l, r);
    AxesPlain(l, r);
    assert len > 0 && Runs(l, r) > 0 by {
      Nonempty(l, r);
    }
    RunSource(l, r, 0, 0);
    forall k | 0 <= k < Runs(l, r) * len
      ensures Wrap(t, Pixel(ConvertSpec.At(v), xs, k, 0)) == ConvertSpec.At(v)(RunStart(l, r, k / len) + k % len)
    {
      Commutes(Runs(l, r), len);
      Digits(k, len, Runs(l, r));
      RunSource(l, r, k / len, k % len);
      PlainPixel(ConvertSpec.At(v), xs, k, 0);
      RunInside(l, r, k / len);
      WrapInRange(t, v[RunStart(l, r, k / len) + k % len]);
    }
  }

  lemma Nonempty(l: ColorLayout, r: Region)
    requires Within(l, r)
    ensures RunLen(l, r) > 0 && Runs(l, r) > 0
  {
  }


  /** Runs of rows before y, and of row y those of planes before c. */
  ghost predicate Before(l: ColorLayout, r: Region, n: int, y: int, c: int)
    requires r.sy > 0
  {
    RunRow(l, r, n) < y || (RunRow(l, r, n) == y && RunPlane(l, r, n) < c)
  }

  /** The elements of the runs copied so far. */
  ghost predicate CopiedSoFar(v: seq<int>, l: ColorLayout, r: Region, out: seq<int>, y: int, c: int)
    requires r.sx > 0 && r.sy > 0 && RunLen(l, r) > 0 && |out| == |Cropped(v, l, r)|
  {
    forall k :: 0 <= k < |out| && Before(l, r, k / RunLen(l, r), y, c) ==> out[k] == Cropped(v, l, r)[k]
  }

  /** The copy loop: every element of the target, each run from where it lies in the frame. */
  method CopyRuns(v: seq<int>, l: ColorLayout, r: Region, out: array<int>)
    requires Within(l, r) && |v| >= Elements(l) && out.Length == Runs(l, r) * RunLen(l, r)
    modifies out
    ensures out[..] == Cropped(v, l, r)
  {
    hide RunIndex, RunRow, RunPlane, RunLen, Runs, IndexIn, RunStart, Elements, Cropped, Before, CopiedSoFar;
    ghost var want := Cropped(v, l, r);
    var len := RunLen(l, r);
    Nonempty(l, r);
    CroppedLength(v, l, r);
    NothingCopied(v, l, r, out[..]);
    for y := 0 to r.sy
      invariant CopiedSoFar(v, l, r, out[..], y, 0)
    {
      for c := 0 to Planes(l)
        invariant CopiedSoFar(v, l, r, out[..], y, c)
      {
        var s, d := IndexIn(l, r.x, r.y + y, c), IndexIn(Target(l, r), 0, y, c);
        OneRun(v, l, r, y, c);
        ghost var mid := out[..];
        Put(out, d, v[s..s + len]);
        RunCopied(v, l, r, mid, out[..], y, c);
      }
      RowCopied(v, l, r, out[..], y);
    }
    AllCopied(v, l, r, out[..]);
  }

  lemma CroppedLength(v: seq<int>, l: ColorLayout, r: Region)
    requires r.sx > 0 && r.sy > 0
    ensures |Cropped(v, l, r)| == Runs(l, r) * RunLen(l, r)
  {
  }

  lemma CroppedAt(v: seq<int>, l: ColorLayout, r: Region, k: int)
    requires r.sx > 0 && r.sy > 0 && RunLen(l, r) > 0 && 0 <= k < |Cropped(v, l, r)|
    ensures Cropped(v, l, r)[k] == ConvertSpec.At(v)(RunStart(l, r, k / RunLen(l, r)) + k % RunLen(l, r))
  {
  }

  lemma SameRun(a: seq<int>, d: nat, b: seq<int>, s: nat, n: nat)
    requires d + n <= |a| && s + n <= |b| && forall k :: d <= k < d + n ==> a[k] == b[s + (k - d)]
    ensures a[d..d + n] == b[s..s + n]
  {
  }

  /** The n-th run is read from inside the frame and is that run of the target. */
  lemma OneRunAt(v: seq<int>, l: ColorLayout, r: Region, n: int)
    requires Within(l, r) && |v| >= Elements(l) && 0 <= n < Runs(l, r)
    ensures var s, d, len := RunStart(l, r, n), n * RunLen(l, r), RunLen(l, r);
      && len > 0 && 0 <= s && s + len <= |v| && 0 <= d && d + len <= |Cropped(v, l, r)|
      && Cropped(v, l, r)[d..d + len] == v[s..s + len]
      && forall k :: d <= k < d + len ==> k / len == n
  {
    Nonempty(l, r);
    RunInside(l, r, n);
    RunFits(v, l, r, n);
    hide RunIndex, RunRow, RunPlane, RunLen, Runs, IndexIn, RunStart, Elements, Cropped;
    var s, d, len, want := RunStart(l, r, n), n * RunLen(l, r), RunLen(l, r), Cropped(v, l, r);
    forall k | d <= k < d + len
      ensures want[k] == v[s + (k - d)]
    {
      RunElement(v, l, r, n, k - d);
    }
    SameRun(want, d, v, s, len);
    Quotients(n, len);
  }

  lemma Quotients(n: int, len: int)
    requires len > 0
    ensures forall k :: n * len <= k < n * len + len ==> k / len == n
  {
    forall k | n * len <= k < n * len + len
      ensures k / len == n
    {
      DivModUnique(n, k - n * len, len);
    }
  }

  lemma RunFits(v: seq<int>, l: ColorLayout, r: Region, n: int)
    requires Within(l, r) && 0 <= n < Runs(l, r)
    ensures 0 <= n * RunLen(l, r) && n * RunLen(l, r) + RunLen(l, r) <= |Cropped(v, l, r)|
  {
    CroppedLength(v, l, r);
    hide RunLen, Runs, Cropped;
    MulNonneg(n, RunLen(l, r));
    MulMono(n + 1, Runs(l, r), RunLen(l, r));
  }

  lemma RunElement(v: seq<int>, l: ColorLayout, r: Region, n: int, i: int)
    requires Within(l, r) && |v| >= Elements(l) && 0 <= n < Runs(l, r) && 0 <= i < RunLen(l, r)
    ensures 0 <= n * RunLen(l, r) + i < |Cropped(v, l, r)| && 0 <= RunStart(l, r, n) + i < |v|
    ensures Cropped(v, l, r)[n * RunLen(l, r) + i] == v[RunStart(l, r, n) + i]
  {
    RunInside(l, r, n);
    RunFits(v, l, r, n);
    hide RunLen, Runs, Cropped, RunStart, Elements;
    DivModUnique(n, i, RunLen(l, r));
    CroppedAt(v, l, r, n * RunLen(l, r) + i);
  }

  /** The run of row y and plane c is inside frame and target, and is what belongs there. */
  lemma OneRun(v: seq<int>, l: ColorLayout, r: Region, y: nat, c: nat)
    requires Within(l, r) && |v| >= Elements(l) && y < r.sy && c < Planes(l)
    ensures var s, d, len := IndexIn(l, r.x, r.y + y, c), IndexIn(Target(l, r), 0, y, c), RunLen(l, r);
      && len > 0 && 0 <= s && s + len <= |v| && 0 <= d && d + len <= |Cropped(v, l, r)|
      && Cropped(v, l, r)[d..d + len] == v[s..s + len]
      && forall k :: d <= k < d + len ==> k / len == RunIndex(l, r, y, c)
  {
    hide RunIndex, RunRow, RunPlane, RunLen, Runs, IndexIn, Elements, Cropped;
    RunOf(l, r, y, c);
    TargetAt(l, r, y, c);
    OneRunAt(v, l, r, RunIndex(l, r, y, c));
  }

  lemma NothingCopied(v: seq<int>, l: ColorLayout, r: Region, out: seq<int>)
    requires r.sx > 0 && r.sy > 0 && RunLen(l, r) > 0 && |out| == |Cropped(v, l, r)|
    ensures CopiedSoFar(v, l, r, out, 0, 0)
  {
    CroppedLength(v, l, r);
    hide RunIndex, RunRow, RunPlane, RunLen, Runs, Cropped;
    forall k | 0 <= k < |out|
      ensures !Before(l, r, k / RunLen(l, r), 0, 0)
    {
      Commutes(Runs(l, r), RunLen(l, r));
      Digits(k, RunLen(l, r), Runs(l, r));
      RunBack(l, r, k / RunLen(l, r));
    }
  }

  /** Copying one run extends what is copied by that run. */
  lemma RunCopied(v: seq<int>, l: ColorLayout, r: Region, mid: seq<int>, now: seq<int>, y: nat, c: nat)
    requires Within(l, r) && |v| >= Elements(l) && y < r.sy && c < Planes(l) && RunLen(l, r) > 0
    requires |mid| == |now| == |Cropped(v, l, r)| && CopiedSoFar(v, l, r, mid, y, c)
    requires var s, d, len := IndexIn(l, r.x, r.y + y, c), IndexIn(Target(l, r), 0, y, c), RunLen(l, r);
      && 0 <= s && s + len <= |v|
      && forall k :: 0 <= k < |now| ==> now[k] == if d <= k < d + len then v[s..s + len][k - d] else mid[k]
    ensures CopiedSoFar(v, l, r, now, y, c + 1)
  {
    CroppedLength(v, l, r);
    hide RunIndex, RunRow, RunPlane, RunLen, Runs, IndexIn, RunStart, Elements, Cropped;
    OneRun(v, l, r, y, c);
    var d, len, want := IndexIn(Target(l, r), 0, y, c), RunLen(l, r), Cropped(v, l, r);
    forall k | 0 <= k < |now| && Before(l, r, k / len, y, c + 1)
      ensures now[k] == want[k]
    {
      if d <= k < d + len {
        assert want[k] == want[d..d + len][k - d];
      } else {
        Commutes(Runs(l, r), len);
        Digits(k, len, Runs(l, r));
        RunBack(l, r, k / len);
        TargetAt(l, r, y, c);
      }
    }
  }

  lemma RowCopied(v: seq<int>, l: ColorLayout, r: Region, out: seq<int>, y: nat)
    requires r.sx > 0 && r.sy > 0 && RunLen(l, r) > 0 && |out| == |Cropped(v, l, r)|
    requires CopiedSoFar(v, l, r, out, y, Planes(l))
    ensures CopiedSoFar(v, l, r, out, y + 1, 0)
  {
    CroppedLength(v, l, r);
    hide RunIndex, RunRow, RunPlane, RunLen, Runs, Cropped;
    forall k | 0 <= k < |out| && Before(l, r, k / RunLen(l, r), y + 1, 0)
      ensures Before(l, r, k / RunLen(l, r), y, Planes(l))
    {
      Commutes(Runs(l, r), RunLen(l, r));
      Digits(k, RunLen(l, r), Runs(l, r));
      RunBack(l, r, k / RunLen(l, r));
    }
  }

  lemma AllCopied(v: seq<int>, l: ColorLayout, r: Region, out: seq<int>)
    requires r.sx > 0 && r.sy > 0 && RunLen(l, r) > 0 && |out| == |Cropped(v, l, r)|
    requires CopiedSoFar(v, l, r, out, r.sy, 0)
    ensures out == Cropped(v, l, r)
  {
    CroppedLength(v, l, r);
    hide RunIndex, RunRow, RunPlane, RunLen, Runs, Cropped;
    forall k | 0 <= k < |out|
      ensures Before(l, r, k / RunLen(l, r), r.sy, 0)
    {
      Commutes(Runs(l, r), RunLen(l, r));
      Digits(k, RunLen(l, r), Runs(l, r));
      RunBack(l, r, k / RunLen(l, r));
    }
  }

  // ---- pixel by pixel

  function Channels(l: ColorLayout): (n: nat)
  {
    if l.mode.None? then 1 else 3
  }

  /** The pixel of the region at (x, y) is one the request covers and the frame has. */
  predicate Asked(l: ColorLayout, region: Region, x: nat, y: nat)
  {
    x < region.sx && y < region.sy && region.x + x < l.w && region.y + y < l.h
  }

  /**
   `out`, laid out as d, is the region of the frame: its pixels are those asked for, and
   each channel of pixel (x, y) is that channel of the frame's pixel (region.x + x, region.y + y).
   */
  ghost predicate Shows(v: seq<int>, l: ColorLayout, region: Region, d: ColorLayout, out: seq<int>)
  {
    && d.mode == l.mode
    && (forall x: nat, y: nat :: x < d.w && y < d.h <==> Asked(l, region, x, y))
    && forall x: nat, y: nat, c: nat :: Asked(l, region, x, y) && c < Channels(l) ==>
         Same(v, IndexIn(l, region.x + x, region.y + y, c), out, IndexIn(d, x, y, c))
  }

  ghost predicate Same(v: seq<int>, i: int, out: seq<int>, k: int)
  {
    0 <= i < |v| && 0 <= k < |out| && out[k] == v[i]
  }

  /** The plane and the place in its run of channel c of the pixel in column x. */
  function PlaneOf(l: ColorLayout, c: nat): (p: nat)
  {
    if l.mode.None? || l.mode == Some(RGB1) then 0 else c
  }

  function InRunAt(l: ColorLayout, x: nat, c: nat): (i: nat)
  {
    if l.mode == Some(RGB1) then 3 * x + c else x
  }

  /** Along a row the index moves on one element at a time. */
  lemma IndexMoves(l: ColorLayout, x0: nat, x: nat, y: nat, c: nat)
    requires c < Channels(l)
    ensures IndexIn(l, x0 + x, y, c) == IndexIn(l, x0, y, PlaneOf(l, c)) + InRunAt(l, x, c)
  {
  }

  lemma PlaceInRun(l: ColorLayout, r: Region, x: nat, c: nat)
    requires x < r.sx && c < Channels(l)
    ensures PlaneOf(l, c) < Planes(l) && InRunAt(l, x, c) < RunLen(l, r)
    ensures PlaneOf(Target(l, r), c) == PlaneOf(l, c) && InRunAt(Target(l, r), x, c) == InRunAt(l, x, c)
  {
  }

  /** Channel c of pixel (x, y) of the cropped data. */
  lemma CroppedPixel(v: seq<int>, l: ColorLayout, r: Region, x: nat, y: nat, c: nat)
    requires Within(l, r) && |v| >= Elements(l) && x < r.sx && y < r.sy && c < Channels(l)
    ensures Same(v, IndexIn(l, r.x + x, r.y + y, c), Cropped(v, l, r), IndexIn(Target(l, r), x, y, c))
  {
    hide IndexIn, RunLen, Runs, Elements, Cropped, RunIndex, PlaneOf, InRunAt, Planes;
    var p, i := PlaneOf(l, c), InRunAt(l, x, c);
    PlaceInRun(l, r, x, c);
    IndexMoves(l, r.x, x, r.y + y, c);
    IndexMoves(Target(l, r), 0, x, y, c);
    OneRun(v, l, r, y, p);
    var s, d, len, want := IndexIn(l, r.x, r.y + y, p), IndexIn(Target(l, r), 0, y, p), RunLen(l, r), Cropped(v, l, r);
    assert want[d..d + len][i] == v[s..s + len][i];
  }

  /** The clamped region in a frame, counted from its own corner. */
  lemma ClampedAsked(l: ColorLayout, region: Region, x: nat, y: nat)
    ensures var r := Clamped(l, region); (x < r.sx && y < r.sy) <==> Asked(l, region, x, y)
    ensures Asked(l, region, x, y) ==> Clamped(l, region).x == region.x && Clamped(l, region).y == region.y
  {
  }

  lemma CroppedShows(v: seq<int>, l: ColorLayout, region: Region)
    requires Within(l, Clamped(l, region)) && |v| >= Elements(l)
    ensures var r := Clamped(l, region); Shows(v, l, region, Target(l, r), Cropped(v, l, r))
  {
    hide IndexIn, Elements, Cropped, Clamped, Asked, Same;
    var r := Clamped(l, region);
    forall x: nat, y: nat
      ensures x < r.sx && y < r.sy <==> Asked(l, region, x, y)
    {
      ClampedAsked(l, region, x, y);
    }
    forall x: nat, y: nat, c: nat | Asked(l, region, x, y) && c < Channels(l)
      ensures Same(v, IndexIn(l, region.x + x, region.y + y, c), Cropped(v, l, r), IndexIn(Target(l, r), x, y, c))
    {
      ClampedAsked(l, region, x, y);
      CroppedPixel(v, l, r, x, y, c);
    }
  }

  /** An empty region shows nothing, laid out as 0 by 0. */
  lemma EmptyShows(v: seq<int>, l: ColorLayout, region: Region)
    requires Clamped(l, region).sx == 0 || Clamped(l, region).sy == 0
    ensures Shows(v, l, region, ColorLayout(l.mode, 0, 0), [])
  {
    hide Clamped, Asked, Same, IndexIn;
    forall x: nat, y: nat
      ensures !Asked(l, region, x, y)
    {
      ClampedAsked(l, region, x, y);
    }
  }

  /** Every channel of every pixel lies in the frame. */
  lemma PixelInside(l: ColorLayout, x: nat, y: nat, c: nat)
    requires x < l.w && y < l.h && c < Channels(l)
    ensures 0 <= IndexIn(l, x, y, c) < Elements(l)
  {
    match l.mode
    case None =>
      Compose(y, x, l.w, l.h);
    case Some(m) =>
      hide Index, CoordsOf, Size;
      StridesAgree(m, l.w, l.h, x, y, c);
      StridesIndex(m, l.w, l.h, x, c, y);
      IndexOf(m, l.w, l.h, Coords(x, c, y));
  }

  lemma FullShows(v: seq<int>, l: ColorLayout, region: Region, n: nat)
    requires Full(l, Clamped(l, region)) && Elements(l) <= n <= |v|
    ensures Shows(v, l, region, l, v[..n])
  {
    hide IndexIn, Elements, Clamped, Asked;
    forall x: nat, y: nat
      ensures x < l.w && y < l.h <==> Asked(l, region, x, y)
    {
      ClampedAsked(l, region, x, y);
    }
    forall x: nat, y: nat, c: nat | Asked(l, region, x, y) && c < Channels(l)
      ensures Same(v, IndexIn(l, region.x + x, region.y + y, c), v[..n], IndexIn(l, x, y, c))
    {
      ClampedAsked(l, region, x, y);
      PixelInside(l, x, y, c);
    }
  }

  /** The frame's layout describes its dimensions. */
  ghost predicate Describes(l: ColorLayout, dims: seq<Dim>)
  {
    |dims| == |SizesOf(l)| && forall i :: 0 <= i < |dims| ==> dims[i].size == SizesOf(l)[i]
  }

  /** A crop that keeps the whole frame. */
  predicate Full(l: ColorLayout, r: Region)
  {
    r == Region(0, 0, l.w, l.h)
  }

  /**
   The crop: refused only on compressed data. An empty region has no elements; a full
   one has plain dimensions and the frame's data, as much as the output's `room`, its
   charge in elements, holds. Any other has the region's dimensions and its runs, which
   for elements of an integer type are the frame converted to the region.
   */
  method CropRoi(t: IntType, src: Layout, v: seq<int>, l: ColorLayout, region: Region, room: nat)
    returns (res: Result<(seq<Dim>, seq<int>), ConvertError>)
    requires Describes(l, src.dims) && |v| >= Elements(l) && room >= Elements(l)
    ensures res.Err? <==> src.compressed
    ensures res.Err? ==> res.error == UnsupportedConversion
    ensures res.Ok? ==>
      exists d :: Describes(d, res.value.0) && Shows(v, l, region, d, res.value.1)
    ensures var r := Clamped(l, region);
      res.Ok? ==>
        if r.sx == 0 || r.sy == 0 then res.value == (NewDims(ColorLayout(l.mode, 0, 0)), [])
        else if Full(l, r) then res.value == (NewDims(l), v[..Min(|v|, room)])
        else
          && Accepts(src, Request(l, r))
          && |res.value.0| == |src.dims|
          && (forall i :: 0 <= i < |src.dims| ==> res.value.0[i] == OutDim(src.dims[i], Request(l, r)[i]))
          && res.value.1 == Cropped(v, l, r)
          && ((forall i :: 0 <= i < |v| ==> ElementTypes.InRange(t, v[i])) ==>
                res.value.1 == Converted(t, v, Axes(src.dims, Request(l, r))))
  {
    hide Converted, Cropped, RunLen, Runs, Elements, Shows;
    if src.compressed {
      return Err(UnsupportedConversion);
    }
    var r := Clamped(l, region);
    if r.sx == 0 || r.sy == 0 {
      EmptyShows(v, l, region);
      assert Describes(ColorLayout(l.mode, 0, 0), NewDims(ColorLayout(l.mode, 0, 0)));
      return Ok((NewDims(ColorLayout(l.mode, 0, 0)), []));
    }
    if r.x == 0 && r.y == 0 && r.sx == l.w && r.sy == l.h {
      FullShows(v, l, region, Min(|v|, room));
      assert Describes(l, NewDims(l));
      return Ok((NewDims(l), v[..Min(|v|, room)]));
    }
    var dims := OutputDims(src, Request(l, r));
    AxesPlain(l, r);
    assert Axes(src.dims, Request(l, r)) == RegionAxes(l, r);
    assert Accepts(src, Request(l, r)) by {
      forall i | 0 <= i < |src.dims|
        ensures Fits(Axis(src.dims[i].size, Request(l, r)[i]))
      {
        assert Plain(RegionAxes(l, r)[i]);
      }
    }
    MulNonneg(Runs(l, r), RunLen(l, r));
    var out := new int[Runs(l, r) * RunLen(l, r)];
    CopyRuns(v, l, r, out);
    if forall i :: 0 <= i < |v| ==> ElementTypes.InRange(t, v[i]) {
      CroppedIsConverted(t, v, l, r);
    }
    CroppedShows(v, l, region);
    TargetDescribed(l, r, dims.value, src.dims);
    res := Ok((dims.value, out[..]));
  }

  /** The dimensions of the crop are those of the region in the frame's layout. */
  lemma TargetDescribed(l: ColorLayout, r: Region, dims: seq<Dim>, src: seq<Dim>)
    requires |dims| == |src| == |SizesOf(l)|
    requires forall i :: 0 <= i < |dims| ==> dims[i] == OutDim(src[i], Request(l, r)[i])
    ensures Describes(Target(l, r), dims)
  {
  }
}
