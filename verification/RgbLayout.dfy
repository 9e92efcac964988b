/** The three RGB layouts of a frame of w by h pixels, and the conversions between them. */
module RgbLayout {
  import opened Arith
  import opened Lanes

  /** Pixel-interleaved [3, w, h], row-interleaved [w, 3, h] and planar [w, h, 3]. */
  datatype Mode = RGB1 | RGB2 | RGB3

  datatype Strides = Strides(x: nat, c: nat, y: nat)

  function RgbStrides(m: Mode, w: nat, h: nat): (s: Strides)
  {
    MulNonneg(w, h);
    match m
    case RGB1 => Strides(3, 1, w * 3)
    case RGB2 => Strides(1, w, w * 3)
    case RGB3 => Strides(1, w * h, w)
  }

  /** Where strides put (x, c, y). */
  function At(s: Strides, x: nat, c: nat, y: nat): (k: int)
  {
    x * s.x + c * s.c + y * s.y
  }

  /** The linear index of a color layout descriptor. */
  function LayoutIndex(m: Mode, w: nat, h: nat, x: nat, y: nat, c: nat): (k: int)
  {
    match m
    case RGB1 => (y * w + x) * 3 + c
    case RGB2 => y * w * 3 + c * w + x
    case RGB3 => c * w * h + y * w + x
  }

  /** The dimensions of a frame in a layout. */
  function MakeDims(m: Mode, w: nat, h: nat): (dims: seq<nat>)
  {
    match m
    case RGB1 => [3, w, h]
    case RGB2 => [w, 3, h]
    case RGB3 => [w, h, 3]
  }

  /** What an array reports of itself: sizes, and strides over x, color and y. */
  datatype Info = Info(xSize: nat, ySize: nat, colorSize: nat, strides: Strides)

  function InfoOf(m: Mode, dims: seq<nat>): (i: Info)
    requires |dims| == 3
  {
    MulNonneg(dims[0], dims[1]);
    match m
    case RGB1 => Info(dims[1], dims[2], dims[0], Strides(dims[0], 1, dims[1] * dims[0]))
    case RGB2 => Info(dims[0], dims[2], dims[1], Strides(1, dims[0], dims[0] * dims[1]))
    case RGB3 => Info(dims[0], dims[1], dims[2], Strides(1, dims[0] * dims[1], dims[0]))
  }

  /** The conversion's strides, the layout descriptor and the array's own report agree. */
  lemma StridesAgree(m: Mode, w: nat, h: nat, x: nat, y: nat, c: nat)
    ensures InfoOf(m, MakeDims(m, w, h)) == Info(w, h, 3, RgbStrides(m, w, h))
    ensures At(RgbStrides(m, w, h), x, c, y) == LayoutIndex(m, w, h, x, y, c)
  {
    match m
    case RGB1 =>
      Distributes(y, w, 3);
    case RGB2 =>
      Associates(y, w, 3);
    case RGB3 =>
      Associates(c, w, h);
  }

  lemma Distributes(y: int, w: int, n: int)
    ensures y * (w * n) == (y * w) * n
  {
  }

  /** The linear index of (i, j, l) in an array of dimensions a, b, and any third, first fastest. */
  function Pack(a: nat, b: nat, i: int, j: int, l: int): (k: int)
  {
    (l * b + j) * a + i
  }

  lemma PackUnpack(a: nat, b: nat, d: nat, i: int, j: int, l: int)
    requires 0 <= i < a && 0 <= j < b && 0 <= l < d
    ensures var k := Pack(a, b, i, j, l);
      0 <= k < a * (b * d) && k % a == i && (k / a) % b == j && (k / a) / b == l
  {
    Compose(l, j, b, d);
    Compose(l * b + j, i, a, b * d);
  }

  lemma UnpackPack(a: nat, b: nat, d: nat, k: int)
    requires 0 <= k < a * (b * d)
    ensures a > 0 && b > 0 && 0 <= k % a < a && 0 <= (k / a) % b < b && 0 <= (k / a) / b < d
    ensures k == Pack(a, b, k % a, (k / a) % b, (k / a) / b)
  {
    if a == 0 {
      assert false;
    } else if b == 0 {
      assert false;
    } else {
      Digits(k, a, b * d);
      Digits(k / a, b, d);
    }
  }

  /** The coordinates of an output element. */
  datatype Coords = Coords(x: int, c: int, y: int)

  ghost predicate Inside(p: Coords, w: nat, h: nat)
  {
    0 <= p.x < w && 0 <= p.c < 3 && 0 <= p.y < h
  }

  function Size(w: nat, h: nat): (n: int)
  {
    3 * (w * h)
  }

  function Index(m: Mode, w: nat, h: nat, p: Coords): (k: int)
  {
    match m
    case RGB1 => Pack(3, w, p.c, p.x, p.y)
    case RGB2 => Pack(w, 3, p.x, p.c, p.y)
    case RGB3 => Pack(w, h, p.x, p.y, p.c)
  }

  function CoordsOf(m: Mode, w: nat, h: nat, k: int): (p: Coords)
    requires w > 0 && h > 0
  {
    match m
    case RGB1 => Coords((k / 3) % w, k % 3, (k / 3) / w)
    case RGB2 => Coords(k % w, (k / w) % 3, (k / w) / 3)
    case RGB3 => Coords(k % w, (k / w) / h, (k / w) % h)
  }

  /** Every (x, c, y) has one place inside the frame, and that place only its coordinates. */
  lemma IndexOf(m: Mode, w: nat, h: nat, p: Coords)
    requires w > 0 && h > 0 && Inside(p, w, h)
    ensures 0 <= Index(m, w, h, p) < Size(w, h) && CoordsOf(m, w, h, Index(m, w, h, p)) == p
  {
    match m
    case RGB1 =>
      PackUnpack(3, w, h, p.c, p.x, p.y);
    case RGB2 =>
      PackUnpack(w, 3, h, p.x, p.c, p.y);
      Rotate(w, 3, h);
    case RGB3 =>
      PackUnpack(w, h, 3, p.x, p.y, p.c);
      Rotate3(w, h, 3);
  }

  lemma Rotate(a: int, b: int, c: int)
    ensures a * (b * c) == b * (a * c)
  {
  }

  lemma Rotate3(a: int, b: int, c: int)
    ensures a * (b * c) == c * (a * b)
  {
  }

  /** Every place of the frame is that of the coordinates it decomposes into. */
  lemma OfIndex(m: Mode, w: nat, h: nat, k: int)
    requires w > 0 && h > 0 && 0 <= k < Size(w, h)
    ensures Inside(CoordsOf(m, w, h, k), w, h) && Index(m, w, h, CoordsOf(m, w, h, k)) == k
  {
    match m
    case RGB1 =>
      UnpackPack(3, w, h, k);
    case RGB2 =>
      Rotate(w, 3, h);
      UnpackPack(w, 3, h, k);
    case RGB3 =>
      Rotate3(w, h, 3);
      UnpackPack(w, h, 3, k);
  }

  /** The strides address the layout's index. */
  lemma StridesIndex(m: Mode, w: nat, h: nat, x: nat, c: nat, y: nat)
    ensures At(RgbStrides(m, w, h), x, c, y) == Index(m, w, h, Coords(x, c, y))
  {
    match m
    case RGB1 =>
      Distributes(y, w, 3);
    case RGB2 =>
      Spread(y, 3, c, w);
      Associates(y, w, 3);
    case RGB3 =>
      Spread(c, h, y, w);
      Swap(c, w, h);
  }

  lemma Spread(l: int, b: int, j: int, a: int)
    ensures (l * b + j) * a == l * (a * b) + j * a
  {
    assert (l * b) * a == l * (a * b);
  }

  lemma Swap(c: int, w: int, h: int)
    ensures c * (w * h) == c * (h * w)
  {
  }

  /** The element that belongs at index k of the target layout. */
  function Moved(v: seq<Elem>, from: Mode, to: Mode, w: nat, h: nat, k: int): (e: Elem)
    requires w > 0 && h > 0
  {
    var i := Index(from, w, h, CoordsOf(to, w, h, k));
    if 0 <= i < |v| then v[i] else []
  }

  /** A whole frame in the target layout: every (x, c, y) at the target's index. */
  function Relaid(v: seq<Elem>, from: Mode, to: Mode, w: nat, h: nat): (out: seq<Elem>)
    ensures |out| == Size(w, h)
  {
    MulNonneg(w, h);
    if w > 0 && h > 0 then
      seq(Size(w, h), k requires 0 <= k < Size(w, h) => Moved(v, from, to, w, h, k))
    else
      assert Size(w, h) == 0;
      []
  }

  /** Each value is found at the target's index of its coordinates. */
  lemma RelaidAt(v: seq<Elem>, from: Mode, to: Mode, w: nat, h: nat, p: Coords)
    requires Inside(p, w, h) && |v| >= Size(w, h)
    ensures 0 <= Index(to, w, h, p) < Size(w, h) && 0 <= Index(from, w, h, p) < Size(w, h)
    ensures Relaid(v, from, to, w, h)[Index(to, w, h, p)] == v[Index(from, w, h, p)]
  {
    hide Index, CoordsOf, Size;
    IndexOf(to, w, h, p);
    IndexOf(from, w, h, p);
  }

  /** Keeping the layout keeps the frame. */
  lemma RelaidSame(v: seq<Elem>, m: Mode, w: nat, h: nat)
    requires |v| == Size(w, h)
    ensures Relaid(v, m, m, w, h) == v
  {
    hide Index, CoordsOf, Size;
    forall k | 0 <= k < Size(w, h) && w > 0 && h > 0
      ensures Relaid(v, m, m, w, h)[k] == v[k]
    {
      OfIndex(m, w, h, k);
    }
  }

  /** Two conversions are one, straight to the last layout. */
  lemma RelaidTwice(v: seq<Elem>, a: Mode, b: Mode, c: Mode, w: nat, h: nat)
    requires |v| >= Size(w, h)
    ensures Relaid(Relaid(v, a, b, w, h), b, c, w, h) == Relaid(v, a, c, w, h)
  {
    hide Index, CoordsOf, Size;
    var mid := Relaid(v, a, b, w, h);
    forall k | 0 <= k < Size(w, h) && w > 0 && h > 0
      ensures Relaid(mid, b, c, w, h)[k] == Relaid(v, a, c, w, h)[k]
    {
      OfIndex(c, w, h, k);
      RelaidAt(v, a, b, w, h, CoordsOf(c, w, h, k));
      assert mid[Index(b, w, h, CoordsOf(c, w, h, k))] == v[Index(a, w, h, CoordsOf(c, w, h, k))];
    }
  }

  /** A frame taken through a chain of layouts. */
  function Along(v: seq<Elem>, from: Mode, path: seq<Mode>, w: nat, h: nat): (out: seq<Elem>)
    decreases |path|
  {
    if path == [] then v else Along(Relaid(v, from, path[0], w, h), path[0], path[1..], w, h)
  }

  /** Any chain that ends in the layout it started from is the identity. */
  lemma {:induction false} RoundTrip(v: seq<Elem>, from: Mode, path: seq<Mode>, w: nat, h: nat)
    requires |v| == Size(w, h) && path != [] && path[|path| - 1] == from
    ensures Along(v, from, path, w, h) == v
  {
    hide Relaid;
    AlongIsDirect(v, from, path, w, h);
    RelaidSame(v, from, w, h);
  }

  /** A chain of conversions is the one to its last layout. */
  lemma {:induction false} AlongIsDirect(v: seq<Elem>, from: Mode, path: seq<Mode>, w: nat, h: nat)
    requires |v| == Size(w, h) && path != []
    ensures Along(v, from, path, w, h) == Relaid(v, from, path[|path| - 1], w, h)
    decreases |path|
  {
    hide Relaid, Size;
    var next := Relaid(v, from, path[0], w, h);
    if |path| == 1 {
      assert path[1..] == [];
    } else {
      AlongIsDirect(next, path[0], path[1..], w, h);
      RelaidTwice(v, from, path[0], path[|path| - 1], w, h);
    }
  }
}
