/**
 How the conversion is organised: row by row, a row being the run along dimension 0.
 The row index and the window index are decomposed once per row, and every output
 row is the bin sum of a set of source rows. The row sums are the window sums of the
 element-by-element specification.
 */
module ConvertRows {
  import opened Arith
  import opened Sums
  import opened ConvertSpec

  /** The output rows. */
  function Rows(xs: seq<Axis>): (n: nat)
  {
    if |xs| <= 1 then 1 else Rows(xs[..|xs| - 1]) * Out(xs[|xs| - 1].req)
  }

  /** The source rows binned into one output row. */
  function BinHi(xs: seq<Axis>): (n: nat)
    ensures n > 0
  {
    if |xs| <= 1 then 1
    else
      MulPositive(BinHi(xs[..|xs| - 1]), Bin(xs[|xs| - 1].req));
      BinHi(xs[..|xs| - 1]) * Bin(xs[|xs| - 1].req)
  }

  lemma {:induction false} RowsPositive(xs: seq<Axis>)
    requires AllFit(xs)
    ensures Rows(xs) > 0
  {
    if |xs| > 1 {
      RowsPositive(xs[..|xs| - 1]);
      MulPositive(Rows(xs[..|xs| - 1]), Out(xs[|xs| - 1].req));
    }
  }

  lemma {:induction false} CountIsRows(xs: seq<Axis>)
    requires |xs| > 0
    ensures Count(xs) == Rows(xs) * Out(xs[0].req)
  {
    hide Out;
    if |xs| == 1 {
      assert xs[..0] == [];
    } else {
      var n := |xs| - 1;
      CountIsRows(xs[..n]);
      MulSwap(Rows(xs[..n]), Out(xs[0].req), Out(xs[n].req));
    }
  }

  lemma MulSwap(a: int, b: int, c: int)
    ensures (a * b) * c == (a * c) * b
  {
  }

  /** The flat source index where source row b of output row `row` begins. */
  ghost function RowBase(xs: seq<Axis>, row: int, b: int): (i: int)
    requires |xs| > 0
    decreases |xs|
  {
    if |xs| == 1 then xs[0].req.offset
    else
      var n := |xs| - 1;
      var r := Rows(xs[..n]);
      if r == 0 then 0
      else SlabAt(RowBase(xs[..n], row % r, b / Bin(xs[n].req)),
                  Coord(xs[n].req, row / r, b % Bin(xs[n].req)), Total(xs[..n]))
  }

  /** The window of column `col` in the source row at `at`. */
  ghost function RowWindow(a: int -> int, bin: nat, at: int, col: int): (v: int)
  {
    Sum(bin, w => a(at + col * bin + w))
  }

  /** The column's windows over every source row of the output row. */
  ghost function RowSum(a: int -> int, xs: seq<Axis>, row: int, col: int, base: int): (v: int)
    requires |xs| > 0
  {
    Sum(BinHi(xs), b => RowWindow(a, Bin(xs[0].req), base + RowBase(xs, row, b), col))
  }

  /** The row sums are the elements of the specification. */
  lemma {:induction false} RowSumIsPixel(a: int -> int, xs: seq<Axis>, row: int, j: int, base: int)
    requires |xs| > 0 && AllFit(xs)
    requires 0 <= row < Rows(xs) && 0 <= j < Out(xs[0].req)
    ensures RowSum(a, xs, row, Mirror(xs[0].req, j), base) == Pixel(a, xs, row * Out(xs[0].req) + j, base)
    decreases |xs|, 0
  {
    if |xs| == 1 {
      OneRow(a, xs, j, base);
    } else {
      hide Out, Pixel, RowSum, BinHi;
      var n := |xs| - 1;
      var r := Rows(xs[..n]);
      RowsPositive(xs[..n]);
      Digits(row, r, Out(xs[n].req));
      RowSumStep(a, xs, row / r, row % r, j, base);
    }
  }

  lemma OneRow(a: int -> int, xs: seq<Axis>, j: int, base: int)
    requires |xs| == 1 && 0 <= j < Out(xs[0].req)
    ensures RowSum(a, xs, 0, Mirror(xs[0].req, j), base) == Pixel(a, xs, j, base)
  {
    hide Out;
    var d, c := xs[0].req, Mirror(xs[0].req, j);
    var e := xs[..0];
    assert e == [] && Count(e) == 1 && Total(e) == 1;
    var f := (b: int) => RowWindow(a, Bin(d), base + RowBase(xs, 0, b), c);
    assert Sum(1, f) == f(0);
    forall w ensures Pixel(a, e, j % 1, SlabAt(base, Coord(d, j / 1, w), 1)) == a(base + d.offset + c * Bin(d) + w)
    {
      assert SlabAt(base, Coord(d, j / 1, w), 1) == base + d.offset + c * Bin(d) + w;
    }
    SumCongr(Bin(d),
      w => Pixel(a, e, j % 1, SlabAt(base, Coord(d, j / 1, w), 1)),
      w => a(base + d.offset + c * Bin(d) + w));
  }

  lemma {:induction false} RowSumStep(a: int -> int, xs: seq<Axis>, c: int, r: int, j: int, base: int)
    requires |xs| > 1 && AllFit(xs)
    requires 0 <= c < Out(xs[|xs| - 1].req) && 0 <= r < Rows(xs[..|xs| - 1]) && 0 <= j < Out(xs[0].req)
    ensures var row := c * Rows(xs[..|xs| - 1]) + r;
      RowSum(a, xs, row, Mirror(xs[0].req, j), base) == Pixel(a, xs, row * Out(xs[0].req) + j, base)
    decreases |xs| - 1, 1
  {
    hide Out, Count, Total, Pixel, Rows, Sum, SlabAt, Coord, RowWindow, BinHi, RowBase;
    var n := |xs| - 1;
    var d, s, bin, p := xs[n].req, Total(xs[..n]), Bin(xs[n].req), Rows(xs[..n]);
    var d0, col := xs[0].req, Mirror(xs[0].req, j);
    var hi := BinHi(xs[..n]);
    var at := (q: int, w: int) => SlabAt(RowBase(xs[..n], r, q), Coord(d, c, w), s);
    var f := (q: int, w: int) => RowWindow(a, Bin(d0), base + at(q, w), col);
    CountIsRows(xs[..n]);
    Compose(r, j, Out(d0), p);
    PixelAt(a, xs, c, r * Out(d0) + j, base);
    FlatRow(c, p, r, Out(d0), j);
    forall w | 0 <= w < bin
      ensures Pixel(a, xs[..n], r * Out(d0) + j, SlabAt(base, Coord(d, c, w), s)) == Sum(hi, q => f(q, w))
    {
      RowSumIsPixel(a, xs[..n], r, j, SlabAt(base, Coord(d, c, w), s));
      SlabAtMoves(base, Coord(d, c, w), s);
      SumCongr(hi,
        b => RowWindow(a, Bin(xs[..n][0].req), SlabAt(base, Coord(d, c, w), s) + RowBase(xs[..n], r, b), col),
        q => f(q, w));
    }
    SumCongr(bin,
      w => Pixel(a, xs[..n], r * Out(d0) + j, SlabAt(base, Coord(d, c, w), s)),
      j => Sum(hi, i => f(i, j)));
    SumSwap(hi, bin, f);
    RowSumSplit(a, xs, c, r, col, base, f);
  }

  lemma FlatRow(c: int, p: int, r: int, m: int, j: int)
    ensures (c * p + r) * m + j == c * (p * m) + (r * m + j)
  {
  }

  lemma SlabAtMoves(base: int, x: int, s: int)
    ensures forall y {:trigger SlabAt(y, x, s)} :: SlabAt(base, x, s) + y == base + SlabAt(y, x, s)
  {
  }

  lemma RowBaseSplit(xs: seq<Axis>, c: int, r: int, q: int, w: int)
    requires |xs| > 1 && 0 <= r < Rows(xs[..|xs| - 1]) && 0 <= w < Bin(xs[|xs| - 1].req)
    ensures var n := |xs| - 1;
      RowBase(xs, c * Rows(xs[..n]) + r, q * Bin(xs[n].req) + w)
        == SlabAt(RowBase(xs[..n], r, q), Coord(xs[n].req, c, w), Total(xs[..n]))
  {
    hide Out, Total, Rows, SlabAt, Coord;
    DivModUnique(c, r, Rows(xs[..|xs| - 1]));
    DivModUnique(q, w, Bin(xs[|xs| - 1].req));
  }

  /** The window index of a row splits into the last dimension's position and the rest. */
  lemma RowSumSplit(a: int -> int, xs: seq<Axis>, c: int, r: int, col: int, base: int, f: (int, int) -> int)
    requires |xs| > 1 && 0 <= r < Rows(xs[..|xs| - 1])
    requires var n := |xs| - 1;
      forall q, w :: f(q, w) == RowWindow(a, Bin(xs[0].req),
        base + SlabAt(RowBase(xs[..n], r, q), Coord(xs[n].req, c, w), Total(xs[..n])), col)
    ensures RowSum(a, xs, c * Rows(xs[..|xs| - 1]) + r, col, base)
         == Sum(BinHi(xs[..|xs| - 1]), i => Sum(Bin(xs[|xs| - 1].req), j => f(i, j)))
  {
    hide Out, Count, Total, Rows, Sum, SlabAt, Coord, RowWindow, RowBase;
    var n := |xs| - 1;
    var bin, p, hi := Bin(xs[n].req), Rows(xs[..n]), BinHi(xs[..n]);
    var row := c * p + r;
    var g := (b: int) => RowWindow(a, Bin(xs[0].req), base + RowBase(xs, row, b), col);
    SumCongr(BinHi(xs), g, b => RowWindow(a, Bin(xs[0].req), base + RowBase(xs, row, b), col));
    SumSplit(hi, bin, g);
    forall q | 0 <= q < hi
      ensures Sum(bin, w => g(q * bin + w)) == Sum(bin, w => f(q, w))
    {
      forall w | 0 <= w < bin
        ensures g(q * bin + w) == f(q, w)
      {
        RowBaseSplit(xs, c, r, q, w);
      }
      SumCongr(bin, w => g(q * bin + w), w => f(q, w));
    }
    SumCongr(hi, q => Sum(bin, r => g(q * bin + r)), i => Sum(bin, j => f(i, j)));
  }
}
