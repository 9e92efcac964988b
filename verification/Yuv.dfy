/**
 The RGB1 / YUV444 conversions in exact rational arithmetic: luma weights of section
 2.5.1 of Recommendation ITU-R BT.601-7, the chroma coefficients to three digits.
 */
module Yuv {
  import FloatCast

  /** Round half away from zero. */
  function Round(v: real): (n: int)
  {
    if v >= 0.0 then (v + 0.5).Floor else -(-v + 0.5).Floor
  }

  /** The rounding as the lanes spell it: the truncation, plus the truncation of twice the rest. */
  function LaneRound(v: real): (n: int)
  {
    FloatCast.Trunc(v) + FloatCast.Trunc((v - FloatCast.Trunc(v) as real) * 2.0)
  }

  function Clamp(n: int, max: int): (c: int)
  {
    if n < 0 then 0 else if n > max then max else n
  }

  function RoundClamp(v: real, max: int): (n: int)
  {
    Clamp(Round(v), max)
  }

  datatype Pixel = Pixel(a: int, b: int, c: int)

  ghost predicate InRange(p: Pixel, max: int)
  {
    0 <= p.a <= max && 0 <= p.b <= max && 0 <= p.c <= max
  }

  /** Y, Cb and Cr of a pixel, unrounded, the chroma offset by `half`. */
  function RgbToYuv(r: real, g: real, b: real, half: real): (yuv: (real, real, real))
  {
    (0.299 * r + 0.587 * g + 0.114 * b,
     -0.169 * r - 0.331 * g + 0.5 * b + half,
     0.5 * r - 0.419 * g - 0.081 * b + half)
  }

  /** R, G and B, unrounded, from chroma already offset to zero. */
  function YuvToRgb(y: real, cb: real, cr: real): (rgb: (real, real, real))
  {
    (y + 1.402 * cr, y - 0.344 * cb - 0.714 * cr, y + 1.772 * cb)
  }

  function Forward(p: Pixel, half: int, max: int): (q: Pixel)
  {
    var (y, cb, cr) := RgbToYuv(p.a as real, p.b as real, p.c as real, half as real);
    Pixel(RoundClamp(y, max), RoundClamp(cb, max), RoundClamp(cr, max))
  }

  function Inverse(p: Pixel, half: int, max: int): (q: Pixel)
  {
    var (r, g, b) := YuvToRgb(p.a as real, p.b as real - half as real, p.c as real - half as real);
    Pixel(RoundClamp(r, max), RoundClamp(g, max), RoundClamp(b, max))
  }

  /** Rounding is to the nearest integer, and a tie goes away from zero. */
  lemma RoundNearest(v: real)
    ensures -0.5 <= Round(v) as real - v <= 0.5
    ensures Round(v) as real - v == 0.5 ==> v >= 0.0
    ensures Round(v) as real - v == -0.5 ==> v < 0.0
  {
  }

  /** The lanes round every value as the scalar form does. */
  lemma LaneRoundIsRound(v: real)
    ensures LaneRound(v) == Round(v)
  {
  }

  /** Clamping gives the value of the range nearest to n. */
  lemma ClampNearest(n: int, max: int, m: int)
    requires 0 <= m <= max
    ensures 0 <= Clamp(n, max) <= max
    ensures if n >= Clamp(n, max) then n - Clamp(n, max) <= (if n >= m then n - m else m - n)
            else Clamp(n, max) - n <= (if n >= m then n - m else m - n)
  {
  }

  /** Grey has its own value for luma and no chroma, and comes back as it was. */
  lemma GreyStays(v: int, half: int, max: int)
    requires 0 <= v <= max && 0 <= half <= max
    ensures Forward(Pixel(v, v, v), half, max) == Pixel(v, half, half)
    ensures Inverse(Pixel(v, half, half), half, max) == Pixel(v, v, v)
  {
    var x := v as real;
    assert RgbToYuv(x, x, x, half as real) == (x, half as real, half as real);
    assert YuvToRgb(x, 0.0, 0.0) == (x, x, x);
    RoundWhole(v);
    RoundWhole(half);
  }

  lemma RoundWhole(n: int)
    ensures Round(n as real) == n
  {
  }

  /** Chroma is what blue and red have above luma, by the inverse's own coefficients, up to their three digits. */
  lemma ChromaOf(r: real, g: real, b: real, half: real)
    ensures var (y, cb, cr) := RgbToYuv(r, g, b, half);
      && 1.772 * (cb - half) - (b - y) == 0.000468 * (g - r)
      && 1.402 * (cr - half) - (r - y) == 0.000438 * (b - g)
  {
  }

  /** Clamping a value within half a unit of the range moves it by no more than rounding does. */
  lemma RoundClampNear(v: real, max: int)
    requires max >= 0 && -0.5 <= v <= max as real + 0.5
    ensures -0.5 <= RoundClamp(v, max) as real - v <= 0.5
  {
    RoundNearest(v);
  }

  /** The forward conversion of a pixel stays within half a unit of the exact values, clamped chroma included. */
  lemma ForwardNear(p: Pixel, half: int, max: int)
    requires max >= 0 && 2 * half == max + 1 && InRange(p, max)
    ensures var (y, cb, cr) := RgbToYuv(p.a as real, p.b as real, p.c as real, half as real);
      var q := Forward(p, half, max);
      && -0.5 <= q.a as real - y <= 0.5 && -0.5 <= q.b as real - cb <= 0.5 && -0.5 <= q.c as real - cr <= 0.5
  {
    var (y, cb, cr) := RgbToYuv(p.a as real, p.b as real, p.c as real, half as real);
    var m := max as real;
    assert 0.0 <= y <= m;
    assert 0.5 <= cb <= m + 0.5;
    assert 0.5 <= cr <= m + 0.5;
    RoundClampNear(y, max);
    RoundClampNear(cb, max);
    RoundClampNear(cr, max);
  }

  /** A value less than n + 1/2 from an integer of the range rounds and clamps to within n of it. */
  lemma Restored(v: real, x: int, max: int, n: int)
    requires 0 <= x <= max && n >= 0 && -(n as real) - 0.5 < v - x as real < n as real + 0.5
    ensures -n <= RoundClamp(v, max) - x <= n
  {
    RoundNearest(v);
  }

  /** The inverse of exact values off by ey, eb and er: what is left of each channel. */
  lemma InverseError(r: real, g: real, b: real, half: real, ey: real, eb: real, er: real)
    ensures var (y, cb, cr) := RgbToYuv(r, g, b, half);
      var (r', g', b') := YuvToRgb(y + ey, cb + eb - half, cr + er - half);
      && r' - r == ey + 1.402 * er + 0.000438 * (b - g)
      && g' - g == ey - 0.344 * eb - 0.714 * er + 0.000136 * r + 0.00003 * g - 0.000166 * b
      && b' - b == ey + 1.772 * eb + 0.000468 * (g - r)
  {
  }

  /** Where green and red are furthest apart, the blue chroma is never near a rounding tie. */
  lemma ChromaGap(n: int, k: int)
    requires 244 <= n <= 255 || -255 <= n <= -244
    requires -500 <= 500 * k - 169 * n <= 500
    ensures -496 <= 500 * k - 169 * n <= 496
  {
  }

  lemma BlueChroma(p: Pixel, cb: int)
    requires InRange(p, 255)
    requires -0.5 <= cb as real - RgbToYuv(p.a as real, p.b as real, p.c as real, 128.0).1 <= 0.5
    requires p.b - p.a >= 244 || p.a - p.b >= 244
    ensures -0.496 <= cb as real - RgbToYuv(p.a as real, p.b as real, p.c as real, 128.0).1 <= 0.496
  {
    var n, k := p.b - p.a, 2 * cb - 256 - (p.c - p.b);
    var e := cb as real - RgbToYuv(p.a as real, p.b as real, p.c as real, 128.0).1;
    assert 1000.0 * e == (500 * k - 169 * n) as real;
    ChromaGap(n, k);
  }

  lemma RestoredWithin(p: Pixel, ey: real, eb: real, er: real, r: real, g: real, b: real)
    requires InRange(p, 255)
    requires -0.5 <= ey <= 0.5 && -0.5 <= eb <= 0.5 && -0.5 <= er <= 0.5
    requires p.b - p.a >= 244 || p.a - p.b >= 244 ==> -0.496 <= eb <= 0.496
    requires r - p.a as real == ey + 1.402 * er + 0.000438 * (p.c as real - p.b as real)
    requires g - p.b as real == ey - 0.344 * eb - 0.714 * er + 0.000136 * p.a as real + 0.00003 * p.b as real - 0.000166 * p.c as real
    requires b - p.c as real == ey + 1.772 * eb + 0.000468 * (p.b as real - p.a as real)
    ensures -1 <= RoundClamp(r, 255) - p.a <= 1
    ensures -1 <= RoundClamp(g, 255) - p.b <= 1
    ensures -1 <= RoundClamp(b, 255) - p.c <= 1
  {
    hide RoundClamp;
    assert -1.5 < r - p.a as real < 1.5;
    assert -1.5 < g - p.b as real < 1.5;
    assert -1.5 < b - p.c as real < 1.5 by {
      if p.b - p.a < 244 && p.a - p.b < 244 {
        assert -243.0 <= p.b as real - p.a as real <= 243.0;
      }
    }
    Restored(r, p.a, 255, 1);
    Restored(g, p.b, 255, 1);
    Restored(b, p.c, 255, 1);
  }

  lemma InverseWithin(p: Pixel, f: Pixel, y: real, cb: real, cr: real)
    requires InRange(p, 255)
    requires (y, cb, cr) == RgbToYuv(p.a as real, p.b as real, p.c as real, 128.0)
    requires -0.5 <= f.a as real - y <= 0.5
    requires -0.5 <= f.b as real - cb <= 0.5
    requires -0.5 <= f.c as real - cr <= 0.5
    requires p.b - p.a >= 244 || p.a - p.b >= 244 ==> -0.496 <= f.b as real - cb <= 0.496
    ensures var q := Inverse(f, 128, 255);
      -1 <= q.a - p.a <= 1 && -1 <= q.b - p.b <= 1 && -1 <= q.c - p.c <= 1
  {
    hide RgbToYuv, RoundClamp;
    var ey, eb, er := f.a as real - y, f.b as real - cb, f.c as real - cr;
    InverseError(p.a as real, p.b as real, p.c as real, 128.0, ey, eb, er);
    assert y + ey == f.a as real && cb + eb == f.b as real && cr + er == f.c as real;
    hide YuvToRgb;
    var rgb := YuvToRgb(f.a as real, f.b as real - 128.0, f.c as real - 128.0);
    RestoredWithin(p, ey, eb, er, rgb.0, rgb.1, rgb.2);
  }

  /** Every 8-bit pixel comes back within 1 in every channel, clamped values included. */
  lemma RoundTrip8(p: Pixel)
    requires InRange(p, 255)
    ensures var q := Inverse(Forward(p, 128, 255), 128, 255);
      -1 <= q.a - p.a <= 1 && -1 <= q.b - p.b <= 1 && -1 <= q.c - p.c <= 1
  {
    hide Forward, RoundClamp;
    ForwardNear(p, 128, 255);
    var f := Forward(p, 128, 255);
    if p.b - p.a >= 244 || p.a - p.b >= 244 {
      BlueChroma(p, f.b);
    }
    hide RgbToYuv;
    var yuv := RgbToYuv(p.a as real, p.b as real, p.c as real, 128.0);
    InverseWithin(p, f, yuv.0, yuv.1, yuv.2);
  }

  /** The three digits of the chroma coefficients cost a 16-bit pixel more: 30, 12 and 32 at most. */
  lemma RoundTrip16(p: Pixel)
    requires InRange(p, 65535)
    ensures var q := Inverse(Forward(p, 32768, 65535), 32768, 65535);
      -30 <= q.a - p.a <= 30 && -12 <= q.b - p.b <= 12 && -32 <= q.c - p.c <= 32
  {
    hide Forward, RoundClamp;
    ForwardNear(p, 32768, 65535);
    var f := Forward(p, 32768, 65535);
    hide RgbToYuv;
    var yuv := RgbToYuv(p.a as real, p.b as real, p.c as real, 32768.0);
    var ey, eb, er := f.a as real - yuv.0, f.b as real - yuv.1, f.c as real - yuv.2;
    InverseError(p.a as real, p.b as real, p.c as real, 32768.0, ey, eb, er);
    assert yuv.0 + ey == f.a as real && yuv.1 + eb == f.b as real && yuv.2 + er == f.c as real;
    hide YuvToRgb;
    var rgb := YuvToRgb(f.a as real, f.b as real - 32768.0, f.c as real - 32768.0);
    Restored16(p, ey, eb, er, rgb.0, rgb.1, rgb.2);
  }

  lemma Restored16(p: Pixel, ey: real, eb: real, er: real, r: real, g: real, b: real)
    requires InRange(p, 65535)
    requires -0.5 <= ey <= 0.5 && -0.5 <= eb <= 0.5 && -0.5 <= er <= 0.5
    requires r - p.a as real == ey + 1.402 * er + 0.000438 * (p.c as real - p.b as real)
    requires g - p.b as real == ey - 0.344 * eb - 0.714 * er + 0.000136 * p.a as real + 0.00003 * p.b as real - 0.000166 * p.c as real
    requires b - p.c as real == ey + 1.772 * eb + 0.000468 * (p.b as real - p.a as real)
    ensures -30 <= RoundClamp(r, 65535) - p.a <= 30
    ensures -12 <= RoundClamp(g, 65535) - p.b <= 12
    ensures -32 <= RoundClamp(b, 65535) - p.c <= 32
  {
    hide RoundClamp;
    assert -30.5 < r - p.a as real < 30.5;
    assert -12.5 < g - p.b as real < 12.5;
    assert -32.5 < b - p.c as real < 32.5;
    Restored(r, p.a, 65535, 30);
    Restored(g, p.b, 65535, 12);
    Restored(b, p.c, 65535, 32);
  }

  /** The pixels of a run, three elements each. */
  function PixelAt(v: seq<int>, i: nat): (p: Pixel)
    requires 3 * i + 2 < |v|
  {
    Pixel(v[3 * i], v[3 * i + 1], v[3 * i + 2])
  }

  /** The whole pixels two buffers both have room for. */
  function Whole(n: nat, m: nat): (k: nat)
    ensures 3 * k <= n && 3 * k <= m && (3 * k + 3 > n || 3 * k + 3 > m)
  {
    if n < m then n / 3 else m / 3
  }

  /** The forward loop over whole pixels. */
  method ForwardRun(v: seq<int>, out: array<int>, half: int, max: int)
    modifies out
    ensures forall i :: 0 <= i < Whole(|v|, out.Length) ==> PixelAt(out[..], i) == Forward(PixelAt(v, i), half, max)
    ensures forall k :: 3 * Whole(|v|, out.Length) <= k < out.Length ==> out[k] == old(out[k])
  {
    hide Forward;
    for i := 0 to Whole(|v|, out.Length)
      invariant forall k :: 0 <= k < i ==> PixelAt(out[..], k) == Forward(PixelAt(v, k), half, max)
      invariant forall k :: 3 * i <= k < out.Length ==> out[k] == old(out[k])
    {
      var p := Forward(PixelAt(v, i), half, max);
      ghost var before := out[..];
      out[3 * i], out[3 * i + 1], out[3 * i + 2] := p.a, p.b, p.c;
      assert forall k :: 0 <= k < i ==> PixelAt(out[..], k) == PixelAt(before, k);
    }
  }

  /** The inverse loop over whole pixels. */
  method InverseRun(v: seq<int>, out: array<int>, half: int, max: int)
    modifies out
    ensures forall i :: 0 <= i < Whole(|v|, out.Length) ==> PixelAt(out[..], i) == Inverse(PixelAt(v, i), half, max)
    ensures forall k :: 3 * Whole(|v|, out.Length) <= k < out.Length ==> out[k] == old(out[k])
  {
    hide Inverse;
    for i := 0 to Whole(|v|, out.Length)
      invariant forall k :: 0 <= k < i ==> PixelAt(out[..], k) == Inverse(PixelAt(v, k), half, max)
      invariant forall k :: 3 * i <= k < out.Length ==> out[k] == old(out[k])
    {
      var p := Inverse(PixelAt(v, i), half, max);
      ghost var before := out[..];
      out[3 * i], out[3 * i + 1], out[3 * i + 2] := p.a, p.b, p.c;
      assert forall k :: 0 <= k < i ==> PixelAt(out[..], k) == PixelAt(before, k);
    }
  }

  /** An 8-bit frame converted there and back differs by at most 1 in every element. */
  lemma FrameRoundTrip8(v: seq<int>, yuv: seq<int>, back: seq<int>)
    requires |v| % 3 == 0 && |yuv| == |back| == |v|
    requires forall k :: 0 <= k < |v| ==> 0 <= v[k] <= 255
    requires forall i :: 0 <= i < |v| / 3 ==> PixelAt(yuv, i) == Forward(PixelAt(v, i), 128, 255)
    requires forall i :: 0 <= i < |v| / 3 ==> PixelAt(back, i) == Inverse(PixelAt(yuv, i), 128, 255)
    ensures forall k :: 0 <= k < |v| ==> -1 <= back[k] - v[k] <= 1
  {
    hide Forward, Inverse;
    forall k | 0 <= k < |v|
      ensures -1 <= back[k] - v[k] <= 1
    {
      var i := k / 3;
      RoundTrip8(PixelAt(v, i));
      assert k == 3 * i || k == 3 * i + 1 || k == 3 * i + 2;
    }
  }
}
