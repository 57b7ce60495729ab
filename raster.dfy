/** The RGBA8 raster both renderers produce: the pixel-to-plane mapping, the
    colouring rules, the row-major byte layout, and the nested fill loop that
    writes it in place. */
module Raster {
  import opened Numerics
  import opened Escape

  /** The rectangle of the complex plane being rendered. */
  datatype Viewport = Viewport(xmin: real, xmax: real, ymin: real, ymax: real)

  /** One pixel: red, green, blue and alpha bytes, in buffer order. */
  datatype Rgba = Rgba(r: byte, g: byte, b: byte, a: byte)

  /** The three colour bytes the periodic colouring gives an escaped point. */
  datatype Channels = Channels(r: byte, g: byte, b: byte)

  /** The colouring rule of a renderer. `Periodic` stands for the sine-based rule
      of `generate_mandelbrot_color`: `wave` maps t = k / maxiter to the three
      channel bytes, and is left abstract (it is floating point). */
  datatype Palette = Grayscale | Periodic(wave: real -> Channels)

  /** Opaque black, the colour of points that did not escape. */
  const Black: Rgba := Rgba(0, 0, 0, 255)

  /** Real part of the point sampled by column i: xmin + i * dx, dx = width / xres. */
  function PlaneX(v: Viewport, xres: int, i: int): (x: real)
    requires xres != 0
    ensures i == 0 ==> x == v.xmin
  {
    v.xmin + i as real * ((v.xmax - v.xmin) / xres as real)
  }

  /** Imaginary part of the point sampled by row j: ymax - j * dy, dy = height / yres. */
  function PlaneY(v: Viewport, yres: int, j: int): (y: real)
    requires yres != 0
    ensures j == 0 ==> y == v.ymax
  {
    v.ymax - j as real * ((v.ymax - v.ymin) / yres as real)
  }

  /** For a proper viewport the columns sample [xmin, xmax) left to right, starting
      at xmin. */
  lemma PlaneXSpan(v: Viewport, xres: int, i: int)
    requires v.xmin < v.xmax && 0 <= i < xres
    ensures v.xmin <= PlaneX(v, xres, i) < v.xmax
    ensures i == 0 ==> PlaneX(v, xres, i) == v.xmin
    ensures i + 1 < xres ==> PlaneX(v, xres, i) < PlaneX(v, xres, i + 1)
  {
    var dx := (v.xmax - v.xmin) / xres as real;
    assert dx > 0.0;
    assert dx * xres as real == v.xmax - v.xmin;
    assert 0.0 <= i as real * dx < xres as real * dx;
    assert PlaneX(v, xres, i) == v.xmin + i as real * dx;
    assert PlaneX(v, xres, i + 1) == PlaneX(v, xres, i) + dx;
  }

  /** The rows sample (ymin, ymax] top to bottom: row 0 is ymax. */
  lemma PlaneYSpan(v: Viewport, yres: int, j: int)
    requires v.ymin < v.ymax && 0 <= j < yres
    ensures v.ymin < PlaneY(v, yres, j) <= v.ymax
    ensures j == 0 ==> PlaneY(v, yres, j) == v.ymax
    ensures j + 1 < yres ==> PlaneY(v, yres, j + 1) < PlaneY(v, yres, j)
  {
    var dy := (v.ymax - v.ymin) / yres as real;
    assert dy > 0.0;
    assert dy * yres as real == v.ymax - v.ymin;
    assert 0.0 <= j as real * dy < yres as real * dy;
    assert PlaneY(v, yres, j) == v.ymax - j as real * dy;
    assert PlaneY(v, yres, j + 1) == PlaneY(v, yres, j) - dy;
  }

  /** The escape count of the point pixel (i, j) samples. */
  function PixelCount(v: Viewport, maxiter: int, xres: int, yres: int, i: int, j: int): (k: int)
    requires xres != 0 && yres != 0
    ensures IsEscapeCount(PlaneX(v, xres, i), PlaneY(v, yres, j), maxiter, k)
  {
    Iterations(PlaneX(v, xres, i), PlaneY(v, yres, j), maxiter)
  }

  /** The budgets for which the grayscale shade `k * 255` of every escaped count
      k < maxiter fits in a C `int`. */
  predicate GrayBudget(maxiter: int) {
    maxiter <= INT32_MAX / 255 + 1
  }

  /** The grey level of an escaped point: (k * 255) / maxiter. */
  function Intensity(k: int, maxiter: int): (g: int)
    requires 1 <= k < maxiter
    ensures 0 <= g <= 254
    ensures g * maxiter <= k * 255 < g * maxiter + maxiter
  {
    assert k * 255 <= maxiter * 255 - 255;
    CDiv(k * 255, maxiter)
  }

  /** The colour a renderer gives a point whose count is k. */
  function Shade(p: Palette, maxiter: int, k: int): (c: Rgba)
    requires k >= 1
    ensures c.a == 255
    ensures k >= maxiter ==> c == Black
    ensures p.Grayscale? && k < maxiter ==>
      c.r == c.g == c.b && c.r as int == Intensity(k, maxiter) && c.r < 255
  {
    if k >= maxiter then Black
    else match p
      case Grayscale =>
        var g := ToUnsignedChar(Intensity(k, maxiter));
        Rgba(g, g, g, 255)
      case Periodic(wave) =>
        var ch := wave(k as real / maxiter as real);
        Rgba(ch.r, ch.g, ch.b, 255)
  }

  /** An escaped point in the periodic colouring takes its channels from the
      wave at a phase t in (0, 1). */
  lemma PeriodicPhase(wave: real -> Channels, maxiter: int, k: int)
    requires 1 <= k < maxiter
    ensures var t := k as real / maxiter as real;
      0.0 < t < 1.0
      && Shade(Periodic(wave), maxiter, k) == Rgba(wave(t).r, wave(t).g, wave(t).b, 255)
  {
    var t := k as real / maxiter as real;
    assert t * maxiter as real == k as real;
  }

  /** Byte c (0 red, 1 green, 2 blue, 3 alpha) of a pixel. */
  function Channel(px: Rgba, c: int): byte
    requires 0 <= c < 4
  {
    if c == 0 then px.r else if c == 1 then px.g else if c == 2 then px.b else px.a
  }

  /** Where pixel (i, j) starts in a row-major buffer of xres pixels per row. */
  function PixelOffset(xres: int, i: int, j: int): int {
    (j * xres + i) * 4
  }

  /** Quotient and remainder are the only pair with n == q * d + r, 0 <= r < d. */
  lemma DivModUnique(n: int, d: int, q: int, r: int)
    requires d > 0 && 0 <= r < d && n == q * d + r
    ensures n / d == q && n % d == r
  {
    var q', r' := n / d, n % d;
    assert n == q' * d + r';
    if q > q' {
      MulAtLeast(q - q', d);
    } else if q < q' {
      MulAtLeast(q' - q, d);
    }
  }

  lemma MulAtLeast(a: int, d: int)
    requires a >= 1 && d > 0
    ensures a * d >= d
  {
  }

  /** Byte c of pixel (i, j) decodes back to that pixel and channel. */
  lemma DecodeOffset(xres: int, i: int, j: int, c: int)
    requires 0 <= i < xres && 0 <= j && 0 <= c < 4
    ensures (PixelOffset(xres, i, j) + c) / 4 == j * xres + i
    ensures (PixelOffset(xres, i, j) + c) % 4 == c
    ensures (j * xres + i) / xres == j && (j * xres + i) % xres == i
  {
    DivModUnique(PixelOffset(xres, i, j) + c, 4, j * xres + i, c);
    DivModUnique(j * xres + i, xres, j, i);
  }

  /** Pixel (i, j) lies inside a buffer of xres * yres pixels. */
  lemma OffsetInBuffer(xres: int, yres: int, i: int, j: int)
    requires 0 <= i < xres && 0 <= j < yres
    ensures 0 <= PixelOffset(xres, i, j)
    ensures PixelOffset(xres, i, j) + 4 <= xres * yres * 4
    ensures 0 <= j * xres <= j * xres + i < xres * yres
  {
    assert j * xres <= (yres - 1) * xres;
  }

  /** Along a row the pixels are four bytes apart, and the pixel one past the
      end of row j is the first pixel of row j + 1. */
  lemma RowOffsets(xres: int, i: int, j: int)
    ensures PixelOffset(xres, i + 1, j) == PixelOffset(xres, i, j) + 4
    ensures PixelOffset(xres, xres, j) == PixelOffset(xres, 0, j + 1)
  {
    assert (j + 1) * xres == j * xres + xres;
  }

  /** Every byte of a buffer of xres * yres pixels belongs to a pixel in range. */
  lemma ByteOwner(xres: int, yres: int, n: int)
    requires xres >= 0 && yres >= 0 && 0 <= n < xres * yres * 4
    ensures xres > 0 && yres > 0
    ensures 0 <= (n / 4) % xres < xres && 0 <= (n / 4) / xres < yres
    ensures PixelOffset(xres, (n / 4) % xres, (n / 4) / xres) + n % 4 == n
  {
    if xres == 0 {
      assert false;
    }
    var p := n / 4;
    assert n == p * 4 + n % 4;
    assert p == (p / xres) * xres + p % xres;
    if p / xres >= yres {
      assert false;
    }
  }

  /** Byte n of the image: the channel n % 4 of pixel n / 4, whose row is
      (n / 4) / xres and whose column is (n / 4) % xres. */
  function ImageByte(v: Viewport, maxiter: int, xres: int, yres: int, p: Palette, n: int): (b: byte)
    requires xres > 0 && yres > 0 && 0 <= n
    ensures n % 4 == 3 ==> b == 255
  {
    var i, j := (n / 4) % xres, (n / 4) / xres;
    Channel(Shade(p, maxiter, PixelCount(v, maxiter, xres, yres, i, j)), n % 4)
  }

  /** The whole image a renderer produces: xres * yres pixels, row-major, four
      bytes each. */
  function Image(v: Viewport, maxiter: int, xres: int, yres: int, p: Palette): (s: seq<byte>)
    requires xres >= 0 && yres >= 0
    ensures |s| == xres * yres * 4
  {
    seq(xres * yres * 4, n requires 0 <= n < xres * yres * 4 =>
      ByteOwner(xres, yres, n);
      ImageByte(v, maxiter, xres, yres, p, n))
  }

  /** Byte c of pixel (i, j) in the image is channel c of that pixel's colour. */
  lemma ImageChannel(v: Viewport, maxiter: int, xres: int, yres: int, p: Palette, i: int, j: int, c: int,
                     px: Rgba)
    requires 0 <= i < xres && 0 <= j < yres && 0 <= c < 4
    requires px == Shade(p, maxiter, PixelCount(v, maxiter, xres, yres, i, j))
    ensures var s, o := Image(v, maxiter, xres, yres, p), PixelOffset(xres, i, j);
      0 <= o && o + c < |s| && s[o + c] == Channel(px, c)
  {
    OffsetInBuffer(xres, yres, i, j);
    DecodeOffset(xres, i, j, c);
  }

  /** The four bytes at pixel (i, j)'s offset in the image are that pixel's
      colour, in the order red, green, blue, alpha. */
  lemma ImageBytesOfPixel(v: Viewport, maxiter: int, xres: int, yres: int, p: Palette, i: int, j: int)
    requires 0 <= i < xres && 0 <= j < yres
    ensures var s, o := Image(v, maxiter, xres, yres, p), PixelOffset(xres, i, j);
      var px := Shade(p, maxiter, PixelCount(v, maxiter, xres, yres, i, j));
      0 <= o && o + 4 <= |s|
      && s[o] == px.r && s[o + 1] == px.g && s[o + 2] == px.b && s[o + 3] == px.a
  {
    var px := Shade(p, maxiter, PixelCount(v, maxiter, xres, yres, i, j));
    ImageChannel(v, maxiter, xres, yres, p, i, j, 0, px);
    ImageChannel(v, maxiter, xres, yres, p, i, j, 1, px);
    ImageChannel(v, maxiter, xres, yres, p, i, j, 2, px);
    ImageChannel(v, maxiter, xres, yres, p, i, j, 3, px);
  }

  /** Pixel (i, j) of the image occupies the four bytes at (j * xres + i) * 4, in
      the order red, green, blue, alpha, and holds the colour of its count. */
  lemma ImagePixel(v: Viewport, maxiter: int, xres: int, yres: int, p: Palette, i: int, j: int)
    requires 0 <= i < xres && 0 <= j < yres
    ensures var s, o := Image(v, maxiter, xres, yres, p), PixelOffset(xres, i, j);
      var px := Shade(p, maxiter, PixelCount(v, maxiter, xres, yres, i, j));
      0 <= o && o + 4 <= |s| && s[o..o + 4] == [px.r, px.g, px.b, px.a]
  {
    ImageBytesOfPixel(v, maxiter, xres, yres, p, i, j);
    FourBytes(Image(v, maxiter, xres, yres, p), PixelOffset(xres, i, j));
  }

  /** A four-byte slice is the sequence of its four bytes. */
  lemma FourBytes(s: seq<byte>, o: int)
    requires 0 <= o && o + 4 <= |s|
    ensures s[o..o + 4] == [s[o], s[o + 1], s[o + 2], s[o + 3]]
  {
  }

  /** Every alpha byte of the image is 255, whatever the colouring. */
  lemma ImageAlpha(v: Viewport, maxiter: int, xres: int, yres: int, p: Palette, n: int)
    requires xres >= 0 && yres >= 0 && 0 <= n < xres * yres * 4 && n % 4 == 3
    ensures Image(v, maxiter, xres, yres, p)[n] == 255
  {
    ByteOwner(xres, yres, n);
  }

  /** A pixel whose point did not escape is opaque black, whatever the colouring. */
  lemma ImageInterior(v: Viewport, maxiter: int, xres: int, yres: int, p: Palette, i: int, j: int)
    requires 0 <= i < xres && 0 <= j < yres
    requires PixelCount(v, maxiter, xres, yres, i, j) >= maxiter
    ensures var s, o := Image(v, maxiter, xres, yres, p), PixelOffset(xres, i, j);
      0 <= o && o + 4 <= |s| && s[o..o + 4] == [0, 0, 0, 255]
  {
    ImagePixel(v, maxiter, xres, yres, p, i, j);
  }

  /** In the grayscale image an escaped pixel is grey, R == G == B == (k * 255) /
      maxiter, a value below 255, so the cast to a byte loses nothing. */
  lemma GrayExterior(v: Viewport, maxiter: int, xres: int, yres: int, i: int, j: int)
    requires 0 <= i < xres && 0 <= j < yres
    requires PixelCount(v, maxiter, xres, yres, i, j) < maxiter
    ensures var s, o := Image(v, maxiter, xres, yres, Grayscale), PixelOffset(xres, i, j);
      var k := PixelCount(v, maxiter, xres, yres, i, j);
      0 <= o && o + 4 <= |s|
      && s[o] == s[o + 1] == s[o + 2]
      && s[o] as int == k * 255 / maxiter <= 254
      && s[o + 3] == 255
  {
    ImageBytesOfPixel(v, maxiter, xres, yres, Grayscale, i, j);
    var k := PixelCount(v, maxiter, xres, yres, i, j);
    assert Intensity(k, maxiter) == k * 255 / maxiter;
  }

  /** The body of the fill loops once the count k of a pixel is known: its four
      bytes at idx get black for a point that did not escape, and otherwise the
      renderer's colour; alpha is 255 either way. The grey level is the C `int`
      expression (k * 255) / maxiter cast to `unsigned char`. */
  method PaintPixel(pixels: array<byte>, idx: int32, k: int32, maxiter: int32, p: Palette)
    requires 0 <= idx as int && idx as int + 4 <= pixels.Length <= INT32_MAX
    requires k >= 1
    requires p.Grayscale? ==> GrayBudget(maxiter as int)
    modifies pixels
    ensures var px := Shade(p, maxiter as int, k as int);
      pixels[idx] == px.r && pixels[idx + 1] == px.g
      && pixels[idx + 2] == px.b && pixels[idx + 3] == px.a
    ensures forall n :: 0 <= n < pixels.Length && !(idx as int <= n < idx as int + 4) ==>
      pixels[n] == old(pixels[n])
  {
    if k >= maxiter {
      pixels[idx] := 0;
      pixels[idx + 1] := 0;
      pixels[idx + 2] := 0;
      pixels[idx + 3] := 255;
    } else {
      match p
      case Grayscale =>
        // 1 <= k < maxiter here, so Dafny's `/` and C's `/` agree
        var intensity := ToUnsignedChar(((k * 255) / maxiter) as int);
        pixels[idx] := intensity;
        pixels[idx + 1] := intensity;
        pixels[idx + 2] := intensity;
        pixels[idx + 3] := 255;
      case Periodic(wave) =>
        var ch := wave(k as real / maxiter as real);
        pixels[idx] := ch.r;
        pixels[idx + 1] := ch.g;
        pixels[idx + 2] := ch.b;
        pixels[idx + 3] := 255;
    }
  }

  /** The first `upto` bytes of s are those of img. */
  ghost predicate PaintedUpTo(s: seq<byte>, img: seq<byte>, upto: int) {
    0 <= upto <= |s| && upto <= |img|
    && forall n :: 0 <= n < upto ==> s[n] == img[n]
  }

  /** The four bytes PaintPixel writes for pixel (i, j) are the image's four
      bytes at that pixel's offset. */
  lemma PixelAgrees(s: seq<byte>, v: Viewport, maxiter: int, xres: int, yres: int, p: Palette, i: int, j: int)
    requires 0 <= i < xres && 0 <= j < yres
    requires var o, px := PixelOffset(xres, i, j), Shade(p, maxiter, PixelCount(v, maxiter, xres, yres, i, j));
      0 <= o && o + 4 <= |s|
      && s[o] == px.r && s[o + 1] == px.g && s[o + 2] == px.b && s[o + 3] == px.a
    ensures var img, o := Image(v, maxiter, xres, yres, p), PixelOffset(xres, i, j);
      0 <= o && o + 4 <= |img|
      && s[o] == img[o] && s[o + 1] == img[o + 1] && s[o + 2] == img[o + 2] && s[o + 3] == img[o + 3]
  {
    ImageBytesOfPixel(v, maxiter, xres, yres, p, i, j);
  }

  /** One pass of the inner loop: a buffer that holds img below o, into which
      img's four bytes at o are written and nothing else, holds img below o + 4. */
  lemma PaintStep(before: seq<byte>, after: seq<byte>, img: seq<byte>, o: int)
    requires PaintedUpTo(before, img, o)
    requires o + 4 <= |img| && o + 4 <= |after| == |before|
    requires after[o] == img[o] && after[o + 1] == img[o + 1]
    requires after[o + 2] == img[o + 2] && after[o + 3] == img[o + 3]
    requires forall n :: 0 <= n < |after| && !(o <= n < o + 4) ==> after[n] == before[n]
    ensures PaintedUpTo(after, img, o + 4)
  {
    forall n | 0 <= n < o + 4
      ensures after[n] == img[n]
    {
      if n < o {
        assert after[n] == before[n];
      }
    }
  }

  /** The outer `j` loop of `generate_mandelbrot` and `generate_mandelbrot_color`,
      which differ only in the colouring of escaped points: it fills the rows
      top to bottom, each by FillRow, so that every byte of the buffer ends up
      as the image says. */
  method FillRaster(pixels: array<byte>, v: Viewport, maxiter: int32, xres: int32, yres: int32, p: Palette)
    requires xres >= 0 && yres >= 0
    requires pixels.Length == xres as int * yres as int * 4
    requires InInt32(xres as int * yres as int * 4)
    requires p.Grayscale? ==> GrayBudget(maxiter as int)
    modifies pixels
    ensures pixels[..] == Image(v, maxiter as int, xres as int, yres as int, p)
  {
    ghost var X, Y, M := xres as int, yres as int, maxiter as int;
    var j: int32 := 0;
    while j < yres
      invariant 0 <= j <= yres
      invariant PaintedUpTo(pixels[..], Image(v, M, X, Y, p), PixelOffset(X, 0, j as int))
    {
      FillRow(pixels, v, maxiter, xres, yres, j, p);
      j := j + 1;
    }
    assert PixelOffset(X, 0, Y) == pixels.Length;
  }

  /** The inner `i` loop for row j: each pixel's count is computed and its four
      bytes written at (j * xres + i) * 4, a C `int` expression that the
      requires keep from overflowing. */
  method FillRow(pixels: array<byte>, v: Viewport, maxiter: int32, xres: int32, yres: int32, j: int32, p: Palette)
    requires xres >= 0 && 0 <= j < yres
    requires pixels.Length == xres as int * yres as int * 4
    requires InInt32(xres as int * yres as int * 4)
    requires p.Grayscale? ==> GrayBudget(maxiter as int)
    requires PaintedUpTo(pixels[..], Image(v, maxiter as int, xres as int, yres as int, p),
                         PixelOffset(xres as int, 0, j as int))
    modifies pixels
    ensures PaintedUpTo(pixels[..], Image(v, maxiter as int, xres as int, yres as int, p),
                        PixelOffset(xres as int, 0, j as int + 1))
    ensures forall n :: PixelOffset(xres as int, 0, j as int + 1) <= n < pixels.Length ==> pixels[n] == old(pixels[n])
  {
    ghost var X, Y, M := xres as int, yres as int, maxiter as int;
    var i: int32 := 0;
    while i < xres
      invariant 0 <= i <= xres
      invariant PaintedUpTo(pixels[..], Image(v, M, X, Y, p), PixelOffset(X, i as int, j as int))
      invariant forall n :: PixelOffset(X, i as int, j as int) <= n < pixels.Length ==> pixels[n] == old(pixels[n])
    {
      var k := MandelbrotIterations(PlaneX(v, xres as int, i as int), PlaneY(v, yres as int, j as int), maxiter);
      OffsetInBuffer(X, Y, i as int, j as int);
      var idx := (j * xres + i) * 4;
      assert idx as int == PixelOffset(X, i as int, j as int);
      RowOffsets(X, i as int, j as int);
      ghost var before := pixels[..];
      PaintPixel(pixels, idx, k, maxiter, p);
      assert k as int == PixelCount(v, M, X, Y, i as int, j as int);
      PixelAgrees(pixels[..], v, M, X, Y, p, i as int, j as int);
      PaintStep(before, pixels[..], Image(v, M, X, Y, p), idx as int);
      i := i + 1;
    }
    RowOffsets(X, X, j as int);
  }
}
