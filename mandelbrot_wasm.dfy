/** The exported entry points of the WebAssembly kernel: the grayscale, colour
    and preview renderers, the single-pixel query, and the process-wide record
    of the last image's dimensions with its getters. */
module MandelbrotWasm {
  import opened Numerics
  import opened Escape
  import opened Raster

  /** `last_dimensions`: the width and height of the most recent render, kept for
      the host to query. There is one such record per process; the operations
      that read or update it take it as `last`. */
  class Dimensions {
    var width: int32
    var height: int32

    /** The static initialiser `{0, 0}`. */
    constructor ()
      ensures width == 0 && height == 0
    {
      width, height := 0, 0;
    }
  }

  /** The quotient `calculate_height` truncates: xres * (ymax - ymin) / (xmax - xmin). */
  function HeightQuotient(v: Viewport, xres: int): (q: real)
    requires v.xmax != v.xmin
    ensures q * (v.xmax - v.xmin) == xres as real * (v.ymax - v.ymin)
  {
    (xres as real * (v.ymax - v.ymin)) / (v.xmax - v.xmin)
  }

  /** The cast in `calculate_height` is defined: the width of the viewport is not
      zero and the truncated quotient fits in an `int`. */
  predicate HeightDefined(v: Viewport, xres: int) {
    v.xmax != v.xmin && InInt32(TruncToInt(HeightQuotient(v, xres)))
  }

  /** `calculate_height`: the height that keeps the viewport's aspect ratio,
      truncated toward zero. */
  function CalculateHeight(v: Viewport, xres: int32): (h: int32)
    requires HeightDefined(v, xres as int)
    ensures var q := HeightQuotient(v, xres as int);
      (q >= 0.0 ==> 0 <= h && h as real <= q < h as real + 1.0)
      && (q < 0.0 ==> h <= 0 && h as real - 1.0 < q <= h as real)
  {
    TruncToInt(HeightQuotient(v, xres as int)) as int32
  }

  /** For a viewport with xmin < xmax and ymin <= ymax and a positive width the
      height is the floor of the aspect-ratio quotient, so it is never negative. */
  lemma HeightOfProperViewport(v: Viewport, xres: int32)
    requires v.xmin < v.xmax && v.ymin <= v.ymax && xres >= 0
    requires HeightDefined(v, xres as int)
    ensures CalculateHeight(v, xres) as int == HeightQuotient(v, xres as int).Floor
    ensures CalculateHeight(v, xres) >= 0
  {
    var a, b := xres as real * (v.ymax - v.ymin), v.xmax - v.xmin;
    assert a >= 0.0;
    assert HeightQuotient(v, xres as int) * b == a;
  }

  /** The viewport (-2, 1) x (-1.5, 1.5) at 4 columns gets 4 rows, so a 64-byte
      buffer. */
  lemma ClassicViewHeight()
    ensures HeightDefined(Viewport(-2.0, 1.0, -1.5, 1.5), 4)
    ensures CalculateHeight(Viewport(-2.0, 1.0, -1.5, 1.5), 4) == 4
    ensures 4 * CalculateHeight(Viewport(-2.0, 1.0, -1.5, 1.5), 4) as int * 4 == 64
  {
    assert HeightQuotient(Viewport(-2.0, 1.0, -1.5, 1.5), 4) == 4.0;
  }

  /** The inputs a renderer needs for its C `int` arithmetic to be defined: a
      non-negative width, a defined non-negative height, and a byte count
      xres * yres * 4 that fits in an `int`. A width of 0 gives an empty image. */
  predicate Renderable(v: Viewport, xres: int32) {
    xres >= 0 && HeightDefined(v, xres as int)
    && var yres := TruncToInt(HeightQuotient(v, xres as int));
       yres >= 0 && InInt32(xres as int * yres * 4)
  }

  /** What Renderable guarantees of the height and of the buffer size. */
  lemma RenderableSize(v: Viewport, xres: int32, yres: int32)
    requires Renderable(v, xres) && yres == CalculateHeight(v, xres)
    ensures yres >= 0
    ensures 0 <= xres as int * yres as int <= INT32_MAX / 4
  {
    var area := xres as int * yres as int;
    assert yres as int == TruncToInt(HeightQuotient(v, xres as int));
    assert InInt32(area * 4);
    MulNonNegative(xres as int, yres as int);
  }

  lemma MulNonNegative(a: int, b: int)
    requires a >= 0 && b >= 0
    ensures a * b >= 0
  {
  }

  /** `malloc`: either no buffer at all or a fresh one of the requested size,
      whose contents are unknown. */
  method Allocate(size: int32) returns (pixels: array?<byte>)
    requires size >= 0
    ensures pixels != null ==> fresh(pixels) && pixels.Length == size as int
  {
    if * {
      pixels := null;
    } else {
      pixels := new byte[size];
    }
  }

  /** `generate_mandelbrot`: records the dimensions, then either fails to allocate
      (no buffer) or returns a fresh buffer holding the grayscale image. */
  method GenerateMandelbrot(last: Dimensions, v: Viewport, maxiter: int32, xres: int32)
    returns (pixels: array?<byte>)
    requires Renderable(v, xres)
    requires GrayBudget(maxiter as int)
    modifies last
    ensures last.width == xres && last.height == CalculateHeight(v, xres)
    ensures pixels != null ==>
      fresh(pixels) && pixels[..] == Image(v, maxiter as int, xres as int, last.height as int, Grayscale)
  {
    var yres := CalculateHeight(v, xres);
    RenderableSize(v, xres, yres);
    last.width := xres;
    last.height := yres;
    pixels := Allocate(xres * yres * 4);
    if pixels == null {
      return;
    }
    FillRaster(pixels, v, maxiter, xres, yres, Grayscale);
    assert last.height == yres;
  }

  /** `generate_mandelbrot_color`: as GenerateMandelbrot, with escaped points
      coloured by the sine-based channels `wave` gives for t = k / maxiter. */
  method GenerateMandelbrotColor(last: Dimensions, v: Viewport, maxiter: int32, xres: int32,
                                 wave: real -> Channels)
    returns (pixels: array?<byte>)
    requires Renderable(v, xres)
    modifies last
    ensures last.width == xres && last.height == CalculateHeight(v, xres)
    ensures pixels != null ==>
      fresh(pixels) && pixels[..] == Image(v, maxiter as int, xres as int, last.height as int, Periodic(wave))
  {
    var yres := CalculateHeight(v, xres);
    RenderableSize(v, xres, yres);
    last.width := xres;
    last.height := yres;
    pixels := Allocate(xres * yres * 4);
    if pixels == null {
      return;
    }
    FillRaster(pixels, v, maxiter, xres, yres, Periodic(wave));
    assert last.height == yres;
  }

  /** `get_width`: reads the record and changes nothing. */
  method GetWidth(last: Dimensions) returns (w: int32)
    ensures w == last.width
  {
    w := last.width;
  }

  /** `get_height`: reads the record and changes nothing. */
  method GetHeight(last: Dimensions) returns (h: int32)
    ensures h == last.height
  {
    h := last.height;
  }

  /** A host's render-then-query sequence: whether or not the render produced a
      buffer, the getters then report its width and height. */
  method RenderThenQuery(last: Dimensions, v: Viewport, maxiter: int32, xres: int32)
    returns (pixels: array?<byte>, w: int32, h: int32)
    requires Renderable(v, xres)
    requires GrayBudget(maxiter as int)
    modifies last
    ensures w == xres && h == CalculateHeight(v, xres)
    ensures last.width == w && last.height == h
  {
    pixels := GenerateMandelbrot(last, v, maxiter, xres);
    w := GetWidth(last);
    h := GetHeight(last);
  }

  /** The budget of a preview: a quarter of maxiter (C division), but never
      below 10. */
  function PreviewBudget(maxiter: int32): (b: int32)
    ensures b >= 10
    ensures maxiter < 44 ==> b == 10
    ensures maxiter >= 40 ==> 4 * b as int <= maxiter as int < 4 * b as int + 4
  {
    var quarter := CDiv(maxiter as int, 4) as int32;
    if quarter < 10 then 10 else quarter
  }

  /** `generate_mandelbrot_preview`: the grayscale render under the preview
      budget, with the same dimension side effect. */
  method GenerateMandelbrotPreview(last: Dimensions, v: Viewport, maxiter: int32, xres: int32)
    returns (pixels: array?<byte>)
    requires Renderable(v, xres)
    requires GrayBudget(PreviewBudget(maxiter) as int)
    modifies last
    ensures last.width == xres && last.height == CalculateHeight(v, xres)
    ensures pixels != null ==>
      fresh(pixels) && pixels[..] == Image(v, PreviewBudget(maxiter) as int, xres as int, last.height as int, Grayscale)
  {
    pixels := GenerateMandelbrot(last, v, PreviewBudget(maxiter), xres);
  }

  /** The preview and the full render see the same escapes: under the smaller of
      the two budgets a pixel's count is the other count cut off at that
      budget. */
  lemma PreviewCounts(v: Viewport, maxiter: int32, xres: int, yres: int, i: int, j: int)
    requires xres != 0 && yres != 0
    ensures var full, quick, b := PixelCount(v, maxiter as int, xres, yres, i, j),
                                  PixelCount(v, PreviewBudget(maxiter) as int, xres, yres, i, j),
                                  PreviewBudget(maxiter) as int;
      if b <= maxiter as int then quick == Min(full, b)
      else full == Min(quick, Max(1, maxiter as int))
  {
    var x, y := PlaneX(v, xres, i), PlaneY(v, yres, j);
    var b := PreviewBudget(maxiter) as int;
    if b <= maxiter as int {
      BudgetTruncation(x, y, b, maxiter as int);
    } else {
      BudgetTruncation(x, y, maxiter as int, b);
    }
  }

  /** `get_pixel_iterations`: -1 for a pixel outside the image, otherwise the
      count the renderers compute for that pixel. */
  method GetPixelIterations(v: Viewport, maxiter: int32, xres: int32, pixelX: int32, pixelY: int32)
    returns (r: int32)
    requires HeightDefined(v, xres as int)
    ensures var yres := CalculateHeight(v, xres);
      r == -1 <==> !(0 <= pixelX < xres && 0 <= pixelY < yres)
    ensures r != -1 ==>
      r >= 1 && r as int == PixelCount(v, maxiter as int, xres as int, CalculateHeight(v, xres) as int,
                                       pixelX as int, pixelY as int)
  {
    var yres := CalculateHeight(v, xres);
    if pixelX < 0 || pixelX >= xres || pixelY < 0 || pixelY >= yres {
      return -1;
    }
    r := MandelbrotIterations(PlaneX(v, xres as int, pixelX as int), PlaneY(v, yres as int, pixelY as int), maxiter);
  }
}
