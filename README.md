# Mandelbrot WebAssembly kernel, modelled in Dafny

This project models the C kernel `mandelbrotwasm.c`, which renders the Mandelbrot set
for a browser host. The host passes a viewport of the complex plane, an iteration budget
`maxiter` and a width `xres`. The kernel derives the height `yres` from the aspect ratio.
It records `(xres, yres)` in the process-wide `last_dimensions`, allocates a row-major
RGBA8 buffer of `xres * yres * 4` bytes and fills it pixel by pixel. Each pixel's colour
comes from its escape-time count.

The model keeps the integer and array logic exact and idealises the floating point:

- `Numerics` holds C `int` as the newtype `int32`, so Dafny checks every C `int`
  expression for overflow. `unsigned char` is `byte`. C's truncating `/`, the
  `(unsigned char)` cast and the `(int)` cast of a double are written out.
- `Escape` holds `mandelbrot_iterations`, a loop over the orbit z ← z² + c computed
  in exact `real` arithmetic. It is proved against a declarative meaning of the count:
  the first check at which the orbit has escaped, or the budget.
- `Raster` holds the pixel-to-plane mapping, the two colouring rules, the byte layout
  of the image (`Image`) and the in-place fill loops over an `array<byte>`.
- `MandelbrotWasm` holds the exported functions. `last_dimensions` is the class
  `Dimensions`, passed to the operations that use it as `last`. Allocation is a method
  that may return no buffer.

Edge cases of the code that the model states exactly:

- `calculate_height` is the `(int)` cast of the quotient, so the height truncates
  toward zero; it is never rounded.
- `mandelbrot_iterations(2, 0, n)` returns 2 for `n >= 2`. The check at counter 1 sees
  z(0) = 0 and does not escape; the check at counter 2 sees |z(1)|² = 4 and escapes
  (`Escape.TwoEscapesAtSecondCheck`).
- `mandelbrot_iterations(0, 0, n)` returns `max(1, n)`, because the counter starts at 1
  and the origin never escapes (`Escape.OriginNeverEscapes`).
- No render validates its inputs. A zero-width viewport, a height that does not fit an
  `int` and `int` overflow are undefined in C. They are preconditions here, not error
  results.
- A width of 0 gives a height of 0 and an empty image.
- An allocation failure still leaves `last_dimensions` updated.

## Model

| member | source | states |
|---|---|---|
| `Numerics.CDiv` | mandelbrotwasm.c:176 | C's `/` truncates toward zero: for a >= 0 the quotient q has q*b <= a < q*b + b, and for a < 0 it has q*b - b < a <= q*b <= 0 |
| `Numerics.ToUnsignedChar` | mandelbrotwasm.c:90 | the `(unsigned char)` cast is congruent to its operand modulo 256 and leaves any value in [0, 255] unchanged |
| `Numerics.TruncToInt` | mandelbrotwasm.c:29 | the `(int)` cast of a double truncates toward zero: n <= r < n + 1 for r >= 0, and n - 1 < r <= n for r < 0 |
| `Escape.Step` | mandelbrotwasm.c:40-41 | one pass of the loop body on z = (u, v): the new imaginary part 2uv + y from the old parts, the new real part u² - v² + x from the old squares |
| `Escape.Orbit` | mandelbrotwasm.c:34-43 | z(n): z(0) = 0 as `u = v = 0.0` starts, and z(n) is one loop pass applied to z(n - 1) |
| `Escape.EscapesAt` | mandelbrotwasm.c:39 | the guard `u2 + v2 < 4.0` fails at counter k exactly when z(k - 1) has squared magnitude >= 4 |
| `Escape.IterationsFrom` | mandelbrotwasm.c:39-46 | the loop started with counter k stops at some r in [k, max(k, maxiter)] with no escape at any check in [k, r), and with an escape at r if r < maxiter |
| `Escape.Iterations` | mandelbrotwasm.c:33-47 | the count k satisfies 1 <= k <= max(1, maxiter), no check before k escaped, and k < maxiter implies the check at k escaped (`u2 + v2 >= 4`) |
| `Escape.IterationsUnique` | mandelbrotwasm.c:39-46 | any count with that description equals Iterations, so the description determines the count |
| `Escape.MandelbrotIterations` | mandelbrotwasm.c:33-47 | the loop over `k`, `u`, `v`, `u2`, `v2` returns the count with the escape description above, equal to Iterations |
| `Escape.LoopStep` | mandelbrotwasm.c:39-43 | a pass of the loop body, entered because the check at k did not escape, turns (u, v, u², v²) of z(k - 1) into the parts of z(k) |
| `Escape.LoopExit` | mandelbrotwasm.c:39-46 | when the loop stops, by the budget or by the magnitude check, the counter it returns is the escape count |
| `Escape.OriginOrbit` | mandelbrotwasm.c:40-43 | the orbit of c = 0 stays at 0 for every number of steps |
| `Escape.OriginNeverEscapes` | mandelbrotwasm.c:39-46 | the count of c = 0 is max(1, maxiter): the origin never escapes |
| `Escape.TwoEscapesAtSecondCheck` | mandelbrotwasm.c:39-46 | the count of c = 2 is 2 for maxiter >= 2 and 1 otherwise |
| `Escape.ConjugateOrbit` | mandelbrotwasm.c:40-43 | the orbit of x - iy is the complex conjugate of the orbit of x + iy at every step |
| `Escape.ConjugateEscapes` | mandelbrotwasm.c:39 | x + iy and x - iy pass or fail each magnitude check together |
| `Escape.ConjugateSymmetry` | mandelbrotwasm.c:33-47 | the count is symmetric about the real axis: Iterations(x, -y, m) == Iterations(x, y, m) |
| `Escape.BudgetTruncation` | mandelbrotwasm.c:39 | for m <= big, the count under budget m is min(count under big, max(1, m)): a smaller budget only cuts the count off |
| `Raster.PlaneX` | mandelbrotwasm.c:66-73 | column i samples x = xmin + i*dx with dx = (xmax - xmin)/xres; column 0 samples xmin |
| `Raster.PlaneY` | mandelbrotwasm.c:67-71 | row j samples y = ymax - j*dy with dy = (ymax - ymin)/yres; row 0 samples ymax |
| `Raster.PlaneXSpan` | mandelbrotwasm.c:66-73 | for xmin < xmax, column i in [0, xres) samples x in [xmin, xmax), column 0 is xmin, and x increases with i |
| `Raster.PlaneYSpan` | mandelbrotwasm.c:67-71 | for ymin < ymax, row j in [0, yres) samples y in (ymin, ymax], row 0 is ymax, and y decreases with j |
| `Raster.PixelCount` | mandelbrotwasm.c:66-76 | the count of pixel (i, j) has the escape description at the point xmin + i*dx, ymax - j*dy |
| `Raster.Intensity` | mandelbrotwasm.c:90 | for 1 <= k < maxiter the grey level g = (k*255)/maxiter lies in [0, 254] with g*maxiter <= k*255 < g*maxiter + maxiter |
| `Raster.Shade` | mandelbrotwasm.c:81-96 | a pixel's colour has alpha 255, is black for k >= maxiter, and in grayscale has R == G == B == Intensity(k, maxiter) < 255 for escaped points |
| `Raster.PeriodicPhase` | mandelbrotwasm.c:133-139 | an escaped point in the colour variant takes its three channels from the wave at t = k/maxiter, which lies in (0, 1), and gets alpha 255 |
| `Raster.DecodeOffset` | mandelbrotwasm.c:79 | byte c of pixel (i, j) at (j*xres + i)*4 + c decodes back to pixel j*xres + i, channel c, row j and column i |
| `Raster.OffsetInBuffer` | mandelbrotwasm.c:79 | every pixel (i, j) in range has its four bytes inside the buffer of xres*yres*4 bytes |
| `Raster.ByteOwner` | mandelbrotwasm.c:70-79 | every byte index in [0, xres*yres*4) is byte n % 4 of exactly the in-range pixel the loops visit at row (n/4)/xres, column (n/4)%xres |
| `Raster.ImageByte` | mandelbrotwasm.c:76-95 | byte n of the buffer is channel n % 4 of the colour of pixel n / 4 (row (n/4)/xres, column (n/4)%xres); every alpha byte is 255 |
| `Raster.Image` | mandelbrotwasm.c:62-98 | the buffer the renderers return: xres*yres*4 bytes, byte n being ImageByte n |
| `Raster.ImageChannel` | mandelbrotwasm.c:79-95 | byte (j*xres + i)*4 + c of the image is channel c of pixel (i, j)'s colour |
| `Raster.ImageBytesOfPixel` | mandelbrotwasm.c:79-95 | the image bytes at (j*xres + i)*4 .. +3 are the red, green, blue and alpha of pixel (i, j)'s colour |
| `Raster.ImagePixel` | mandelbrotwasm.c:70-98 | in the image, pixel (i, j) occupies bytes (j*xres + i)*4 .. +3 of the xres*yres*4 bytes and holds the colour of its count |
| `Raster.ImageAlpha` | mandelbrotwasm.c:83-95 | every alpha byte (index n with n % 4 == 3) of the image is 255, in both colourings |
| `Raster.ImageInterior` | mandelbrotwasm.c:81-86 | a pixel whose count is >= maxiter is exactly (0, 0, 0, 255), in both colourings |
| `Raster.GrayExterior` | mandelbrotwasm.c:88-95 | a grayscale pixel whose count k is < maxiter has R == G == B == k*255/maxiter <= 254 and alpha 255, so the byte cast never truncates |
| `Raster.PaintPixel` | mandelbrotwasm.c:79-96 | the per-pixel branch writes the colour of count k into the four bytes at idx and changes no other byte |
| `Raster.PixelAgrees` | mandelbrotwasm.c:79-95 | the four bytes the loop body writes for pixel (i, j), its count's colour in the order red, green, blue, alpha, are the image's bytes at that pixel's offset |
| `Raster.PaintStep` | mandelbrotwasm.c:72-96 | one pass of the inner loop writes the image's four bytes at offset o and nothing else, so a buffer holding the image below o then holds it below o + 4 |
| `Raster.RowOffsets` | mandelbrotwasm.c:72-79 | consecutive pixels of a row are four bytes apart, and one past the end of row j is the start of row j + 1 |
| `Raster.FillRow` | mandelbrotwasm.c:72-97 | the inner `i` loop, given the image bytes before row j, leaves the image bytes up to the end of row j and every byte after row j unchanged |
| `Raster.FillRaster` | mandelbrotwasm.c:70-98 | after the nested loops the whole buffer equals the image: every byte is written with its pixel's colour |
| `MandelbrotWasm.Dimensions.constructor` | mandelbrotwasm.c:25 | the record starts as width 0, height 0 |
| `MandelbrotWasm.HeightQuotient` | mandelbrotwasm.c:29 | the quotient q = xres*(ymax - ymin)/(xmax - xmin) before the cast, characterised by q*(xmax - xmin) == xres*(ymax - ymin) |
| `MandelbrotWasm.CalculateHeight` | mandelbrotwasm.c:28-30 | the height is xres*(ymax - ymin)/(xmax - xmin) truncated toward zero |
| `MandelbrotWasm.HeightOfProperViewport` | mandelbrotwasm.c:28-30 | for xmin < xmax, ymin <= ymax and xres >= 0 the height is the floor of the quotient and is never negative |
| `MandelbrotWasm.ClassicViewHeight` | mandelbrotwasm.c:28-30 | the viewport (-2, 1) x (-1.5, 1.5) at 4 columns gets 4 rows and a 64-byte buffer |
| `MandelbrotWasm.Allocate` | mandelbrotwasm.c:62-63 | allocation yields either no buffer or a fresh buffer of exactly the requested size |
| `MandelbrotWasm.GenerateMandelbrot` | mandelbrotwasm.c:52-101 | last_dimensions becomes (xres, yres) even when no buffer is allocated; a returned buffer is fresh and holds exactly the grayscale image of xres*yres*4 bytes |
| `MandelbrotWasm.GenerateMandelbrotColor` | mandelbrotwasm.c:105-145 | the same dimension update, and a returned buffer holds exactly the colour image (black interior, wave channels outside, alpha 255) |
| `MandelbrotWasm.GetWidth` | mandelbrotwasm.c:155-157 | returns the recorded width and changes nothing |
| `MandelbrotWasm.GetHeight` | mandelbrotwasm.c:161-163 | returns the recorded height and changes nothing |
| `MandelbrotWasm.RenderThenQuery` | mandelbrotwasm.c:58-63 | after a render, whether or not it allocated a buffer, the getters return xres and the derived height |
| `MandelbrotWasm.PreviewBudget` | mandelbrotwasm.c:176-177 | the preview budget is at least 10; it is 10 when maxiter < 44, and it is the truncated quarter of maxiter (4b <= maxiter < 4b + 4) when maxiter >= 40 |
| `MandelbrotWasm.GenerateMandelbrotPreview` | mandelbrotwasm.c:173-180 | the preview has the same dimension update and returns the grayscale image under the preview budget |
| `MandelbrotWasm.PreviewCounts` | mandelbrotwasm.c:176-179 | each preview pixel's count is the full-budget count cut off at the preview budget (or the other way round when the preview budget is the larger) |
| `MandelbrotWasm.GetPixelIterations` | mandelbrotwasm.c:184-199 | returns -1 exactly when the pixel lies outside xres x yres; otherwise it returns a count >= 1, equal to the count the renderers use for that pixel |

## Left out

- MandelbrotIterations: the orbit, `dx`, `dy` and the plane coordinates are computed in exact `real` arithmetic, not IEEE-754 doubles. Counts of points whose orbit sits near the escape threshold can differ from the compiled code's.
- CalculateHeight: the quotient is exact, not a rounded double product and quotient. A zero-width viewport and a quotient that does not fit an `int` are preconditions (`HeightDefined`), because the C cast is undefined there.
- GenerateMandelbrotColor: the three sine-based channels are an abstract function `wave` of t = k/maxiter. The constant 3.14159, `sin`, and the undefined conversion of a negative double to `unsigned char` are not modelled.
- GenerateMandelbrot: overflow of `xres * yres * 4` is excluded by a precondition (`Renderable`), not modelled as wrap-around. Overflow of `k * 255` is excluded by `GrayBudget`: maxiter <= INT32_MAX / 255 + 1, the exact bound under which every escaped count k < maxiter keeps `k * 255` in range.
- GenerateMandelbrot: a negative width or a negative derived height (ymax < ymin) is excluded by `Renderable` (which asks for xres >= 0 and yres >= 0). With xres < 0 the C loops write nothing, but `malloc` may receive a positive product of two negative numbers, and the returned buffer's contents are then unspecified. A width of 0 is modelled: the height is 0 and the image is empty.
- Allocate: `malloc` is modelled only as "no buffer, or a fresh buffer of unknown contents". Memory growth and the allocator are not modelled.
- `free_pixels`, `get_dimensions` (which returns the address of the global record) and the Emscripten export macros are foreign-runtime plumbing and are not modelled.
- The source writes the two renderers' nested loops twice. Here one `FillRaster`/`FillRow`/`PaintPixel` serves both, with the colouring chosen by a `Palette`.
- The process-wide `last_dimensions` is a `Dimensions` object passed to the operations that read or write it. A global cannot be written in Dafny, and the kernel is single-threaded, so nothing else can see the record.
