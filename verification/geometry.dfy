/**
 Grid geometry of the ASCII-art conversion: the decoded image, the size of the
 pixel chunk that becomes one character, the number of output lines, and the
 offsets of each chunk. Doubles of the source are modelled as exact reals.
 */
module Geometry {

  /** A decoded bitmap: its size in pixels and the brightness (perceived
      lightness) reported for the pixel at column x, row y. */
  datatype Image = Image(width: nat, height: nat, brightness: (int, int) -> real)

  /** A pixel coordinate: column `x`, row `y`. */
  datatype Pixel = Pixel(x: int, y: int)

  /** The pixel lies inside a `width` x `height` image. */
  predicate InBounds(width: nat, height: nat, p: Pixel)
  {
    0 <= p.x < width && 0 <= p.y < height
  }

  /** Every pixel of the image has a brightness in [0, 1]. */
  predicate ValidImage(img: Image)
  {
    forall x: int, y: int :: 0 <= x < img.width && 0 <= y < img.height ==> 0.0 <= img.brightness(x, y) <= 1.0
  }

  /** Along every pixel row, brightness never decreases from left to right. */
  predicate BrightensRightward(img: Image)
  {
    forall x1: int, x2: int, y: int :: 0 <= x1 <= x2 < img.width && 0 <= y < img.height ==>
      img.brightness(x1, y) <= img.brightness(x2, y)
  }

  /** Typical width/height ratio of a character in a monospace font. */
  const FontAspectRatio: real := 0.6

  /** What the caller guarantees: at least one output column, and no more
      output columns than pixel columns. */
  predicate ValidOutputWidth(img: Image, outputWidth: int)
  {
    1 <= outputWidth <= img.width
  }

  /** a <= b and c >= 0 give a * c <= b * c. */
  lemma MulLeMono(a: real, b: real, c: real)
    requires a <= b && 0.0 <= c
    ensures a * c <= b * c
  {
    assert b * c - a * c == (b - a) * c;
  }

  /** Width in pixels of the chunk that maps to one character. */
  function ChunkWidth(img: Image, outputWidth: int): (cw: real)
    requires ValidOutputWidth(img, outputWidth)
    ensures cw >= 1.0
  {
    RatioAtLeastOne(img.width, outputWidth);
    img.width as real / outputWidth as real
  }

  /** Dividing a number by a positive one no larger gives at least 1. */
  lemma RatioAtLeastOne(w: nat, n: int)
    requires 1 <= n <= w
    ensures w as real / n as real >= 1.0
  {
    var q := w as real / n as real;
    assert q * n as real == w as real;
    if q < 1.0 {
      MulLeMono(q, 1.0, n as real);
    }
  }

  /** Height in pixels of the chunk: taller than wide, by the font's aspect ratio. */
  function ChunkHeight(img: Image, outputWidth: int): (ch: real)
    requires ValidOutputWidth(img, outputWidth)
    ensures ch * FontAspectRatio == ChunkWidth(img, outputWidth)
    ensures ch > 1.0
  {
    ChunkWidth(img, outputWidth) / FontAspectRatio
  }

  /** Round to the nearest integer, a midpoint to the even neighbour: the
      default rule of .NET `Math.Round(double)`. */
  function RoundHalfEven(x: real): (n: int)
    ensures -0.5 <= n as real - x <= 0.5
    ensures (n as real - x == 0.5 || x - n as real == 0.5) ==> n % 2 == 0
  {
    var f := x.Floor;
    var d := x - f as real;
    if d < 0.5 then f
    else if d > 0.5 then f + 1
    else if f % 2 == 0 then f
    else f + 1
  }

  /** Round-half-even is the only integer within one half of x that is even
      whenever it lies exactly one half away. */
  lemma RoundHalfEvenUnique(x: real, m: int)
    requires -0.5 <= m as real - x <= 0.5
    requires (m as real - x == 0.5 || x - m as real == 0.5) ==> m % 2 == 0
    ensures m == RoundHalfEven(x)
  {
    var n := RoundHalfEven(x);
    assert -1 <= m - n <= 1;
  }

  /** The height of the image measured in chunk heights (before rounding). */
  function HeightInChunks(img: Image, outputWidth: int): (q: real)
    requires ValidOutputWidth(img, outputWidth)
    ensures q >= 0.0
  {
    img.height as real / ChunkHeight(img, outputWidth)
  }

  /** That many chunk heights make up the image height exactly. */
  lemma HeightInChunksSpan(img: Image, outputWidth: int)
    requires ValidOutputWidth(img, outputWidth)
    ensures HeightInChunks(img, outputWidth) * ChunkHeight(img, outputWidth) == img.height as real
  {
  }

  /** Number of output lines: enough to cover the whole image height. */
  function OutputHeight(img: Image, outputWidth: int): (oh: nat)
    requires ValidOutputWidth(img, outputWidth)
    ensures -0.5 <= oh as real - HeightInChunks(img, outputWidth) <= 0.5
  {
    RoundHalfEven(HeightInChunks(img, outputWidth))
  }

  /** Left edge of the chunk in 0-based column `col`: the running
      `pixelOffSetLeft`, which starts at 0 and grows by one chunk width per
      column. */
  function OffsetLeft(img: Image, outputWidth: int, col: nat): (left: real)
    requires ValidOutputWidth(img, outputWidth)
    ensures left >= 0.0
  {
    if col == 0 then 0.0 else OffsetLeft(img, outputWidth, col - 1) + ChunkWidth(img, outputWidth)
  }

  /** Top edge of the chunk in 0-based row `row`: the running
      `pixelOffSetTop`, which starts at 0 and grows by one chunk height per
      line. */
  function OffsetTop(img: Image, outputWidth: int, row: nat): (top: real)
    requires ValidOutputWidth(img, outputWidth)
    ensures top >= 0.0
  {
    if row == 0 then 0.0 else OffsetTop(img, outputWidth, row - 1) + ChunkHeight(img, outputWidth)
  }

  /** The running left offset carries no accumulated error: after `col`
      additions it is exactly `col` chunk widths. */
  lemma {:induction false} OffsetLeftExact(img: Image, outputWidth: int, col: nat)
    requires ValidOutputWidth(img, outputWidth)
    ensures OffsetLeft(img, outputWidth, col) == col as real * ChunkWidth(img, outputWidth)
  {
    if col > 0 {
      OffsetLeftExact(img, outputWidth, col - 1);
      assert (col - 1) as real * ChunkWidth(img, outputWidth) + ChunkWidth(img, outputWidth)
             == col as real * ChunkWidth(img, outputWidth);
    }
  }

  /** The running top offset is exactly `row` chunk heights. */
  lemma {:induction false} OffsetTopExact(img: Image, outputWidth: int, row: nat)
    requires ValidOutputWidth(img, outputWidth)
    ensures OffsetTop(img, outputWidth, row) == row as real * ChunkHeight(img, outputWidth)
  {
    if row > 0 {
      OffsetTopExact(img, outputWidth, row - 1);
      assert (row - 1) as real * ChunkHeight(img, outputWidth) + ChunkHeight(img, outputWidth)
             == row as real * ChunkHeight(img, outputWidth);
    }
  }

  /** Every column the output has starts inside the image: the last one
      starts one chunk width before the right edge. */
  lemma OffsetLeftInside(img: Image, outputWidth: int, col: nat)
    requires ValidOutputWidth(img, outputWidth) && col < outputWidth
    ensures OffsetLeft(img, outputWidth, col) < img.width as real
  {
    OffsetLeftExact(img, outputWidth, col);
    ChunksSpanWidth(img, outputWidth);
    PartStartsBelow(col, outputWidth, ChunkWidth(img, outputWidth), img.width as real);
  }

  /** Part `c` of `n` equal positive parts making up `w` starts below `w`. */
  lemma PartStartsBelow(c: nat, n: int, cw: real, w: real)
    requires c < n && n as real * cw == w && cw > 0.0
    ensures c as real * cw < w
  {
    assert c as real <= (n - 1) as real;
    MulLeMono(c as real, (n - 1) as real, cw);
    assert (n - 1) as real * cw == n as real * cw - cw;
  }

  /** Every line the output has starts inside the image: rounding adds at
      most half a chunk, so the last line starts at least half a chunk height
      above the bottom. */
  lemma OffsetTopInside(img: Image, outputWidth: int, row: nat)
    requires ValidOutputWidth(img, outputWidth) && row < OutputHeight(img, outputWidth)
    ensures OffsetTop(img, outputWidth, row) + ChunkHeight(img, outputWidth) / 2.0 <= img.height as real
  {
    var ch, q := ChunkHeight(img, outputWidth), HeightInChunks(img, outputWidth);
    HeightInChunksSpan(img, outputWidth);
    var oh := OutputHeight(img, outputWidth);
    assert row as real <= q - 0.5 by {
      assert row + 1 <= oh;
    }
    HalfChunkBelow(row as real, q, ch, img.height as real);
    OffsetTopExact(img, outputWidth, row);
  }

  /** r <= q - 1/2 chunks of height ch, q of which make h, end at least half
      a chunk above h. */
  lemma HalfChunkBelow(r: real, q: real, ch: real, h: real)
    requires r <= q - 0.5 && q * ch == h && ch > 0.0
    ensures r * ch + ch / 2.0 <= h
  {
    MulLeMono(r, q - 0.5, ch);
    assert (q - 0.5) * ch == q * ch - ch / 2.0;
  }

  /** The chunks of one line exactly span the image width. */
  lemma ChunksSpanWidth(img: Image, outputWidth: int)
    requires ValidOutputWidth(img, outputWidth)
    ensures outputWidth as real * ChunkWidth(img, outputWidth) == img.width as real
  {
  }

  /** Every chunk of a line, truncated as the sampling loops truncate it,
      ends within the image width: all its sample columns are inside. */
  lemma ChunkColumnsInside(img: Image, outputWidth: int, col: nat)
    requires ValidOutputWidth(img, outputWidth) && col < outputWidth
    ensures OffsetLeft(img, outputWidth, col).Floor + ChunkWidth(img, outputWidth).Floor <= img.width
  {
    OffsetLeftExact(img, outputWidth, col);
    ChunksSpanWidth(img, outputWidth);
    PartFits(col, outputWidth, ChunkWidth(img, outputWidth), OffsetLeft(img, outputWidth, col), img.width);
  }

  /** Part `c` of `n` equal parts of size `cw` making up `w`, starting at
      `left`, ends within `w` even after truncating its start and size. */
  lemma PartFits(c: nat, n: int, cw: real, left: real, w: int)
    requires c < n && n as real * cw == w as real && cw >= 0.0 && left == c as real * cw
    ensures left.Floor + cw.Floor <= w
  {
    MulLeMono((c + 1) as real, n as real, cw);
    assert left + cw == (c + 1) as real * cw;
    assert (left.Floor + cw.Floor) as real <= left + cw;
  }

  /** The offsets, like the chunk size and the line count, depend on the
      image's size only. */
  lemma {:induction false} OffsetsDependOnSize(img1: Image, img2: Image, outputWidth: int, k: nat)
    requires ValidOutputWidth(img1, outputWidth)
    requires img1.width == img2.width && img1.height == img2.height
    ensures OutputHeight(img1, outputWidth) == OutputHeight(img2, outputWidth)
    ensures ChunkWidth(img1, outputWidth) == ChunkWidth(img2, outputWidth)
    ensures ChunkHeight(img1, outputWidth) == ChunkHeight(img2, outputWidth)
    ensures OffsetLeft(img1, outputWidth, k) == OffsetLeft(img2, outputWidth, k)
    ensures OffsetTop(img1, outputWidth, k) == OffsetTop(img2, outputWidth, k)
  {
    assert HeightInChunks(img1, outputWidth) == HeightInChunks(img2, outputWidth);
    if k > 0 {
      OffsetsDependOnSize(img1, img2, outputWidth, k - 1);
    }
  }

  /** The top-left pixel of every chunk of the output grid lies inside the
      image: the truncated offsets are valid pixel coordinates. */
  lemma ChunkOriginInBounds(img: Image, outputWidth: int, row: nat, col: nat)
    requires ValidOutputWidth(img, outputWidth)
    requires row < OutputHeight(img, outputWidth) && col < outputWidth
    ensures InBounds(img.width, img.height,
                     Pixel(OffsetLeft(img, outputWidth, col).Floor, OffsetTop(img, outputWidth, row).Floor))
  {
    OffsetLeftInside(img, outputWidth, col);
    OffsetTopInside(img, outputWidth, row);
  }
}
