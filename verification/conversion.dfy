/**
 The conversion as pure functions: the samples, brightness and character of
 each cell of the output grid, the lines of text, and what they promise.
 Rows and columns are 0-based here; the source counts them from 1.
 */
module Conversion {
  import opened Geometry
  import opened Sampling
  import opened Ramp

  /** The caller's side of the contract: a decoded image whose brightness
      values lie in [0, 1] and an output width between 1 and the image width. */
  predicate ValidInput(img: Image, outputWidth: int)
  {
    ValidImage(img) && ValidOutputWidth(img, outputWidth)
  }

  /** The pixels averaged for the character at (`row`, `col`). The cell is
      never empty, so the average is always defined. */
  function CellSamples(img: Image, outputWidth: int, row: nat, col: nat): (s: seq<Pixel>)
    requires ValidOutputWidth(img, outputWidth)
    requires row < OutputHeight(img, outputWidth) && col < outputWidth
    ensures |s| >= 1
  {
    var left := OffsetLeft(img, outputWidth, col).Floor;
    var top := OffsetTop(img, outputWidth, row).Floor;
    var nw := ChunkWidth(img, outputWidth).Floor;
    var nh := ChunkHeight(img, outputWidth).Floor;
    ChunkOriginInBounds(img, outputWidth, row, col);
    ChunkSamplesMembers(img.width, img.height, left, top, nw, nh);
    assert Pixel(left, top) in ChunkSamples(img.width, img.height, left, top, nw, nh);
    ChunkSamples(img.width, img.height, left, top, nw, nh)
  }

  /** Every sample of a cell is a pixel of the image, and there are no more
      than the chunk's whole-pixel size. */
  lemma CellSamplesBounds(img: Image, outputWidth: int, row: nat, col: nat)
    requires ValidOutputWidth(img, outputWidth)
    requires row < OutputHeight(img, outputWidth) && col < outputWidth
    ensures var s := CellSamples(img, outputWidth, row, col);
            && |s| <= ChunkWidth(img, outputWidth).Floor * ChunkHeight(img, outputWidth).Floor
            && forall p :: p in s ==> InBounds(img.width, img.height, p)
  {
    var left, top := OffsetLeft(img, outputWidth, col).Floor, OffsetTop(img, outputWidth, row).Floor;
    var nw, nh := ChunkWidth(img, outputWidth).Floor, ChunkHeight(img, outputWidth).Floor;
    ChunkSamplesCount(img.width, img.height, left, top, nw, nh);
    ChunkSamplesMembers(img.width, img.height, left, top, nw, nh);
    assert CellSamples(img, outputWidth, row, col) == ChunkSamples(img.width, img.height, left, top, nw, nh);
  }

  /** A cell's samples come in the order the loops visit them. */
  lemma CellSamplesOrdered(img: Image, outputWidth: int, row: nat, col: nat)
    requires ValidOutputWidth(img, outputWidth)
    requires row < OutputHeight(img, outputWidth) && col < outputWidth
    ensures Ordered(CellSamples(img, outputWidth, row, col))
  {
    var left, top := OffsetLeft(img, outputWidth, col).Floor, OffsetTop(img, outputWidth, row).Floor;
    var nw, nh := ChunkWidth(img, outputWidth).Floor, ChunkHeight(img, outputWidth).Floor;
    ChunkSamplesOrdered(img.width, img.height, left, top, nw, nh);
    assert CellSamples(img, outputWidth, row, col) == ChunkSamples(img.width, img.height, left, top, nw, nh);
  }

  /** Average brightness of the cell, in [0, 1]. */
  function CellBrightness(img: Image, outputWidth: int, row: nat, col: nat): (b: real)
    requires ValidInput(img, outputWidth)
    requires row < OutputHeight(img, outputWidth) && col < outputWidth
    ensures 0.0 <= b <= 1.0
  {
    CellSamplesBounds(img, outputWidth, row, col);
    AverageBounds(img, CellSamples(img, outputWidth, row, col));
    Average(img, CellSamples(img, outputWidth, row, col))
  }

  /** Ramp position chosen for the cell; always a valid index. */
  function CellIndex(img: Image, outputWidth: int, row: nat, col: nat): (i: int)
    requires ValidInput(img, outputWidth)
    requires row < OutputHeight(img, outputWidth) && col < outputWidth
    ensures 0 <= i < |OutputCharSet|
  {
    var b := CellBrightness(img, outputWidth, row, col);
    OutputIndexInRange(b, |OutputCharSet|);
    OutputIndex(b, |OutputCharSet|)
  }

  /** The text produced for the image: one line per chunk row, one ramp
      character per chunk of that row. */
  function Convert(img: Image, outputWidth: int): seq<string>
    requires ValidInput(img, outputWidth)
  {
    var oh := OutputHeight(img, outputWidth);
    seq(oh, row requires 0 <= row < oh =>
          seq(outputWidth, col requires 0 <= col < outputWidth => OutputCharSet[CellIndex(img, outputWidth, row, col)]))
  }

  /** The text has `outputHeight` lines of `outputWidth` characters each, and
      every character belongs to the ramp. */
  lemma ConvertShape(img: Image, outputWidth: int)
    requires ValidInput(img, outputWidth)
    ensures var lines := Convert(img, outputWidth);
            && |lines| == OutputHeight(img, outputWidth)
            && (forall row :: 0 <= row < |lines| ==> |lines[row]| == outputWidth)
            && (forall row, col :: 0 <= row < |lines| && 0 <= col < |lines[row]| ==> lines[row][col] in OutputCharSet)
  {
    var lines := Convert(img, outputWidth);
    forall row, col | 0 <= row < |lines| && 0 <= col < |lines[row]|
      ensures lines[row][col] in OutputCharSet
    {
      assert lines[row][col] == OutputCharSet[CellIndex(img, outputWidth, row, col)];
    }
  }

  /** An image of one uniform brightness `v` becomes text of one repeated
      character: every cell selects the ramp position of `v`. */
  lemma CellIndexUniform(img: Image, outputWidth: int, row: nat, col: nat, v: real)
    requires ValidInput(img, outputWidth)
    requires row < OutputHeight(img, outputWidth) && col < outputWidth
    requires forall x, y :: 0 <= x < img.width && 0 <= y < img.height ==> img.brightness(x, y) == v
    ensures CellIndex(img, outputWidth, row, col) == OutputIndex(v, |OutputCharSet|)
  {
    var s := CellSamples(img, outputWidth, row, col);
    CellSamplesBounds(img, outputWidth, row, col);
    forall p | p in s
      ensures img.brightness(p.x, p.y) == v
    {
      assert InBounds(img.width, img.height, p);
    }
    AverageUniform(img, s, v);
  }

  /** Which pixels a cell averages depends on the image's size only. */
  lemma CellSamplesDependOnSize(img1: Image, img2: Image, outputWidth: int, row: nat, col: nat)
    requires ValidOutputWidth(img1, outputWidth)
    requires img1.width == img2.width && img1.height == img2.height
    requires row < OutputHeight(img1, outputWidth) && col < outputWidth
    ensures row < OutputHeight(img2, outputWidth)
    ensures CellSamples(img1, outputWidth, row, col) == CellSamples(img2, outputWidth, row, col)
  {
    OffsetsDependOnSize(img1, img2, outputWidth, row);
    OffsetsDependOnSize(img1, img2, outputWidth, col);
  }

  /** For two images of the same size, the pixelwise brighter one never gets
      a denser character in a cell. */
  lemma CellIndexMono(img1: Image, img2: Image, outputWidth: int, row: nat, col: nat)
    requires ValidInput(img1, outputWidth) && ValidInput(img2, outputWidth)
    requires img1.width == img2.width && img1.height == img2.height
    requires forall x, y :: 0 <= x < img1.width && 0 <= y < img1.height ==>
               img1.brightness(x, y) <= img2.brightness(x, y)
    requires row < OutputHeight(img1, outputWidth) && col < outputWidth
    ensures row < OutputHeight(img2, outputWidth)
    ensures CellIndex(img1, outputWidth, row, col) <= CellIndex(img2, outputWidth, row, col)
  {
    CellSamplesDependOnSize(img1, img2, outputWidth, row, col);
    var s := CellSamples(img1, outputWidth, row, col);
    CellSamplesBounds(img1, outputWidth, row, col);
    forall p | p in s
      ensures img1.brightness(p.x, p.y) <= img2.brightness(p.x, p.y)
    {
      assert InBounds(img1.width, img1.height, p);
    }
    AverageMono(img1, img2, s);
    OutputIndexMono(Average(img1, s), Average(img2, s), |OutputCharSet|);
  }

  /** Along a line, an image whose pixel rows brighten from left to right
      never gets a denser character further right: each cell's ramp
      position is at most that of its right neighbour. The two cells keep
      the same rows and equally many whole columns, all inside the image. */
  lemma CellIndexMonoRight(img: Image, outputWidth: int, row: nat, col: nat)
    requires ValidInput(img, outputWidth) && BrightensRightward(img)
    requires row < OutputHeight(img, outputWidth) && col + 1 < outputWidth
    ensures CellIndex(img, outputWidth, row, col) <= CellIndex(img, outputWidth, row, col + 1)
  {
    var left1, left2 := OffsetLeft(img, outputWidth, col).Floor, OffsetLeft(img, outputWidth, col + 1).Floor;
    var top := OffsetTop(img, outputWidth, row).Floor;
    var nw, nh := ChunkWidth(img, outputWidth).Floor, ChunkHeight(img, outputWidth).Floor;
    ChunkColumnsInside(img, outputWidth, col + 1);
    assert left1 <= left2;
    var d := left2 - left1;
    forall x | left1 <= x < left1 + nw
      ensures ColumnBrighter(img, x, d, top, nh)
    {
      ColumnSamplesShiftRight(img, x, d, top, nh);
    }
    ChunkSamplesShiftRight(img, left1, d, top, nw, nh);
    var s1, s2 := CellSamples(img, outputWidth, row, col), CellSamples(img, outputWidth, row, col + 1);
    assert s1 == ChunkSamples(img.width, img.height, left1, top, nw, nh);
    assert s2 == ChunkSamples(img.width, img.height, left2, top, nw, nh);
    DivLeMono(BrightSum(img, s1), BrightSum(img, s2), |s1| as real);
    OutputIndexMono(Average(img, s1), Average(img, s2), |OutputCharSet|);
  }
}
