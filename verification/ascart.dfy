/**
 The conversion as the source writes it: running offsets, nested sampling
 loops, averaging, index clamping and line assembly. Each line is returned
 without its terminator instead of being appended to a text file.
 */
module AscArt {
  import opened Geometry
  import opened Sampling
  import opened Ramp
  import opened Conversion
  import opened CellGrid

  /** The inner sampling loop over column `x`: adds the brightness of each
      kept sample of rows `top` to `top + nh - 1` to the running sum and
      counts it. */
  method SumColumn(img: Image, x: nat, top: nat, nh: nat, brightSum0: real, pixelCount0: int)
    returns (brightSum: real, pixelCount: int)
    ensures brightSum == brightSum0 + BrightSum(img, ColumnSamples(img.width, img.height, x, top, nh))
    ensures pixelCount == pixelCount0 + |ColumnSamples(img.width, img.height, x, top, nh)|
  {
    brightSum, pixelCount := brightSum0, pixelCount0;
    var pixelTopInd := 0;
    while pixelTopInd < nh
      invariant 0 <= pixelTopInd <= nh
      invariant brightSum == brightSum0 + BrightSum(img, ColumnSamples(img.width, img.height, x, top, pixelTopInd))
      invariant pixelCount == pixelCount0 + |ColumnSamples(img.width, img.height, x, top, pixelTopInd)|
    {
      var y := top + pixelTopInd;
      ColumnSamplesStep(img.width, img.height, x, top, pixelTopInd);
      if x < img.width && y < img.height {
        BrightSumAppend(img, ColumnSamples(img.width, img.height, x, top, pixelTopInd), Pixel(x, y));
        brightSum := brightSum + img.brightness(x, y);
        pixelCount := pixelCount + 1;
      }
      pixelTopInd := pixelTopInd + 1;
    }
  }

  /** The two sampling loops of one chunk: brightness sum and number of kept
      samples over the chunk at (`left`, `top`), `nw` by `nh` samples. */
  method SumChunk(img: Image, left: nat, top: nat, nw: nat, nh: nat) returns (brightSum: real, pixelCount: int)
    ensures pixelCount == |ChunkSamples(img.width, img.height, left, top, nw, nh)|
    ensures brightSum == BrightSum(img, ChunkSamples(img.width, img.height, left, top, nw, nh))
  {
    brightSum := 0.0;
    pixelCount := 0;
    var pixelLeftInd := 0;
    while pixelLeftInd < nw
      invariant 0 <= pixelLeftInd <= nw
      invariant brightSum == BrightSum(img, ChunkSamples(img.width, img.height, left, top, pixelLeftInd, nh))
      invariant pixelCount == |ChunkSamples(img.width, img.height, left, top, pixelLeftInd, nh)|
    {
      ghost var done := ChunkSamples(img.width, img.height, left, top, pixelLeftInd, nh);
      ghost var column := ColumnSamples(img.width, img.height, left + pixelLeftInd, top, nh);
      BrightSumConcat(img, done, column);
      brightSum, pixelCount := SumColumn(img, left + pixelLeftInd, top, nh, brightSum, pixelCount);
      assert ChunkSamples(img.width, img.height, left, top, pixelLeftInd + 1, nh) == done + column;
      pixelLeftInd := pixelLeftInd + 1;
    }
  }

  /** The body of the column loop for the chunk in 1-based line `row` and
      column `col`: sample it, average, and pick the clamped ramp position.
      The offsets and sizes are the running values of the caller's loops. */
  method ChunkIndex(img: Image, outputWidth: int, row: int, col: int,
                    pixelOffSetLeft: real, pixelOffSetTop: real, pixelChunkWidth: real, pixelChunkHeight: real)
    returns (outputIndex: int)
    requires ValidInput(img, outputWidth)
    requires 1 <= row <= OutputHeight(img, outputWidth) && 1 <= col <= outputWidth
    requires pixelChunkWidth == ChunkWidth(img, outputWidth) && pixelChunkHeight == ChunkHeight(img, outputWidth)
    requires pixelOffSetLeft == OffsetLeft(img, outputWidth, col - 1)
    requires pixelOffSetTop == OffsetTop(img, outputWidth, row - 1)
    ensures 0 <= outputIndex < |OutputCharSet|
    ensures outputIndex == CellIndex(img, outputWidth, row - 1, col - 1)
  {
    ghost var s := CellSamples(img, outputWidth, row - 1, col - 1);
    var brightSum, pixelCount := SumChunk(img, pixelOffSetLeft.Floor, pixelOffSetTop.Floor,
                                          pixelChunkWidth.Floor, pixelChunkHeight.Floor);
    assert pixelCount == |s| && brightSum == BrightSum(img, s);

    var pixelChunkBrightness := brightSum / pixelCount as real;
    assert pixelChunkBrightness == CellBrightness(img, outputWidth, row - 1, col - 1);

    outputIndex := (pixelChunkBrightness * |OutputCharSet| as real).Floor;
    if outputIndex == |OutputCharSet| {
      outputIndex := outputIndex - 1;
    }
  }

  /** The column loop of 1-based output line `row`: one character per chunk,
      the left offset advancing by one chunk width per column. The
      characters are those of the line's ramp positions in `grid`. */
  method GenerateLine(img: Image, outputWidth: int, row: int, ghost grid: seq<seq<int>>,
                      pixelOffSetTop: real, pixelChunkWidth: real, pixelChunkHeight: real)
    returns (line: string)
    requires ValidInput(img, outputWidth) && IsIndexGrid(img, outputWidth, grid) && 1 <= row <= |grid|
    requires pixelChunkWidth == ChunkWidth(img, outputWidth) && pixelChunkHeight == ChunkHeight(img, outputWidth)
    requires pixelOffSetTop == OffsetTop(img, outputWidth, row - 1)
    ensures Renders(line, grid[row - 1])
  {
    var pixelOffSetLeft := 0.0;
    line := "";
    var col := 1;
    while col <= outputWidth
      invariant 1 <= col <= outputWidth + 1
      invariant pixelOffSetLeft == OffsetLeft(img, outputWidth, col - 1)
      invariant |line| == col - 1
      invariant forall k :: 0 <= k < col - 1 ==> line[k] == OutputCharSet[grid[row - 1][k]]
    {
      var outputIndex := ChunkIndex(img, outputWidth, row, col,
                                    pixelOffSetLeft, pixelOffSetTop, pixelChunkWidth, pixelChunkHeight);
      assert outputIndex == grid[row - 1][col - 1];
      line := line + [OutputCharSet[outputIndex]];
      pixelOffSetLeft := pixelOffSetLeft + pixelChunkWidth;
      col := col + 1;
    }
  }

  /** The row loop: `outputHeight` lines, the top offset advancing by one
      chunk height per line, each rendering its line of `grid`. */
  method GenerateLines(img: Image, outputWidth: int, ghost grid: seq<seq<int>>,
                       outputHeight: int, pixelChunkWidth: real, pixelChunkHeight: real)
    returns (lines: seq<string>)
    requires ValidInput(img, outputWidth) && IsIndexGrid(img, outputWidth, grid)
    requires outputHeight == OutputHeight(img, outputWidth)
    requires pixelChunkWidth == ChunkWidth(img, outputWidth) && pixelChunkHeight == ChunkHeight(img, outputWidth)
    ensures |lines| == |grid| && forall row :: 0 <= row < |lines| ==> Renders(lines[row], grid[row])
  {
    var pixelOffSetTop := 0.0;
    lines := [];
    var row := 1;
    while row <= outputHeight
      invariant 1 <= row <= outputHeight + 1
      invariant pixelOffSetTop == OffsetTop(img, outputWidth, row - 1)
      invariant |lines| == row - 1
      invariant forall r :: 0 <= r < row - 1 ==> Renders(lines[r], grid[r])
    {
      var line := GenerateLine(img, outputWidth, row, grid, pixelOffSetTop, pixelChunkWidth, pixelChunkHeight);
      lines := lines + [line];
      pixelOffSetTop := pixelOffSetTop + pixelChunkHeight;
      row := row + 1;
    }
  }

  /** Converts the image to `outputHeight` lines of `outputWidth` ramp
      characters; the result is the text the functional model defines. */
  method GenerateAsciiArt(img: Image, outputWidth: int) returns (lines: seq<string>)
    requires ValidInput(img, outputWidth)
    ensures lines == Convert(img, outputWidth)
    ensures |lines| == OutputHeight(img, outputWidth)
    ensures forall row :: 0 <= row < |lines| ==> |lines[row]| == outputWidth
  {
    var pixelChunkWidth := img.width as real / outputWidth as real;
    var pixelChunkHeight := pixelChunkWidth / FontAspectRatio;
    var outputHeight := RoundHalfEven(img.height as real / pixelChunkHeight);
    assert outputHeight == OutputHeight(img, outputWidth);

    ghost var grid := IndexGridExists(img, outputWidth);
    lines := GenerateLines(img, outputWidth, grid, outputHeight, pixelChunkWidth, pixelChunkHeight);
    ConvertFromGrid(img, outputWidth, grid, lines);
  }
}
