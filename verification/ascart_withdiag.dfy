/**
 The logging variant of the conversion. It runs the same loops as the plain
 variant and, when `diagLog` is set, also returns the diagnostic records it
 would write: a three-record header, then for every chunk its start, its kept
 samples, its brightness and its index. The log is returned as a sequence of
 records instead of being written to a text file.
 */
module AscArtWithDiag {
  import opened Geometry
  import opened Sampling
  import opened Ramp
  import opened Conversion
  import opened DiagTrace
  import opened CellGrid

  /** The inner sampling loop over column `x`, logging each kept sample. */
  method SumColumn(img: Image, x: nat, top: nat, nh: nat, brightSum0: real, pixelCount0: int,
                   diagLog: bool, log0: seq<DiagRecord>)
    returns (brightSum: real, pixelCount: int, log: seq<DiagRecord>)
    ensures brightSum == brightSum0 + BrightSum(img, ColumnSamples(img.width, img.height, x, top, nh))
    ensures pixelCount == pixelCount0 + |ColumnSamples(img.width, img.height, x, top, nh)|
    ensures log == log0 + Logged(diagLog, SampleRecords(ColumnSamples(img.width, img.height, x, top, nh)))
  {
    brightSum, pixelCount, log := brightSum0, pixelCount0, log0;
    var pixelTopInd := 0;
    while pixelTopInd < nh
      invariant 0 <= pixelTopInd <= nh
      invariant brightSum == brightSum0 + BrightSum(img, ColumnSamples(img.width, img.height, x, top, pixelTopInd))
      invariant pixelCount == pixelCount0 + |ColumnSamples(img.width, img.height, x, top, pixelTopInd)|
      invariant log == log0 + Logged(diagLog, SampleRecords(ColumnSamples(img.width, img.height, x, top, pixelTopInd)))
    {
      var y := top + pixelTopInd;
      ColumnStep(img, x, top, pixelTopInd, diagLog, log0);
      if x < img.width && y < img.height {
        brightSum := brightSum + img.brightness(x, y);
        pixelCount := pixelCount + 1;
        if diagLog {
          log := log + [Sample(x, y)];
        }
      }
      pixelTopInd := pixelTopInd + 1;
    }
  }

  /** One step of the inner loop: a kept sample adds its brightness, one to
      the count and, when logging, its record; a skipped one changes nothing. */
  lemma ColumnStep(img: Image, x: nat, top: nat, k: nat, diagLog: bool, log0: seq<DiagRecord>)
    ensures var c := ColumnSamples(img.width, img.height, x, top, k);
            var c' := ColumnSamples(img.width, img.height, x, top, k + 1);
            if Included(img.width, img.height, Pixel(x, top + k)) then
              && BrightSum(img, c') == BrightSum(img, c) + img.brightness(x, top + k)
              && |c'| == |c| + 1
              && log0 + Logged(diagLog, SampleRecords(c'))
                 == log0 + Logged(diagLog, SampleRecords(c)) + (if diagLog then [Sample(x, top + k)] else [])
            else c' == c
  {
    var c := ColumnSamples(img.width, img.height, x, top, k);
    ColumnSamplesStep(img.width, img.height, x, top, k);
    if Included(img.width, img.height, Pixel(x, top + k)) {
      BrightSumAppend(img, c, Pixel(x, top + k));
      LoggedSampleStep(diagLog, log0, c, Pixel(x, top + k));
    } else {
      assert c + [] == c;
    }
  }

  /** Logging one more kept sample extends the logged sample records by it. */
  lemma LoggedSampleStep(diagLog: bool, log0: seq<DiagRecord>, column: seq<Pixel>, p: Pixel)
    ensures log0 + Logged(diagLog, SampleRecords(column)) + (if diagLog then [Sample(p.x, p.y)] else [])
            == log0 + Logged(diagLog, SampleRecords(column + [p]))
  {
    SampleRecordsAppend(column, p);
    if diagLog {
      assert log0 + SampleRecords(column) + [Sample(p.x, p.y)] == log0 + (SampleRecords(column) + [Sample(p.x, p.y)]);
    } else {
      assert log0 + [] + [] == log0 + [];
    }
  }

  /** Logging the samples of one more column extends the logged records by them. */
  lemma LoggedColumnStep(diagLog: bool, log0: seq<DiagRecord>, done: seq<Pixel>, column: seq<Pixel>)
    ensures log0 + Logged(diagLog, SampleRecords(done)) + Logged(diagLog, SampleRecords(column))
            == log0 + Logged(diagLog, SampleRecords(done + column))
  {
    SampleRecordsConcat(done, column);
    LoggedAppend(diagLog, log0, SampleRecords(done), SampleRecords(column));
  }

  /** The two sampling loops of one chunk, logging each kept sample. */
  method SumChunk(img: Image, left: nat, top: nat, nw: nat, nh: nat, diagLog: bool, log0: seq<DiagRecord>)
    returns (brightSum: real, pixelCount: int, log: seq<DiagRecord>)
    ensures pixelCount == |ChunkSamples(img.width, img.height, left, top, nw, nh)|
    ensures brightSum == BrightSum(img, ChunkSamples(img.width, img.height, left, top, nw, nh))
    ensures log == log0 + Logged(diagLog, SampleRecords(ChunkSamples(img.width, img.height, left, top, nw, nh)))
  {
    brightSum, pixelCount, log := 0.0, 0, log0;
    var pixelLeftInd := 0;
    while pixelLeftInd < nw
      invariant 0 <= pixelLeftInd <= nw
      invariant brightSum == BrightSum(img, ChunkSamples(img.width, img.height, left, top, pixelLeftInd, nh))
      invariant pixelCount == |ChunkSamples(img.width, img.height, left, top, pixelLeftInd, nh)|
      invariant log == log0 + Logged(diagLog, SampleRecords(ChunkSamples(img.width, img.height, left, top, pixelLeftInd, nh)))
    {
      ghost var done := ChunkSamples(img.width, img.height, left, top, pixelLeftInd, nh);
      ghost var column := ColumnSamples(img.width, img.height, left + pixelLeftInd, top, nh);
      BrightSumConcat(img, done, column);
      LoggedColumnStep(diagLog, log0, done, column);
      brightSum, pixelCount, log := SumColumn(img, left + pixelLeftInd, top, nh, brightSum, pixelCount, diagLog, log);
      assert ChunkSamples(img.width, img.height, left, top, pixelLeftInd + 1, nh) == done + column;
      pixelLeftInd := pixelLeftInd + 1;
    }
    assert pixelLeftInd == nw;
  }

  /** Samples and averages the chunk in 1-based line `row` and column
      `col`, logging each kept sample. */
  method ChunkBrightness(img: Image, outputWidth: int, row: int, col: int,
                         pixelOffSetLeft: real, pixelOffSetTop: real, pixelChunkWidth: real, pixelChunkHeight: real,
                         diagLog: bool, log0: seq<DiagRecord>)
    returns (pixelChunkBrightness: real, log: seq<DiagRecord>)
    requires ValidInput(img, outputWidth)
    requires 1 <= row <= OutputHeight(img, outputWidth) && 1 <= col <= outputWidth
    requires pixelChunkWidth == ChunkWidth(img, outputWidth) && pixelChunkHeight == ChunkHeight(img, outputWidth)
    requires pixelOffSetLeft == OffsetLeft(img, outputWidth, col - 1)
    requires pixelOffSetTop == OffsetTop(img, outputWidth, row - 1)
    ensures 0.0 <= pixelChunkBrightness <= 1.0
    ensures pixelChunkBrightness == CellBrightness(img, outputWidth, row - 1, col - 1)
    ensures log == log0 + Logged(diagLog, SampleRecords(CellSamples(img, outputWidth, row - 1, col - 1)))
  {
    ghost var s := CellSamples(img, outputWidth, row - 1, col - 1);
    var brightSum, pixelCount;
    brightSum, pixelCount, log := SumChunk(img, pixelOffSetLeft.Floor, pixelOffSetTop.Floor,
                                           pixelChunkWidth.Floor, pixelChunkHeight.Floor, diagLog, log0);
    assert pixelCount == |s| && brightSum == BrightSum(img, s);
    pixelChunkBrightness := brightSum / pixelCount as real;
    assert pixelChunkBrightness == CellBrightness(img, outputWidth, row - 1, col - 1);
  }

  /** The body of the column loop for the chunk in 1-based line `row` and
      column `col`: log where it starts, sample and average it logging each
      sample, log the brightness, then pick and log the clamped index. */
  method ChunkIndex(img: Image, outputWidth: int, row: int, col: int,
                    pixelOffSetLeft: real, pixelOffSetTop: real, pixelChunkWidth: real, pixelChunkHeight: real,
                    diagLog: bool, log0: seq<DiagRecord>)
    returns (outputIndex: int, log: seq<DiagRecord>)
    requires ValidInput(img, outputWidth)
    requires 1 <= row <= OutputHeight(img, outputWidth) && 1 <= col <= outputWidth
    requires pixelChunkWidth == ChunkWidth(img, outputWidth) && pixelChunkHeight == ChunkHeight(img, outputWidth)
    requires pixelOffSetLeft == OffsetLeft(img, outputWidth, col - 1)
    requires pixelOffSetTop == OffsetTop(img, outputWidth, row - 1)
    ensures 0 <= outputIndex < |OutputCharSet|
    ensures outputIndex == CellIndex(img, outputWidth, row - 1, col - 1)
    ensures log == log0 + Logged(diagLog, CellTrace(img, outputWidth, row - 1, col - 1))
  {
    log := log0;
    if diagLog {
      log := log + [CellStart(row, col, pixelOffSetLeft, pixelOffSetTop)];
    }
    var pixelChunkBrightness;
    pixelChunkBrightness, log := ChunkBrightness(img, outputWidth, row, col, pixelOffSetLeft, pixelOffSetTop,
                                                 pixelChunkWidth, pixelChunkHeight, diagLog, log);
    if diagLog {
      log := log + [Brightness(pixelChunkBrightness)];
    }

    outputIndex := (pixelChunkBrightness * |OutputCharSet| as real).Floor;
    if outputIndex == |OutputCharSet| {
      outputIndex := outputIndex - 1;
    }
    if diagLog {
      log := log + [Index(outputIndex, |OutputCharSet|)];
    }
    CellJoin(diagLog, log0, CellStart(row, col, pixelOffSetLeft, pixelOffSetTop),
             SampleRecords(CellSamples(img, outputWidth, row - 1, col - 1)),
             Brightness(pixelChunkBrightness), Index(outputIndex, |OutputCharSet|));
  }

  /** Logging a cell's records one at a time, each only when logging is on,
      logs the cell's records. */
  lemma CellJoin(diagLog: bool, log0: seq<DiagRecord>, start: DiagRecord, samples: seq<DiagRecord>,
                 brightness: DiagRecord, index: DiagRecord)
    ensures log0 + (if diagLog then [start] else []) + Logged(diagLog, samples)
            + (if diagLog then [brightness] else []) + (if diagLog then [index] else [])
            == log0 + Logged(diagLog, [start] + samples + [brightness, index])
  {
    if diagLog {
      assert log0 + [start] + samples + [brightness] + [index] == log0 + ([start] + samples + [brightness, index]);
    } else {
      assert log0 + [] + [] + [] + [] == log0 + [];
    }
  }

  /** The column loop of 1-based output line `row`, logging every chunk: the
      characters are those of the line's ramp positions in `grid`, and the
      records those of its cells in `traces`, left to right. */
  method GenerateLine(img: Image, outputWidth: int, row: int,
                      ghost grid: seq<seq<int>>, ghost traces: seq<seq<seq<DiagRecord>>>,
                      pixelOffSetTop: real, pixelChunkWidth: real, pixelChunkHeight: real,
                      diagLog: bool, log0: seq<DiagRecord>)
    returns (line: string, log: seq<DiagRecord>)
    requires ValidInput(img, outputWidth) && 1 <= row <= OutputHeight(img, outputWidth)
    requires IsIndexGrid(img, outputWidth, grid) && IsTraceGrid(img, outputWidth, traces)
    requires pixelChunkWidth == ChunkWidth(img, outputWidth) && pixelChunkHeight == ChunkHeight(img, outputWidth)
    requires pixelOffSetTop == OffsetTop(img, outputWidth, row - 1)
    ensures Renders(line, grid[row - 1])
    ensures log == log0 + Logged(diagLog, Join(traces[row - 1]))
  {
    ghost var cells := traces[row - 1];
    var pixelOffSetLeft := 0.0;
    line, log := "", log0;
    var col := 1;
    while col <= outputWidth
      invariant 1 <= col <= outputWidth + 1
      invariant pixelOffSetLeft == OffsetLeft(img, outputWidth, col - 1)
      invariant |line| == col - 1
      invariant forall k :: 0 <= k < col - 1 ==> line[k] == OutputCharSet[grid[row - 1][k]]
      invariant log == log0 + Logged(diagLog, Join(cells[..col - 1]))
    {
      ghost var logBefore := log;
      var outputIndex;
      outputIndex, log := ChunkIndex(img, outputWidth, row, col, pixelOffSetLeft, pixelOffSetTop,
                                     pixelChunkWidth, pixelChunkHeight, diagLog, log);
      assert outputIndex == grid[row - 1][col - 1];
      assert log == logBefore + Logged(diagLog, cells[col - 1]);
      JoinStep(cells, col - 1);
      LoggedAppend(diagLog, log0, Join(cells[..col - 1]), cells[col - 1]);
      line := line + [OutputCharSet[outputIndex]];
      pixelOffSetLeft := pixelOffSetLeft + pixelChunkWidth;
      col := col + 1;
    }
    assert cells[..col - 1] == cells;
  }

  /** Logging two runs of records in turn logs their concatenation. */
  lemma LoggedAppend(diagLog: bool, log0: seq<DiagRecord>, a: seq<DiagRecord>, b: seq<DiagRecord>)
    ensures log0 + Logged(diagLog, a) + Logged(diagLog, b) == log0 + Logged(diagLog, a + b)
  {
    if diagLog {
      assert log0 + a + b == log0 + (a + b);
    } else {
      assert log0 + [] + [] == log0;
    }
  }

  /** The row loop: `outputHeight` lines, the top offset advancing by one
      chunk height per line, each line rendering its line of `grid` and
      logging its records of `traces` after those of the lines before. */
  method GenerateLines(img: Image, outputWidth: int,
                       ghost grid: seq<seq<int>>, ghost traces: seq<seq<seq<DiagRecord>>>,
                       pixelChunkWidth: real, pixelChunkHeight: real,
                       outputHeight: int, diagLog: bool, log0: seq<DiagRecord>)
    returns (lines: seq<string>, log: seq<DiagRecord>)
    requires ValidInput(img, outputWidth)
    requires IsIndexGrid(img, outputWidth, grid) && IsTraceGrid(img, outputWidth, traces)
    requires pixelChunkWidth == ChunkWidth(img, outputWidth) && pixelChunkHeight == ChunkHeight(img, outputWidth)
    requires outputHeight == OutputHeight(img, outputWidth)
    ensures |lines| == |grid| && forall row :: 0 <= row < |lines| ==> Renders(lines[row], grid[row])
    ensures log == log0 + Logged(diagLog, JoinRows(traces))
  {
    var pixelOffSetTop := 0.0;
    lines, log := [], log0;
    var row := 1;
    while row <= outputHeight
      invariant 1 <= row <= outputHeight + 1
      invariant pixelOffSetTop == OffsetTop(img, outputWidth, row - 1)
      invariant |lines| == row - 1
      invariant forall r :: 0 <= r < row - 1 ==> Renders(lines[r], grid[r])
      invariant log == log0 + Logged(diagLog, JoinRows(traces[..row - 1]))
    {
      var line;
      line, log := GenerateLine(img, outputWidth, row, grid, traces, pixelOffSetTop, pixelChunkWidth, pixelChunkHeight,
                                diagLog, log);
      JoinRowsStep(traces, row - 1);
      LoggedAppend(diagLog, log0, JoinRows(traces[..row - 1]), Join(traces[row - 1]));
      lines := lines + [line];
      pixelOffSetTop := pixelOffSetTop + pixelChunkHeight;
      row := row + 1;
    }
    assert traces[..row - 1] == traces;
  }

  /** Converts the image as the plain variant does and returns, when
      `diagLog` is set, the whole diagnostic log; otherwise an empty log. */
  method GenerateAsciiArt(img: Image, outputWidth: int, diagLog: bool)
    returns (lines: seq<string>, log: seq<DiagRecord>)
    requires ValidInput(img, outputWidth)
    ensures lines == Convert(img, outputWidth)
    ensures log == DiagLog(img, outputWidth, diagLog)
    ensures !diagLog ==> log == []
  {
    var pixelChunkWidth := img.width as real / outputWidth as real;
    var pixelChunkHeight := pixelChunkWidth / FontAspectRatio;
    var outputHeight := RoundHalfEven(img.height as real / pixelChunkHeight);
    assert outputHeight == OutputHeight(img, outputWidth);

    log := [];
    if diagLog {
      log := [OutputSize(outputWidth, outputHeight),
              BitmapSize(img.width, img.height),
              ChunkSize(pixelChunkWidth, pixelChunkHeight)];
    }
    assert log == [] + Logged(diagLog, Header(img, outputWidth));

    ghost var grid := IndexGridExists(img, outputWidth);
    ghost var traces := TraceGridExists(img, outputWidth);
    lines, log := GenerateLines(img, outputWidth, grid, traces, pixelChunkWidth, pixelChunkHeight, outputHeight,
                                diagLog, log);
    ConvertFromGrid(img, outputWidth, grid, lines);
    TraceFromGrid(img, outputWidth, traces);
    LoggedAppend(diagLog, [], Header(img, outputWidth), JoinRows(traces));
  }
}
