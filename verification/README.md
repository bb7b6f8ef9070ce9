# ASCII-art conversion of ASCIIArtWPF, modelled in Dafny

ASCIIArtWPF turns a bitmap into ASCII art. The image is cut into a grid of
pixel chunks. A chunk is `width / outputWidth` pixels wide and that width divided by the
font aspect ratio 0.6 tall. The number of output lines is the image height
divided by the chunk height, rounded. For each chunk the converter averages
the brightness of the pixels it samples. A sample that falls outside the bitmap is skipped,
not clamped. The average picks a character of the ramp `"@%#*+=-:. "`,
densest glyph first. Index `floor(b * 10)` is clamped to 9 when b = 1. The
characters of a line are appended one by one, and the lines are appended one after another.
The second variant, `AscArtWithDiag.GenerateAsciiArt`, does the same
conversion and, when its `diagLog` switch is on, also writes a log with
three header lines and, for each cell, its start, every kept sample, its
brightness and the chosen index.

The project has these modules:

- `Geometry` — image, pixel, chunk size, output height (round-half-even as
  .NET `Math.Round`), running offsets.
- `Sampling` — the samples of a chunk in loop order, their brightness sum and average.
- `Ramp` — the brightness-to-index mapping with its clamp.
- `Conversion` — pure per-cell functions and `Convert`, the whole text.
- `CellGrid` — the link between loops that fill the text cell by cell and `Convert`.
- `DiagTrace` — the diagnostic log as a sequence of `DiagRecord`s and its properties.
- `AscArt` and `AscArtWithDiag` — the two conversion routines, written as loops the
  way the source writes them.

Both routines are proved to return exactly `Convert`. The logging variant
also returns exactly the log `DiagLog`.

Doubles are modelled as exact reals, and a `(int)` cast of a non-negative double as `Floor`.
Because of this, after `k` additions `pixelOffSetLeft += pixelChunkWidth` the
running offset is exactly `k * pixelChunkWidth`: at the source's 1-based
column `col` the offset in use is `(col - 1) * pixelChunkWidth`, and likewise
for rows. The bitmap is a width, a height and a
brightness function. `GetPixel(x, y).GetBrightness()` becomes `img.brightness(x, y)`, and
`ValidImage` carries the promise that its values lie in [0, 1].

## Model

| member | source | states |
|---|---|---|
| Geometry.ChunkWidth | ASCIIArtWPF/AscArt.cs:27 | the chunk width is at least one pixel whenever the output is no wider than the bitmap |
| Geometry.ChunkHeight | ASCIIArtWPF/AscArt.cs:28 | the chunk height times the font aspect ratio is the chunk width, and it exceeds one pixel |
| Geometry.RoundHalfEven | ASCIIArtWPF/AscArt.cs:31 | the result is within one half of the argument and is even when the argument is exactly halfway |
| Geometry.RoundHalfEvenUnique | ASCIIArtWPF/AscArt.cs:31 | any integer with those two properties is the rounded value, so the rounding is fully determined |
| Geometry.OutputHeight | ASCIIArtWPF/AscArt.cs:31 | the number of lines is within half a line of the image height measured in chunk heights |
| Geometry.OffsetLeftExact | ASCIIArtWPF/AscArt.cs:39-72 | after `col` additions the running left offset is exactly `col` chunk widths |
| Geometry.OffsetTopExact | ASCIIArtWPF/AscArt.cs:34-75 | after `row` additions the running top offset is exactly `row` chunk heights |
| Geometry.OffsetLeftInside | ASCIIArtWPF/AscArt.cs:41-51 | every chunk column of the output starts left of the image's right edge |
| Geometry.OffsetTopInside | ASCIIArtWPF/AscArt.cs:31-52 | every line of the output starts at least half a chunk height above the image's bottom edge |
| Geometry.ChunkColumnsInside | ASCIIArtWPF/AscArt.cs:47-53 | every sample column of every chunk of a line, truncated start plus truncated width, lies inside the image width, so no column of a chunk is ever skipped |
| Geometry.ChunkOriginInBounds | ASCIIArtWPF/AscArt.cs:51-53 | the first sample of every chunk passes the bounds check |
| Geometry.OffsetsDependOnSize | ASCIIArtWPF/AscArt.cs:27-31 | chunk size, line count and offsets depend on the bitmap's size only |
| Sampling.KeptRows | ASCIIArtWPF/AscArt.cs:48-53 | the number of rows of a column kept by the bounds check: no more than the chunk height, and fewer only when the column reaches the bottom edge |
| Sampling.ColumnSamplesStep | ASCIIArtWPF/AscArt.cs:48-57 | one more row adds its pixel to the column's samples exactly when it passes the bounds check, and otherwise adds nothing |
| Sampling.ColumnSamplesHas | ASCIIArtWPF/AscArt.cs:48-53 | a pixel is a sample of the column exactly when it lies in the column's row range and inside the bitmap |
| Sampling.ColumnSamplesMembers | ASCIIArtWPF/AscArt.cs:48-53 | the same for every pixel at once, and a column keeps at most one sample per row of the chunk |
| Sampling.ChunkSamplesCount | ASCIIArtWPF/AscArt.cs:47-56 | the pixel count is at most `floor(cw) * floor(ch)` |
| Sampling.ChunkSamplesHas | ASCIIArtWPF/AscArt.cs:47-53 | a pixel is a sample of the chunk exactly when it lies in the chunk's column and row ranges and inside the bitmap: samples outside are skipped, not clamped |
| Sampling.ChunkSamplesMembers | ASCIIArtWPF/AscArt.cs:47-53 | the same membership statement for every pixel at once |
| Sampling.ChunkSamplesOrdered | ASCIIArtWPF/AscArt.cs:47-52 | the samples come column by column and top to bottom within a column, with no repeats |
| Sampling.ColumnSamplesShiftRight | ASCIIArtWPF/AscArt.cs:48-55 | in an image brightening left to right, a column moved right but still inside the image keeps as many samples with a sum at least as large |
| Sampling.ChunkSamplesShiftRight | ASCIIArtWPF/AscArt.cs:45-58 | a chunk moved right onto columns that are each at least as bright keeps its pixel count and a brightness sum at least as large |
| Sampling.BrightSumPointwise | ASCIIArtWPF/AscArt.cs:55 | samples paired one to one with at least as bright partners sum to no more than their partners |
| Sampling.BrightSumBounds | ASCIIArtWPF/AscArt.cs:55 | a sum of in-bitmap brightness values lies between 0 and the number of samples |
| Sampling.BrightSumConcat | ASCIIArtWPF/AscArt.cs:45-58 | summing two runs of samples one after the other gives the sum of the two sums |
| Sampling.AverageBounds | ASCIIArtWPF/AscArt.cs:60-61 | the average brightness of a non-empty set of in-bitmap samples lies in [0, 1] |
| Sampling.AverageMono | ASCIIArtWPF/AscArt.cs:61 | pixelwise brighter samples give a brighter average |
| Sampling.AverageUniform | ASCIIArtWPF/AscArt.cs:61 | samples of one brightness average to that brightness |
| Ramp.OutputIndex | ASCIIArtWPF/AscArt.cs:64-66 | for b below 1 the index is the bucket with `i <= b * len < i + 1`; b = 1 gets the last position |
| Ramp.OutputIndexInRange | ASCIIArtWPF/AscArt.cs:64-68 | for every brightness in [0, 1] the clamped index is a valid position of the ramp |
| Ramp.OutputIndexMono | ASCIIArtWPF/AscArt.cs:64-66 | a brighter chunk never gets a smaller index, so never a denser glyph |
| Ramp.RampEnds | ASCIIArtWPF/AscArt.cs:17 | brightness 0 gives '@' and brightness 1 gives ' ' |
| Conversion.CellSamples | ASCIIArtWPF/AscArt.cs:47-58 | every cell of the output keeps at least one sample, so the division by the pixel count is defined |
| Conversion.CellSamplesBounds | ASCIIArtWPF/AscArt.cs:47-56 | every kept sample is a pixel of the bitmap, and there are at most `floor(cw) * floor(ch)` of them |
| Conversion.CellSamplesOrdered | ASCIIArtWPF/AscArt.cs:47-52 | a cell's samples come in the loops' order |
| Conversion.CellBrightness | ASCIIArtWPF/AscArt.cs:60-61 | the cell's average brightness lies in [0, 1] |
| Conversion.CellIndex | ASCIIArtWPF/AscArt.cs:64-68 | the cell's index is always a valid ramp position |
| Conversion.ConvertShape | ASCIIArtWPF/AscArt.cs:37-76 | the text has `outputHeight` lines of `outputWidth` characters, each a character of the ramp |
| Conversion.CellIndexUniform | ASCIIArtWPF/AscArt.cs:45-66 | a bitmap of one brightness gives the same ramp position in every cell |
| Conversion.CellSamplesDependOnSize | ASCIIArtWPF/AscArt.cs:47-53 | which pixels a cell samples depends on the bitmap's size only |
| Conversion.CellIndexMono | ASCIIArtWPF/AscArt.cs:45-66 | of two bitmaps of one size, the pixelwise brighter one never gets a denser glyph in any cell |
| Conversion.CellIndexMonoRight | ASCIIArtWPF/AscArt.cs:41-72 | in an image whose pixel rows brighten from left to right, each cell's ramp index is at most that of its right neighbour, so characters never get denser along a line |
| CellGrid.ConvertFromGrid | ASCIIArtWPF/AscArt.cs:37-76 | lines that render each cell's ramp position, line by line, are the converted text |
| AscArt.SumColumn | ASCIIArtWPF/AscArt.cs:48-58 | the inner loop adds the brightness of exactly the column's kept samples and counts them |
| AscArt.SumChunk | ASCIIArtWPF/AscArt.cs:45-58 | the two sampling loops compute the brightness sum and the pixel count of exactly the chunk's kept samples |
| AscArt.ChunkIndex | ASCIIArtWPF/AscArt.cs:43-66 | one pass of the column loop's body selects the cell's ramp position, always a valid index |
| AscArt.GenerateLine | ASCIIArtWPF/AscArt.cs:39-73 | the column loop appends one ramp character per cell of the line, in column order |
| AscArt.GenerateLines | ASCIIArtWPF/AscArt.cs:34-76 | the row loop produces `outputHeight` lines, each rendering its line of cells |
| AscArt.GenerateAsciiArt | ASCIIArtWPF/AscArt.cs:22-76 | the routine returns exactly the converted text: `outputHeight` lines of `outputWidth` ramp characters |
| DiagTrace.SampleRecordsSpec | ASCIIArtWPF/AscArt-WithDiag.cs:76-77 | the k-th sample record names the k-th kept sample |
| DiagTrace.SampleRecordsConcat | ASCIIArtWPF/AscArt-WithDiag.cs:65-79 | the sample records of two runs of samples are the records of the first run followed by those of the second |
| DiagTrace.TraceFromGrid | ASCIIArtWPF/AscArt-WithDiag.cs:41-101 | the log is the header followed by the cells' records, line by line and left to right |
| DiagTrace.CellTraceStart | ASCIIArtWPF/AscArt-WithDiag.cs:52-59 | a cell's first record carries its 1-based row and column and the offsets `(col-1) * pixelChunkWidth` and `(row-1) * pixelChunkHeight` in use there, the left one inside the image width and the top one at least half a chunk above the bottom |
| DiagTrace.CellTraceSamples | ASCIIArtWPF/AscArt-WithDiag.cs:65-79 | after the start record come exactly pixel-count sample records, between 1 and `floor(cw) * floor(ch)` of them, in bounds and in loop order |
| DiagTrace.CellTraceSampleRecords | ASCIIArtWPF/AscArt-WithDiag.cs:69-77 | records 1 to n of a cell name its n kept samples in order |
| DiagTrace.CellTraceEnd | ASCIIArtWPF/AscArt-WithDiag.cs:82-91 | a cell's records close with its brightness in [0, 1] and then the index that selects the cell's character, with the ramp length 10 |
| DiagTrace.CellTraceReplay | ASCIIArtWPF/AscArt-WithDiag.cs:87-95 | the index logged for a cell selects the character appended to the output |
| DiagTrace.LineTraceReplay | ASCIIArtWPF/AscArt-WithDiag.cs:55-98 | the index records of the first n cells of a line spell the first n characters of that line |
| DiagTrace.LinesTraceReplay | ASCIIArtWPF/AscArt-WithDiag.cs:52-101 | the index records of the first m lines spell those lines of the text, concatenated |
| DiagTrace.TraceReplay | ASCIIArtWPF/AscArt-WithDiag.cs:41-101 | the logged indices spell the whole output text: the logging variant logs the index it used |
| DiagTrace.ReplayHeader | ASCIIArtWPF/AscArt-WithDiag.cs:41-46 | the header records carry no index |
| DiagTrace.LineTraceBody | ASCIIArtWPF/AscArt-WithDiag.cs:55-98 | a line's records hold no header record, and every logged sample in them is a pixel of the bitmap |
| DiagTrace.LinesTraceBody | ASCIIArtWPF/AscArt-WithDiag.cs:52-101 | the same holds for the records of any number of lines |
| DiagTrace.TraceShape | ASCIIArtWPF/AscArt-WithDiag.cs:41-101 | the log opens with exactly the three header records (output size, bitmap size, chunk size), no header record appears later, and every logged sample is in bounds |
| AscArtWithDiag.SumColumn | ASCIIArtWPF/AscArt-WithDiag.cs:66-79 | the inner loop sums and counts the column's kept samples and logs one sample record for each, in order, when logging |
| AscArtWithDiag.SumChunk | ASCIIArtWPF/AscArt-WithDiag.cs:63-79 | the sampling loops compute the chunk's sum and count and log its sample records |
| AscArtWithDiag.ChunkBrightness | ASCIIArtWPF/AscArt-WithDiag.cs:61-84 | the chunk's average brightness is the cell's brightness, in [0, 1]; the samples are logged before it |
| AscArtWithDiag.ChunkIndex | ASCIIArtWPF/AscArt-WithDiag.cs:57-91 | the body of the column loop selects the cell's ramp position and logs exactly the cell's records |
| AscArtWithDiag.GenerateLine | ASCIIArtWPF/AscArt-WithDiag.cs:54-98 | the column loop renders its line of cells and logs the records of its cells in column order |
| AscArtWithDiag.GenerateLines | ASCIIArtWPF/AscArt-WithDiag.cs:48-101 | the row loop renders every line and logs every cell's records, line by line |
| AscArtWithDiag.GenerateAsciiArt | ASCIIArtWPF/AscArt-WithDiag.cs:22-101 | the logging variant returns the same text as the plain one, and its log is the header plus the cell records when the switch is on and empty when it is off |

## Left out

- Writing the text to `outputFile` and the log to a `.log` file is not modelled. This is `File.WriteAllText` (AscArt.cs:79, AscArt-WithDiag.cs:104) and the `StreamWriter` with `AutoFlush` (AscArt-WithDiag.cs:24-30). The routines return the lines and the log instead.
- `AppendLine` is modelled as the end of one element of the returned sequence of lines. The platform's line terminator is not modelled.
- The log's text formatting (`string.Format` of doubles and integers) is not modelled. Each log line is a `DiagRecord` carrying the formatted values.
- `Bitmap.GetPixel(x, y).GetBrightness()` is a call into the imaging library. It is a parameter, the image's brightness function, which is assumed to lie in [0, 1] as that library documents.
- IEEE double rounding is not modelled; doubles are exact reals. In particular, the running offsets have no accumulated error. A chunk size whose floor differs from the true quotient's floor only by rounding error is not captured.
- `Geometry.ValidOutputWidth`: output widths outside 1 to the bitmap width are excluded by precondition. The caller (MainWindow.xaml.cs:73-83) always passes 100 and rejects a width larger than the bitmap. In the source a width of 0 makes the chunk width infinite and the line count 0 (AscArt.cs:27-31), and a negative width also gives 0 lines; the row loop never runs and the text is empty. Only a width above the bitmap width reaches a cell with no samples, where the average at AscArt.cs:61 is NaN and the index at :68 is out of range.
- `OutputCharSetAlternate` (AscArt.cs:20) is declared but never used by either routine.
- The WPF window, file dialogs and image loading in MainWindow.xaml.cs are not part of this model.
