/**
 The ramp positions of a conversion laid out as a grid, line by line. The
 loops of both variants fill the output from such a grid one cell at a time;
 the lemma here shows that doing so yields exactly the text of the model.
 */
module CellGrid {
  import opened Geometry
  import opened Ramp
  import opened Conversion

  /** `line` shows the ramp positions `cells`, one character each. */
  predicate Renders(line: string, cells: seq<int>)
  {
    && |line| == |cells|
    && forall col :: 0 <= col < |cells| ==> 0 <= cells[col] < |OutputCharSet| && line[col] == OutputCharSet[cells[col]]
  }

  /** `grid` holds the ramp position of every cell of the output, by line
      and then by column. */
  predicate IsIndexGrid(img: Image, outputWidth: int, grid: seq<seq<int>>)
    requires ValidInput(img, outputWidth)
  {
    && |grid| == OutputHeight(img, outputWidth)
    && (forall row :: 0 <= row < |grid| ==> |grid[row]| == outputWidth)
    && (forall row, col :: 0 <= row < |grid| && 0 <= col < |grid[row]| ==> 0 <= grid[row][col] < |OutputCharSet|)
    && (forall row, col {:trigger CellIndex(img, outputWidth, row, col)} ::
          0 <= row < |grid| && 0 <= col < outputWidth ==> grid[row][col] == CellIndex(img, outputWidth, row, col))
  }

  /** Every valid input has its grid of ramp positions. */
  lemma IndexGridExists(img: Image, outputWidth: int) returns (grid: seq<seq<int>>)
    requires ValidInput(img, outputWidth)
    ensures IsIndexGrid(img, outputWidth, grid)
  {
    var oh := OutputHeight(img, outputWidth);
    grid := seq(oh, row requires 0 <= row < oh =>
                  seq(outputWidth, col requires 0 <= col < outputWidth => CellIndex(img, outputWidth, row, col)));
  }

  /** Lines that render the grid line by line are the converted text: the
      text is determined by the ramp positions of its cells. */
  lemma ConvertFromGrid(img: Image, outputWidth: int, grid: seq<seq<int>>, lines: seq<string>)
    requires ValidInput(img, outputWidth) && IsIndexGrid(img, outputWidth, grid)
    requires |lines| == |grid| && forall row :: 0 <= row < |lines| ==> Renders(lines[row], grid[row])
    ensures lines == Convert(img, outputWidth)
  {
    var text := Convert(img, outputWidth);
    forall row | 0 <= row < |lines|
      ensures lines[row] == text[row]
    {
      forall col | 0 <= col < outputWidth
        ensures lines[row][col] == text[row][col]
      {
        assert grid[row][col] == CellIndex(img, outputWidth, row, col);
      }
    }
  }
}
