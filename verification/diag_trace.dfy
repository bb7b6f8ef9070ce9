/**
 The diagnostic log of the logging variant, as a sequence of records instead
 of formatted text lines: what it contains, in which order, and that it
 agrees with the text the conversion produces.
 */
module DiagTrace {
  import opened Geometry
  import opened Sampling
  import opened Ramp
  import opened Conversion

  /** One line of the diagnostic log. Rows and columns in `CellStart` are
      1-based, as the source's loop counters. */
  datatype DiagRecord =
    | OutputSize(outputWidth: int, outputHeight: int)
    | BitmapSize(width: int, height: int)
    | ChunkSize(chunkWidth: real, chunkHeight: real)
    | CellStart(row: int, col: int, offsetLeft: real, offsetTop: real)
    | Sample(x: int, y: int)
    | Brightness(brightness: real)
    | Index(outputIndex: int, len: int)

  /** The three records written once, before any cell. */
  predicate IsHeader(r: DiagRecord)
  {
    r.OutputSize? || r.BitmapSize? || r.ChunkSize?
  }

  /** The header: output size, bitmap size, chunk size. */
  function Header(img: Image, outputWidth: int): seq<DiagRecord>
    requires ValidOutputWidth(img, outputWidth)
  {
    [OutputSize(outputWidth, OutputHeight(img, outputWidth)),
     BitmapSize(img.width, img.height),
     ChunkSize(ChunkWidth(img, outputWidth), ChunkHeight(img, outputWidth))]
  }

  /** One `Sample` record per kept sample, in sampling order. */
  function SampleRecords(s: seq<Pixel>): (t: seq<DiagRecord>)
    ensures |t| == |s|
  {
    if |s| == 0 then []
    else SampleRecords(s[..|s| - 1]) + [Sample(s[|s| - 1].x, s[|s| - 1].y)]
  }

  /** Record `k` names sample `k`. */
  lemma {:induction false} SampleRecordsSpec(s: seq<Pixel>)
    ensures forall k :: 0 <= k < |s| ==> SampleRecords(s)[k] == Sample(s[k].x, s[k].y)
  {
    if |s| > 0 {
      SampleRecordsSpec(s[..|s| - 1]);
    }
  }

  /** Logging one more sample appends its record. */
  lemma SampleRecordsAppend(s: seq<Pixel>, p: Pixel)
    ensures SampleRecords(s + [p]) == SampleRecords(s) + [Sample(p.x, p.y)]
  {
    assert (s + [p])[..|s|] == s;
  }

  /** The records of two runs of samples, one after the other. */
  lemma SampleRecordsConcat(a: seq<Pixel>, b: seq<Pixel>)
    ensures SampleRecords(a + b) == SampleRecords(a) + SampleRecords(b)
  {
    var t, u := SampleRecords(a + b), SampleRecords(a) + SampleRecords(b);
    SampleRecordsSpec(a + b);
    SampleRecordsSpec(a);
    SampleRecordsSpec(b);
    forall k | 0 <= k < |t|
      ensures t[k] == u[k]
    {
      if k < |a| {
        assert (a + b)[k] == a[k];
      } else {
        assert (a + b)[k] == b[k - |a|];
      }
    }
  }

  /** The records of one cell (0-based `row`, `col`): where it starts, its
      kept samples, its average brightness and the ramp index chosen. */
  function CellTrace(img: Image, outputWidth: int, row: nat, col: nat): seq<DiagRecord>
    requires ValidInput(img, outputWidth)
    requires row < OutputHeight(img, outputWidth) && col < outputWidth
  {
    [CellStart(row + 1, col + 1, OffsetLeft(img, outputWidth, col), OffsetTop(img, outputWidth, row))]
    + SampleRecords(CellSamples(img, outputWidth, row, col))
    + [Brightness(CellBrightness(img, outputWidth, row, col)),
       Index(CellIndex(img, outputWidth, row, col), |OutputCharSet|)]
  }

  /** The runs of records `ts`, one after the other. */
  function Join(ts: seq<seq<DiagRecord>>): seq<DiagRecord>
  {
    if |ts| == 0 then [] else Join(ts[..|ts| - 1]) + ts[|ts| - 1]
  }

  /** The runs of the lines `tss`, line after line. */
  function JoinRows(tss: seq<seq<seq<DiagRecord>>>): seq<DiagRecord>
  {
    if |tss| == 0 then [] else JoinRows(tss[..|tss| - 1]) + Join(tss[|tss| - 1])
  }

  /** The records of every cell, by 0-based line and then column. */
  function TraceGrid(img: Image, outputWidth: int): seq<seq<seq<DiagRecord>>>
    requires ValidInput(img, outputWidth)
  {
    var oh := OutputHeight(img, outputWidth);
    seq(oh, row requires 0 <= row < oh =>
          seq(outputWidth, col requires 0 <= col < outputWidth => CellTrace(img, outputWidth, row, col)))
  }

  /** The whole log of one conversion: the header, then every cell's
      records, line by line and left to right within a line. */
  function Trace(img: Image, outputWidth: int): seq<DiagRecord>
    requires ValidInput(img, outputWidth)
  {
    Header(img, outputWidth) + JoinRows(TraceGrid(img, outputWidth))
  }

  /** Records `t` when logging is switched on, nothing otherwise. */
  function Logged(diagLog: bool, t: seq<DiagRecord>): seq<DiagRecord>
  {
    if diagLog then t else []
  }

  /** What the logging variant writes: the log when asked for, else nothing. */
  function DiagLog(img: Image, outputWidth: int, diagLog: bool): seq<DiagRecord>
    requires ValidInput(img, outputWidth)
  {
    Logged(diagLog, Trace(img, outputWidth))
  }

  /** `traces` holds the records of every cell of the output, by line and
      then by column. Only a cell named in a proof is linked to its
      records, which keeps proofs about whole lines small. */
  predicate IsTraceGrid(img: Image, outputWidth: int, traces: seq<seq<seq<DiagRecord>>>)
    requires ValidInput(img, outputWidth)
  {
    && |traces| == OutputHeight(img, outputWidth)
    && (forall row :: 0 <= row < |traces| ==> |traces[row]| == outputWidth)
    && (forall row, col {:trigger CellTrace(img, outputWidth, row, col)} ::
          0 <= row < |traces| && 0 <= col < outputWidth ==> traces[row][col] == CellTrace(img, outputWidth, row, col))
  }

  /** The grid of the model is a grid of the cells' records, and the only one. */
  lemma TraceGridUnique(img: Image, outputWidth: int, traces: seq<seq<seq<DiagRecord>>>)
    requires ValidInput(img, outputWidth)
    ensures IsTraceGrid(img, outputWidth, TraceGrid(img, outputWidth))
    ensures IsTraceGrid(img, outputWidth, traces) ==> traces == TraceGrid(img, outputWidth)
  {
    var grid := TraceGrid(img, outputWidth);
    if IsTraceGrid(img, outputWidth, traces) {
      forall row | 0 <= row < |traces|
        ensures traces[row] == grid[row]
      {
        forall col | 0 <= col < outputWidth
          ensures traces[row][col] == grid[row][col]
        {
          assert traces[row][col] == CellTrace(img, outputWidth, row, col);
        }
      }
    }
  }

  /** A grid of the cells' records, for proofs to refer to. */
  lemma TraceGridExists(img: Image, outputWidth: int) returns (traces: seq<seq<seq<DiagRecord>>>)
    requires ValidInput(img, outputWidth)
    ensures IsTraceGrid(img, outputWidth, traces)
  {
    traces := TraceGrid(img, outputWidth);
    TraceGridUnique(img, outputWidth, traces);
  }

  /** The log is the header followed by the records of any grid of the
      cells' records, joined line by line. */
  lemma TraceFromGrid(img: Image, outputWidth: int, traces: seq<seq<seq<DiagRecord>>>)
    requires ValidInput(img, outputWidth) && IsTraceGrid(img, outputWidth, traces)
    ensures Trace(img, outputWidth) == Header(img, outputWidth) + JoinRows(traces)
  {
    TraceGridUnique(img, outputWidth, traces);
  }

  /** Joining one more run appends it. */
  lemma JoinStep(ts: seq<seq<DiagRecord>>, n: nat)
    requires n < |ts|
    ensures Join(ts[..n + 1]) == Join(ts[..n]) + ts[n]
  {
    assert ts[..n + 1][..n] == ts[..n];
  }

  /** Joining one more line appends its records. */
  lemma JoinRowsStep(tss: seq<seq<seq<DiagRecord>>>, m: nat)
    requires m < |tss|
    ensures JoinRows(tss[..m + 1]) == JoinRows(tss[..m]) + Join(tss[m])
  {
    assert tss[..m + 1][..m] == tss[..m];
  }

  /** A cell's records open with one `CellStart` carrying the 1-based row
      and column and the offsets in use there: the source logs
      `(col - 1) * pixelChunkWidth` at its 1-based `col` and likewise for
      rows, and both offsets lie inside the image. */
  lemma CellTraceStart(img: Image, outputWidth: int, row: nat, col: nat)
    requires ValidInput(img, outputWidth)
    requires row < OutputHeight(img, outputWidth) && col < outputWidth
    ensures var r := CellTrace(img, outputWidth, row, col)[0];
            && r == CellStart(row + 1, col + 1, r.offsetLeft, r.offsetTop)
            && r.offsetLeft == col as real * ChunkWidth(img, outputWidth)
            && r.offsetTop == row as real * ChunkHeight(img, outputWidth)
            && 0.0 <= r.offsetLeft < img.width as real
            && 0.0 <= r.offsetTop && r.offsetTop + ChunkHeight(img, outputWidth) / 2.0 <= img.height as real
  {
    OffsetLeftExact(img, outputWidth, col);
    OffsetTopExact(img, outputWidth, row);
    OffsetLeftInside(img, outputWidth, col);
    OffsetTopInside(img, outputWidth, row);
  }

  /** After the `CellStart` come exactly the cell's pixel-count `Sample`
      records, each a pixel inside the image, in column-then-row order. */
  lemma CellTraceSamples(img: Image, outputWidth: int, row: nat, col: nat)
    requires ValidInput(img, outputWidth)
    requires row < OutputHeight(img, outputWidth) && col < outputWidth
    ensures var t := CellTrace(img, outputWidth, row, col);
            var n := |CellSamples(img, outputWidth, row, col)|;
            && 1 <= n <= ChunkWidth(img, outputWidth).Floor * ChunkHeight(img, outputWidth).Floor
            && |t| == n + 3
            && (forall k :: 1 <= k <= n ==> t[k].Sample? && InBounds(img.width, img.height, Pixel(t[k].x, t[k].y)))
            && (forall k, l :: 1 <= k < l <= n ==> Before(Pixel(t[k].x, t[k].y), Pixel(t[l].x, t[l].y)))
  {
    var s := CellSamples(img, outputWidth, row, col);
    var t := CellTrace(img, outputWidth, row, col);
    CellSamplesBounds(img, outputWidth, row, col);
    CellSamplesOrdered(img, outputWidth, row, col);
    CellTraceSampleRecords(img, outputWidth, row, col);
    forall k | 1 <= k <= |s|
      ensures InBounds(img.width, img.height, Pixel(t[k].x, t[k].y))
    {
      assert s[k - 1] in s;
    }
    forall k, l | 1 <= k < l <= |s|
      ensures Before(Pixel(t[k].x, t[k].y), Pixel(t[l].x, t[l].y))
    {
      assert Pixel(t[k].x, t[k].y) == s[k - 1] && Pixel(t[l].x, t[l].y) == s[l - 1];
    }
  }

  /** Records 1 to n of a cell name its n samples, in order. */
  lemma CellTraceSampleRecords(img: Image, outputWidth: int, row: nat, col: nat)
    requires ValidInput(img, outputWidth)
    requires row < OutputHeight(img, outputWidth) && col < outputWidth
    ensures var s := CellSamples(img, outputWidth, row, col);
            var t := CellTrace(img, outputWidth, row, col);
            forall k :: 1 <= k <= |s| ==> t[k] == Sample(s[k - 1].x, s[k - 1].y)
  {
    var s := CellSamples(img, outputWidth, row, col);
    var t := CellTrace(img, outputWidth, row, col);
    var sr := SampleRecords(s);
    SampleRecordsSpec(s);
    forall k | 1 <= k <= |s|
      ensures t[k] == Sample(s[k - 1].x, s[k - 1].y)
    {
      assert t[k] == sr[k - 1];
    }
  }

  /** A cell's records close with its average brightness, within [0, 1], and
      the clamped index, which lies in the ramp and selects the character the
      output has at that cell. */
  lemma CellTraceEnd(img: Image, outputWidth: int, row: nat, col: nat)
    requires ValidInput(img, outputWidth)
    requires row < OutputHeight(img, outputWidth) && col < outputWidth
    ensures var t := CellTrace(img, outputWidth, row, col);
            var n := |CellSamples(img, outputWidth, row, col)|;
            && |t| == n + 3
            && t[n + 1].Brightness? && 0.0 <= t[n + 1].brightness <= 1.0
            && t[n + 2].Index? && t[n + 2].len == |OutputCharSet|
            && 0 <= t[n + 2].outputIndex < |OutputCharSet|
            && t[n + 2].outputIndex == CellIndex(img, outputWidth, row, col)
  {
    var t := CellTrace(img, outputWidth, row, col);
    var n := |CellSamples(img, outputWidth, row, col)|;
    assert t[n + 1] == Brightness(CellBrightness(img, outputWidth, row, col));
    assert t[n + 2] == Index(CellIndex(img, outputWidth, row, col), |OutputCharSet|);
  }

  /** The characters an `Index` record stands for: the ramp character it
      selects, or nothing for any other record. */
  function ReplayRecord(r: DiagRecord): string
  {
    if r.Index? && 0 <= r.outputIndex < |OutputCharSet| then [OutputCharSet[r.outputIndex]] else ""
  }

  /** The text a log spells out when its index records are read in order. */
  function Replay(t: seq<DiagRecord>): string
  {
    if |t| == 0 then ""
    else Replay(t[..|t| - 1]) + ReplayRecord(t[|t| - 1])
  }

  /** Replaying two logs one after the other replays their concatenation. */
  lemma {:induction false} ReplayConcat(a: seq<DiagRecord>, b: seq<DiagRecord>)
    ensures Replay(a + b) == Replay(a) + Replay(b)
  {
    if |b| == 0 {
      assert a + b == a;
    } else {
      var init := b[..|b| - 1];
      ReplayConcat(a, init);
      assert (a + b)[..|a + b| - 1] == a + init;
      var x, y, z := Replay(a), Replay(init), ReplayRecord(b[|b| - 1]);
      assert (x + y) + z == x + (y + z);
    }
  }

  /** A log without index records spells nothing. */
  lemma {:induction false} ReplayNone(t: seq<DiagRecord>)
    requires forall k :: 0 <= k < |t| ==> !t[k].Index?
    ensures Replay(t) == ""
  {
    if |t| > 0 {
      ReplayNone(t[..|t| - 1]);
    }
  }

  /** A cell's records spell exactly the character the output has there. */
  lemma CellTraceReplay(img: Image, outputWidth: int, row: nat, col: nat)
    requires ValidInput(img, outputWidth)
    requires row < OutputHeight(img, outputWidth) && col < outputWidth
    ensures Replay(CellTrace(img, outputWidth, row, col)) == [OutputCharSet[CellIndex(img, outputWidth, row, col)]]
  {
    var c := CellTrace(img, outputWidth, row, col);
    CellTraceSamples(img, outputWidth, row, col);
    ReplayNone(c[..|c| - 1]);
  }

  /** The records of the first `n` cells of a line spell its first `n` characters. */
  lemma {:induction false} LineTraceReplay(img: Image, outputWidth: int, traces: seq<seq<seq<DiagRecord>>>,
                                           row: nat, n: nat)
    requires ValidInput(img, outputWidth) && IsTraceGrid(img, outputWidth, traces)
    requires row < |traces| && n <= outputWidth
    ensures Replay(Join(traces[row][..n])) == Convert(img, outputWidth)[row][..n]
  {
    if n > 0 {
      var cells, line := traces[row], Convert(img, outputWidth)[row];
      LineTraceReplay(img, outputWidth, traces, row, n - 1);
      JoinStep(cells, n - 1);
      assert cells[n - 1] == CellTrace(img, outputWidth, row, n - 1);
      CellTraceReplay(img, outputWidth, row, n - 1);
      ReplayConcat(Join(cells[..n - 1]), cells[n - 1]);
      TakeLast(line, n);
    }
  }

  /** The output lines run together, without terminators. */
  function Flatten(lines: seq<string>): string
  {
    if |lines| == 0 then ""
    else Flatten(lines[..|lines| - 1]) + lines[|lines| - 1]
  }

  /** The records of the first `m` lines spell those lines, one after the other. */
  lemma {:induction false} LinesTraceReplay(img: Image, outputWidth: int, traces: seq<seq<seq<DiagRecord>>>, m: nat)
    requires ValidInput(img, outputWidth) && IsTraceGrid(img, outputWidth, traces)
    requires m <= |traces|
    ensures Replay(JoinRows(traces[..m])) == Flatten(Convert(img, outputWidth)[..m])
  {
    if m > 0 {
      var text := Convert(img, outputWidth);
      LinesTraceReplay(img, outputWidth, traces, m - 1);
      JoinRowsStep(traces, m - 1);
      LineTraceReplay(img, outputWidth, traces, m - 1, outputWidth);
      assert traces[m - 1][..outputWidth] == traces[m - 1];
      assert text[m - 1][..outputWidth] == text[m - 1];
      ReplayConcat(JoinRows(traces[..m - 1]), Join(traces[m - 1]));
      TakeLast(text, m);
      FlattenAppend(text[..m - 1], text[m - 1]);
    }
  }

  /** A prefix is the prefix one shorter followed by its last element. */
  lemma TakeLast<T>(s: seq<T>, n: nat)
    requires 0 < n <= |s|
    ensures s[..n] == s[..n - 1] + [s[n - 1]]
  {
  }

  /** Appending a line appends its characters. */
  lemma FlattenAppend(lines: seq<string>, line: string)
    ensures Flatten(lines + [line]) == Flatten(lines) + line
  {
    assert (lines + [line])[..|lines|] == lines;
  }

  /** The index records of the whole log spell the whole output text, line
      after line: the log records the very index each character came from. */
  lemma TraceReplay(img: Image, outputWidth: int)
    requires ValidInput(img, outputWidth)
    ensures Replay(Trace(img, outputWidth)) == Flatten(Convert(img, outputWidth))
  {
    var traces := TraceGridExists(img, outputWidth);
    TraceFromGrid(img, outputWidth, traces);
    ReplayHeader(img, outputWidth);
    ReplayConcat(Header(img, outputWidth), JoinRows(traces));
    LinesTraceReplay(img, outputWidth, traces, |traces|);
    assert traces[..|traces|] == traces;
    assert Convert(img, outputWidth)[..|traces|] == Convert(img, outputWidth);
  }

  /** The header spells nothing. */
  lemma ReplayHeader(img: Image, outputWidth: int)
    requires ValidOutputWidth(img, outputWidth)
    ensures Replay(Header(img, outputWidth)) == ""
  {
    ReplayNone(Header(img, outputWidth));
  }

  /** A record that may appear after the header: not a header record, and a
      sample only if it names a pixel of the image. */
  predicate BodyRecord(width: nat, height: nat, r: DiagRecord)
  {
    !IsHeader(r) && (r.Sample? ==> InBounds(width, height, Pixel(r.x, r.y)))
  }

  /** Every record of `t` may appear after the header. */
  predicate AllBody(width: nat, height: nat, t: seq<DiagRecord>)
  {
    forall k :: 0 <= k < |t| ==> BodyRecord(width, height, t[k])
  }

  /** Body records stay body records when two logs are joined. */
  lemma AllBodyConcat(width: nat, height: nat, a: seq<DiagRecord>, b: seq<DiagRecord>)
    requires AllBody(width, height, a) && AllBody(width, height, b)
    ensures AllBody(width, height, a + b)
  {
    forall k | 0 <= k < |a + b|
      ensures BodyRecord(width, height, (a + b)[k])
    {
      if k >= |a| {
        assert (a + b)[k] == b[k - |a|];
      }
    }
  }

  /** A cell's records are all body records. */
  lemma CellTraceBody(img: Image, outputWidth: int, row: nat, col: nat)
    requires ValidInput(img, outputWidth)
    requires row < OutputHeight(img, outputWidth) && col < outputWidth
    ensures AllBody(img.width, img.height, CellTrace(img, outputWidth, row, col))
  {
    CellTraceSamples(img, outputWidth, row, col);
  }

  /** The first `n` cells of a line log only body records. */
  lemma {:induction false} LineTraceBody(img: Image, outputWidth: int, traces: seq<seq<seq<DiagRecord>>>,
                                         row: nat, n: nat)
    requires ValidInput(img, outputWidth) && IsTraceGrid(img, outputWidth, traces)
    requires row < |traces| && n <= outputWidth
    ensures AllBody(img.width, img.height, Join(traces[row][..n]))
  {
    if n > 0 {
      var cells := traces[row];
      LineTraceBody(img, outputWidth, traces, row, n - 1);
      JoinStep(cells, n - 1);
      assert cells[n - 1] == CellTrace(img, outputWidth, row, n - 1);
      CellTraceBody(img, outputWidth, row, n - 1);
      AllBodyConcat(img.width, img.height, Join(cells[..n - 1]), cells[n - 1]);
    }
  }

  /** The first `m` lines log only body records. */
  lemma {:induction false} LinesTraceBody(img: Image, outputWidth: int, traces: seq<seq<seq<DiagRecord>>>, m: nat)
    requires ValidInput(img, outputWidth) && IsTraceGrid(img, outputWidth, traces)
    requires m <= |traces|
    ensures AllBody(img.width, img.height, JoinRows(traces[..m]))
  {
    if m > 0 {
      LinesTraceBody(img, outputWidth, traces, m - 1);
      JoinRowsStep(traces, m - 1);
      LineTraceBody(img, outputWidth, traces, m - 1, outputWidth);
      assert traces[m - 1][..outputWidth] == traces[m - 1];
      AllBodyConcat(img.width, img.height, JoinRows(traces[..m - 1]), Join(traces[m - 1]));
    }
  }

  /** The log opens with exactly the three header records (output size,
      bitmap size, chunk size), and none of them appears again; every
      logged sample is a pixel of the image. */
  lemma TraceShape(img: Image, outputWidth: int)
    requires ValidInput(img, outputWidth)
    ensures var t := Trace(img, outputWidth);
            && |t| >= 3
            && t[0] == OutputSize(outputWidth, OutputHeight(img, outputWidth))
            && t[1] == BitmapSize(img.width, img.height)
            && t[2] == ChunkSize(ChunkWidth(img, outputWidth), ChunkHeight(img, outputWidth))
            && (forall k :: 3 <= k < |t| ==> !IsHeader(t[k]))
            && (forall k :: 3 <= k < |t| && t[k].Sample? ==> InBounds(img.width, img.height, Pixel(t[k].x, t[k].y)))
  {
    var traces := TraceGridExists(img, outputWidth);
    TraceFromGrid(img, outputWidth, traces);
    LinesTraceBody(img, outputWidth, traces, |traces|);
    assert traces[..|traces|] == traces;
    var body := JoinRows(traces);
    var t := Trace(img, outputWidth);
    forall k | 3 <= k < |t|
      ensures BodyRecord(img.width, img.height, t[k])
    {
      assert t[k] == body[k - 3];
    }
  }
}
