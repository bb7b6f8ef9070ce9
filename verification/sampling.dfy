/**
 Sampling of one pixel chunk: the pixels visited by the two nested loops
 (column offset outer, row offset inner), of which those outside the image are
 skipped, and the sum and average of their brightness.
 */
module Sampling {
  import opened Geometry

  /** `p` comes before `q` in the visiting order: by column, then by row. */
  predicate Before(p: Pixel, q: Pixel)
  {
    p.x < q.x || (p.x == q.x && p.y < q.y)
  }

  /** Every sample of `s` comes before all later ones: no pixel is visited
      twice and the visiting order is kept. */
  predicate Ordered(s: seq<Pixel>)
  {
    forall i, j :: 0 <= i < j < |s| ==> Before(s[i], s[j])
  }

  /** Sample `p` is kept when it lies left of the image's right edge and
      above its bottom edge; it is never moved back inside. */
  predicate Included(width: nat, height: nat, p: Pixel)
  {
    p.x < width && p.y < height
  }

  /** How many of the `n` rows from `top` down lie above the image's bottom
      edge at `height`: rows only grow, so the kept rows come first. */
  function KeptRows(height: nat, top: nat, n: nat): (k: nat)
    ensures k <= n
    ensures k == 0 || top + k <= height
    ensures k == n || top + k >= height
  {
    if top >= height then 0 else if n <= height - top then n else height - top
  }

  /** The kept samples of the inner loop over column `x`, rows `top` to
      `top + n - 1`, top to bottom: the rows above the bottom edge, or none
      when the column lies past the right edge. */
  function ColumnSamples(width: nat, height: nat, x: nat, top: nat, n: nat): seq<Pixel>
  {
    if x < width then seq(KeptRows(height, top, n), dy requires 0 <= dy => Pixel(x, top + dy)) else []
  }

  /** The kept samples of a chunk whose top-left pixel is (`left`, `top`),
      `nw` sample columns wide and `nh` sample rows high, column by column. */
  function ChunkSamples(width: nat, height: nat, left: nat, top: nat, nw: nat, nh: nat): seq<Pixel>
  {
    if nw == 0 then []
    else ChunkSamples(width, height, left, top, nw - 1, nh) + ColumnSamples(width, height, left + nw - 1, top, nh)
  }

  /** One more pass of the inner loop keeps the next sample exactly when
      it lies inside the image. */
  lemma ColumnSamplesStep(width: nat, height: nat, x: nat, top: nat, n: nat)
    ensures Included(width, height, Pixel(x, top + n)) ==>
              ColumnSamples(width, height, x, top, n + 1) == ColumnSamples(width, height, x, top, n) + [Pixel(x, top + n)]
    ensures !Included(width, height, Pixel(x, top + n)) ==>
              ColumnSamples(width, height, x, top, n + 1) == ColumnSamples(width, height, x, top, n)
  {
    var s, s' := ColumnSamples(width, height, x, top, n), ColumnSamples(width, height, x, top, n + 1);
    if Included(width, height, Pixel(x, top + n)) {
      assert KeptRows(height, top, n + 1) == n + 1 && KeptRows(height, top, n) == n;
      assert s' == s + [Pixel(x, top + n)];
    } else if x < width {
      assert KeptRows(height, top, n + 1) == KeptRows(height, top, n);
    }
  }

  /** Pixel `p` is kept by the column exactly when it lies in the column,
      within its `n` rows, and inside the image. */
  lemma ColumnSamplesHas(width: nat, height: nat, x: nat, top: nat, n: nat, p: Pixel)
    ensures p in ColumnSamples(width, height, x, top, n)
            <==> p.x == x && top <= p.y < top + n && InBounds(width, height, p)
  {
    var s := ColumnSamples(width, height, x, top, n);
    if p.x == x && top <= p.y < top + n && InBounds(width, height, p) {
      assert s[p.y - top] == p;
    }
  }

  /** A column keeps exactly its pixels inside the image, at most one per row. */
  lemma ColumnSamplesMembers(width: nat, height: nat, x: nat, top: nat, n: nat)
    ensures var s := ColumnSamples(width, height, x, top, n);
            && |s| <= n
            && (forall p :: p in s <==> p.x == x && top <= p.y < top + n && InBounds(width, height, p))
  {
    forall p: Pixel
      ensures p in ColumnSamples(width, height, x, top, n) <==> p.x == x && top <= p.y < top + n && InBounds(width, height, p)
    {
      ColumnSamplesHas(width, height, x, top, n, p);
    }
  }

  /** A column's samples run top to bottom. */
  lemma ColumnSamplesOrdered(width: nat, height: nat, x: nat, top: nat, n: nat)
    ensures Ordered(ColumnSamples(width, height, x, top, n))
  {
  }

  /** A chunk keeps at most `nw * nh` samples. */
  lemma {:induction false} ChunkSamplesCount(width: nat, height: nat, left: nat, top: nat, nw: nat, nh: nat)
    ensures |ChunkSamples(width, height, left, top, nw, nh)| <= nw * nh
  {
    if nw > 0 {
      ChunkSamplesCount(width, height, left, top, nw - 1, nh);
      assert (nw - 1) * nh + nh == nw * nh;
    }
  }

  /** Pixel `p` is kept by the chunk exactly when it lies in the chunk's
      rectangle and inside the image: samples past the edge are skipped,
      never moved back inside. */
  lemma {:induction false} ChunkSamplesHas(width: nat, height: nat, left: nat, top: nat, nw: nat, nh: nat, p: Pixel)
    ensures p in ChunkSamples(width, height, left, top, nw, nh)
            <==> left <= p.x < left + nw && top <= p.y < top + nh && InBounds(width, height, p)
  {
    if nw > 0 {
      ChunkSamplesHas(width, height, left, top, nw - 1, nh, p);
      ColumnSamplesHas(width, height, left + nw - 1, top, nh, p);
      InConcat(p, ChunkSamples(width, height, left, top, nw - 1, nh), ColumnSamples(width, height, left + nw - 1, top, nh),
               ChunkSamples(width, height, left, top, nw, nh));
    }
  }

  /** A pixel is in a concatenation exactly when it is in one of its parts. */
  lemma InConcat(p: Pixel, a: seq<Pixel>, b: seq<Pixel>, c: seq<Pixel>)
    requires c == a + b
    ensures p in c <==> p in a || p in b
  {
  }

  /** A chunk keeps exactly the pixels of its rectangle that lie inside the
      image. */
  lemma ChunkSamplesMembers(width: nat, height: nat, left: nat, top: nat, nw: nat, nh: nat)
    ensures forall p :: p in ChunkSamples(width, height, left, top, nw, nh)
              <==> left <= p.x < left + nw && top <= p.y < top + nh && InBounds(width, height, p)
  {
    forall p: Pixel
      ensures p in ChunkSamples(width, height, left, top, nw, nh)
              <==> left <= p.x < left + nw && top <= p.y < top + nh && InBounds(width, height, p)
    {
      ChunkSamplesHas(width, height, left, top, nw, nh, p);
    }
  }

  /** A chunk's samples come in visiting order, column by column and top to
      bottom within a column, so none is visited twice. */
  lemma {:induction false} ChunkSamplesOrdered(width: nat, height: nat, left: nat, top: nat, nw: nat, nh: nat)
    ensures Ordered(ChunkSamples(width, height, left, top, nw, nh))
  {
    if nw > 0 {
      var a := ChunkSamples(width, height, left, top, nw - 1, nh);
      var b := ColumnSamples(width, height, left + nw - 1, top, nh);
      ChunkSamplesOrdered(width, height, left, top, nw - 1, nh);
      ColumnSamplesOrdered(width, height, left + nw - 1, top, nh);
      forall i, j | 0 <= i < |a| && 0 <= j < |b|
        ensures Before(a[i], b[j])
      {
        assert a[i] in a && b[j] in b;
        ChunkSamplesHas(width, height, left, top, nw - 1, nh, a[i]);
        ColumnSamplesHas(width, height, left + nw - 1, top, nh, b[j]);
      }
      OrderedConcat(a, b);
      assert ChunkSamples(width, height, left, top, nw, nh) == a + b;
    }
  }

  /** Two ordered runs, every sample of the first before every sample of the
      second, form an ordered run. */
  lemma OrderedConcat(a: seq<Pixel>, b: seq<Pixel>)
    requires Ordered(a) && Ordered(b)
    requires forall i, j :: 0 <= i < |a| && 0 <= j < |b| ==> Before(a[i], b[j])
    ensures Ordered(a + b)
  {
    forall i, j | 0 <= i < j < |a + b|
      ensures Before((a + b)[i], (a + b)[j])
    {
      if j < |a| {
        assert (a + b)[i] == a[i] && (a + b)[j] == a[j];
      } else if i < |a| {
        assert (a + b)[i] == a[i] && (a + b)[j] == b[j - |a|];
      } else {
        assert (a + b)[i] == b[i - |a|] && (a + b)[j] == b[j - |a|];
      }
    }
  }

  /** Running brightness sum over the samples, in order. */
  function BrightSum(img: Image, s: seq<Pixel>): real
  {
    if |s| == 0 then 0.0
    else
      var last := s[|s| - 1];
      BrightSum(img, s[..|s| - 1]) + img.brightness(last.x, last.y)
  }

  /** Samples inside a valid image sum to between 0 and their number. */
  lemma {:induction false} BrightSumBounds(img: Image, s: seq<Pixel>)
    requires ValidImage(img)
    requires forall p :: p in s ==> InBounds(img.width, img.height, p)
    ensures 0.0 <= BrightSum(img, s) <= |s| as real
  {
    if |s| > 0 {
      var init := s[..|s| - 1];
      assert forall p :: p in init ==> p in s;
      BrightSumBounds(img, init);
      assert s[|s| - 1] in s;
    }
  }

  /** Adding one sample adds its brightness to the running sum. */
  lemma BrightSumAppend(img: Image, s: seq<Pixel>, p: Pixel)
    ensures BrightSum(img, s + [p]) == BrightSum(img, s) + img.brightness(p.x, p.y)
  {
    assert (s + [p])[..|s|] == s;
  }

  /** The sum over two runs of samples is the sum of their sums. */
  lemma {:induction false} BrightSumConcat(img: Image, a: seq<Pixel>, b: seq<Pixel>)
    ensures BrightSum(img, a + b) == BrightSum(img, a) + BrightSum(img, b)
  {
    if |b| == 0 {
      assert a + b == a;
    } else {
      var init := b[..|b| - 1];
      BrightSumConcat(img, a, init);
      assert (a + b)[..|a + b| - 1] == a + init;
    }
  }

  /** Sums that are each at most their partner stay so when concatenated. */
  lemma BrightSumConcatLe(img: Image, a1: seq<Pixel>, b1: seq<Pixel>, a2: seq<Pixel>, b2: seq<Pixel>)
    requires BrightSum(img, a1) <= BrightSum(img, a2) && BrightSum(img, b1) <= BrightSum(img, b2)
    ensures BrightSum(img, a1 + b1) <= BrightSum(img, a2 + b2)
  {
    BrightSumConcat(img, a1, b1);
    BrightSumConcat(img, a2, b2);
  }

  /** Average brightness of a non-empty run of samples. */
  function Average(img: Image, s: seq<Pixel>): real
    requires |s| >= 1
  {
    BrightSum(img, s) / |s| as real
  }

  /** Samples inside a valid image average to a brightness in [0, 1]. */
  lemma AverageBounds(img: Image, s: seq<Pixel>)
    requires |s| >= 1 && ValidImage(img)
    requires forall p :: p in s ==> InBounds(img.width, img.height, p)
    ensures 0.0 <= Average(img, s) <= 1.0
  {
    var sum := BrightSum(img, s);
    BrightSumBounds(img, s);
    DivLeMono(0.0, sum, |s| as real);
    DivLeMono(sum, |s| as real, |s| as real);
  }

  /** Division by a positive number preserves order. */
  lemma DivLeMono(a: real, b: real, c: real)
    requires a <= b && c > 0.0
    ensures a / c <= b / c
  {
    assert b / c - a / c == (b - a) / c;
  }

  /** Samples of uniform brightness `v` sum to `v` times their number. */
  lemma {:induction false} BrightSumUniform(img: Image, s: seq<Pixel>, v: real)
    requires forall p :: p in s ==> img.brightness(p.x, p.y) == v
    ensures BrightSum(img, s) == |s| as real * v
  {
    if |s| > 0 {
      var init := s[..|s| - 1];
      assert forall p :: p in init ==> p in s;
      BrightSumUniform(img, init, v);
      assert s[|s| - 1] in s;
    }
  }

  /** A pixelwise brighter image gives a brightness sum at least as large. */
  lemma {:induction false} BrightSumMono(img1: Image, img2: Image, s: seq<Pixel>)
    requires forall p :: p in s ==> img1.brightness(p.x, p.y) <= img2.brightness(p.x, p.y)
    ensures BrightSum(img1, s) <= BrightSum(img2, s)
  {
    if |s| > 0 {
      var init := s[..|s| - 1];
      assert forall p :: p in init ==> p in s;
      BrightSumMono(img1, img2, init);
      assert s[|s| - 1] in s;
    }
  }

  /** Samples paired one to one, each of `s2` at least as bright as its
      partner in `s1`, sum to at least as much. */
  lemma {:induction false} BrightSumPointwise(img: Image, s1: seq<Pixel>, s2: seq<Pixel>)
    requires |s1| == |s2|
    requires forall i :: 0 <= i < |s1| ==> img.brightness(s1[i].x, s1[i].y) <= img.brightness(s2[i].x, s2[i].y)
    ensures BrightSum(img, s1) <= BrightSum(img, s2)
  {
    if |s1| > 0 {
      var n := |s1| - 1;
      BrightSumPointwise(img, s1[..n], s2[..n]);
    }
  }

  /** Column `x + d` keeps as many samples as column `x` and its samples
      sum to at least as much. */
  predicate ColumnBrighter(img: Image, x: nat, d: nat, top: nat, nh: nat)
  {
    && |ColumnSamples(img.width, img.height, x, top, nh)| == |ColumnSamples(img.width, img.height, x + d, top, nh)|
    && BrightSum(img, ColumnSamples(img.width, img.height, x, top, nh))
       <= BrightSum(img, ColumnSamples(img.width, img.height, x + d, top, nh))
  }

  /** In an image brightening rightward, a column moved right by `d` to a
      column still inside the image is the brighter one. */
  lemma ColumnSamplesShiftRight(img: Image, x: nat, d: nat, top: nat, nh: nat)
    requires x + d < img.width && BrightensRightward(img)
    ensures ColumnBrighter(img, x, d, top, nh)
  {
    var c1 := ColumnSamples(img.width, img.height, x, top, nh);
    var c2 := ColumnSamples(img.width, img.height, x + d, top, nh);
    forall i | 0 <= i < |c1|
      ensures img.brightness(c1[i].x, c1[i].y) <= img.brightness(c2[i].x, c2[i].y)
    {
      assert c1[i] == Pixel(x, top + i) && c2[i] == Pixel(x + d, top + i);
    }
    BrightSumPointwise(img, c1, c2);
  }

  /** A chunk moved right by `d`, column by column onto brighter columns,
      keeps as many samples and its samples sum to at least as much. */
  lemma {:induction false} ChunkSamplesShiftRight(img: Image, left: nat, d: nat, top: nat, nw: nat, nh: nat)
    requires forall x :: left <= x < left + nw ==> ColumnBrighter(img, x, d, top, nh)
    ensures |ChunkSamples(img.width, img.height, left, top, nw, nh)| == |ChunkSamples(img.width, img.height, left + d, top, nw, nh)|
    ensures BrightSum(img, ChunkSamples(img.width, img.height, left, top, nw, nh))
            <= BrightSum(img, ChunkSamples(img.width, img.height, left + d, top, nw, nh))
  {
    if nw > 0 {
      var a1 := ChunkSamples(img.width, img.height, left, top, nw - 1, nh);
      var a2 := ChunkSamples(img.width, img.height, left + d, top, nw - 1, nh);
      var c1 := ColumnSamples(img.width, img.height, left + nw - 1, top, nh);
      var c2 := ColumnSamples(img.width, img.height, left + nw - 1 + d, top, nh);
      ChunkSamplesShiftRight(img, left, d, top, nw - 1, nh);
      assert ColumnBrighter(img, left + nw - 1, d, top, nh);
      BrightSumConcatLe(img, a1, c1, a2, c2);
      assert ChunkSamples(img.width, img.height, left, top, nw, nh) == a1 + c1;
      assert ChunkSamples(img.width, img.height, left + d, top, nw, nh) == a2 + c2;
    }
  }

  /** Averages over the same samples inherit that order. */
  lemma AverageMono(img1: Image, img2: Image, s: seq<Pixel>)
    requires |s| >= 1
    requires forall p :: p in s ==> img1.brightness(p.x, p.y) <= img2.brightness(p.x, p.y)
    ensures Average(img1, s) <= Average(img2, s)
  {
    BrightSumMono(img1, img2, s);
    var n := |s| as real;
    assert Average(img2, s) - Average(img1, s) == (BrightSum(img2, s) - BrightSum(img1, s)) / n;
  }

  /** The average of uniformly bright samples is that brightness. */
  lemma AverageUniform(img: Image, s: seq<Pixel>, v: real)
    requires |s| >= 1
    requires forall p :: p in s ==> img.brightness(p.x, p.y) == v
    ensures Average(img, s) == v
  {
    BrightSumUniform(img, s, v);
  }
}
