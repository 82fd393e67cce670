/** The integer image reduction of xtask/src/identity.rs: the source span of a destination index, the rounded
    box average over such spans, what it keeps of the source's total, and the crop. */
module Identity {
  import opened Numbers

  type u8 = x: int | 0 <= x < 0x100
  type u32 = x: int | 0 <= x < 0x1_0000_0000

  function ToU8(x: nat): u8 { x % 0x100 }

  function ToU32(x: nat): u32 { x % 0x1_0000_0000 }

  /** The half-open source span of destination index `i`. */
  function Span(i: u32, dst: u32, src: u32): (u32, u32)
    requires i < dst && 0 < src
  {
    CutFits(i, dst, src);
    var start := Min(ToU32(i * src / dst), src - 1);
    var end := ToU32((i + 1) * src / dst);
    (start, Min(Max(end, start + 1), src))
  }

  /** Row-major sample, zero past the end of the data. */
  function Pixel(src: seq<u8>, width: nat, y: nat, x: nat): u8 {
    var at := y * width + x;
    if at < |src| then src[at] else 0
  }

  function RowSum(src: seq<u8>, width: nat, y: nat, x0: nat, x1: nat): nat
    decreases x1 - x0
  {
    if x0 >= x1 then 0 else RowSum(src, width, y, x0, x1 - 1) + Pixel(src, width, y, x1 - 1)
  }

  function BoxSum(src: seq<u8>, width: nat, y0: nat, y1: nat, x0: nat, x1: nat): nat
    decreases y1 - y0
  {
    if y0 >= y1 then 0 else BoxSum(src, width, y0, y1 - 1, x0, x1) + RowSum(src, width, y1 - 1, x0, x1)
  }

  /** How many pixels a box holds. */
  function Area(ys: (nat, nat), xs: (nat, nat)): (r: nat)
    requires ys.0 <= ys.1 && xs.0 <= xs.1
    ensures ys.0 < ys.1 && xs.0 < xs.1 ==> 0 < r
  {
    (ys.1 - ys.0) * (xs.1 - xs.0)
  }

  function RoundedMean(sum: nat, count: nat): nat
    requires 0 < count
  {
    (sum + count / 2) / count
  }

  /** The mean of a box, rounded half up. */
  function BoxMean(src: seq<u8>, width: nat, ys: (nat, nat), xs: (nat, nat)): nat
    requires ys.0 < ys.1 && xs.0 < xs.1
  {
    RoundedMean(BoxSum(src, width, ys.0, ys.1, xs.0, xs.1), Area(ys, xs))
  }

  /** Row-major position. */
  function At(y: nat, x: nat, width: nat): nat { y * width + x }

  /** Destination pixel (`y`, `x`) is the rounded mean of its box of source pixels. */
  predicate PixelIs(out: seq<u8>, src: seq<u8>, srcW: u32, srcH: u32, dstW: u32, dstH: u32, y: nat, x: nat)
    requires y < dstH && x < dstW && 0 < srcW && 0 < srcH
  {
    && At(y, x, dstW) < |out|
    && SpanIsBox(y, dstH, srcH) && SpanIsBox(x, dstW, srcW)
    && out[At(y, x, dstW)] == BoxMean(src, srcW, Span(y, dstH, srcH), Span(x, dstW, srcW))
  }

  /** The image is the reduction of the source: what the loops of the reduction return. */
  predicate IsReduction(out: seq<u8>, src: seq<u8>, srcW: u32, srcH: u32, dstW: u32, dstH: u32)
    requires 0 < srcW && 0 < srcH
  {
    |out| == dstW * dstH && forall y, x :: 0 <= y < dstH && 0 <= x < dstW ==>
      PixelIs(out, src, srcW, srcH, dstW, dstH, y, x)
  }

  method DownsampleAlpha(src: seq<u8>, srcW: u32, srcH: u32, dstW: u32, dstH: u32) returns (out: seq<u8>)
    ensures srcW == 0 || srcH == 0 || dstW == 0 || dstH == 0 ==> out == []
    ensures srcW != 0 && srcH != 0 ==> IsReduction(out, src, srcW, srcH, dstW, dstH)
  {
    out := [];
    if srcW == 0 || srcH == 0 || dstW == 0 || dstH == 0 {
      return;
    }
    for y := 0 to dstH
      invariant |out| == y * dstW
      invariant forall j, k :: 0 <= j < y && 0 <= k < dstW ==> PixelIs(out, src, srcW, srcH, dstW, dstH, j, k)
    {
      SpanInside(y, dstH, srcH);
      var row := DownsampleRow(src, srcW, Span(y, dstH, srcH), dstW);
      OneRowMore(y, dstW);
      forall j, k | 0 <= j < y + 1 && 0 <= k < dstW ensures PixelIs(out + row, src, srcW, srcH, dstW, dstH, j, k) {
        RowJoins(out, row, src, srcW, srcH, dstW, dstH, y, j, k);
      }
      out := out + row;
    }
  }

  /** A new row keeps the pixels before it and adds its own means. */
  lemma RowJoins(out: seq<u8>, row: seq<u8>, src: seq<u8>, srcW: u32, srcH: u32, dstW: u32, dstH: u32, y: nat, j: nat,
                 k: nat)
    requires j <= y < dstH && k < dstW && 0 < srcW && 0 < srcH && |out| == y * dstW && |row| == dstW
    requires SpanIsBox(y, dstH, srcH) && SpanIsBox(k, dstW, srcW)
    requires row[k] == BoxMean(src, srcW, Span(y, dstH, srcH), Span(k, dstW, srcW))
    requires j < y ==> PixelIs(out, src, srcW, srcH, dstW, dstH, j, k)
    ensures PixelIs(out + row, src, srcW, srcH, dstW, dstH, j, k)
  {
    if j == y { assert At(y, k, dstW) == |out| + k; }
  }

  lemma OneRowMore(y: nat, width: nat)
    ensures (y + 1) * width == y * width + width
  {
  }

  /** Appending a row moves no pixel and puts its own at the row's positions. */
  lemma AppendRow(out: seq<u8>, row: seq<u8>, y: nat, width: nat)
    requires |out| == y * width && |row| == width
    ensures |out + row| == (y + 1) * width
    ensures forall j, k :: 0 <= j < y && 0 <= k < width ==>
      At(j, k, width) < |out| && (out + row)[At(j, k, width)] == out[At(j, k, width)]
    ensures forall k :: 0 <= k < width ==> At(y, k, width) < |out + row| && (out + row)[At(y, k, width)] == row[k]
  {
    assert (y + 1) * width == y * width + width;
    forall j, k | 0 <= j < y && 0 <= k < width ensures At(j, k, width) < |out| {
      MulLe(j + 1, y, width);
      assert (j + 1) * width == j * width + width;
    }
  }

  lemma MulLe(a: nat, b: nat, c: nat)
    requires a <= b
    ensures a * c <= b * c
  {
  }

  /** The loop over one destination row. */
  method DownsampleRow(src: seq<u8>, srcW: u32, ys: (nat, nat), dstW: u32) returns (row: seq<u8>)
    requires 0 < srcW && ys.0 < ys.1
    ensures |row| == dstW
    ensures forall k :: 0 <= k < dstW ==>
            SpanIsBox(k, dstW, srcW) && row[k] == BoxMean(src, srcW, ys, Span(k, dstW, srcW))
  {
    row := [];
    for x := 0 to dstW
      invariant |row| == x
      invariant forall k :: 0 <= k < x ==>
                SpanIsBox(k, dstW, srcW) && row[k] == BoxMean(src, srcW, ys, Span(k, dstW, srcW))
    {
      SpanInside(x, dstW, srcW);
      var mean := MeanOf(src, srcW, ys, Span(x, dstW, srcW));
      row := row + [mean];
    }
  }

  /** The two inner loops: one destination pixel. */
  method MeanOf(src: seq<u8>, width: nat, ys: (nat, nat), xs: (nat, nat)) returns (mean: u8)
    requires ys.0 < ys.1 && xs.0 < xs.1
    ensures mean == BoxMean(src, width, ys, xs)
  {
    var sum, count := 0, 0;
    for sy := ys.0 to ys.1
      invariant sum == BoxSum(src, width, ys.0, sy, xs.0, xs.1)
      invariant count == Area((ys.0, sy), xs)
    {
      AreaStep(ys.0, sy, xs);
      ghost var before, rows := sum, count;
      for sx := xs.0 to xs.1
        invariant sum == before + RowSum(src, width, sy, xs.0, sx) && count == rows + (sx - xs.0)
      {
        sum := sum + Pixel(src, width, sy, sx);
        count := count + 1;
      }
    }
    MeanIsBetween(src, width, ys, xs, 0, 255);
    mean := ToU8((sum + count / 2) / count);
  }

  // -------------------------------------------------------------------------------------------
  // Spans
  // -------------------------------------------------------------------------------------------

  lemma AreaStep(y0: nat, y: nat, xs: (nat, nat))
    requires y0 <= y && xs.0 <= xs.1
    ensures Area((y0, y + 1), xs) == Area((y0, y), xs) + (xs.1 - xs.0) && Area((y0, y0), xs) == 0
  {
  }

  lemma DivAtLeast(a: nat, d: nat, k: nat)
    requires 0 < d && k * d <= a
    ensures k <= a / d
  {
    var q := a / d;
    assert a < (q + 1) * d;
    if q < k { MulLe(q + 1, k, d); }
  }

  lemma DivBelow(a: nat, d: nat, k: nat)
    requires 0 < d && a < k * d
    ensures a / d < k
  {
    var q := a / d;
    assert q * d <= a;
    if k <= q { MulLe(k, q, d); }
  }

  /** Where the source is cut for destination index `i`. */
  function Cut(i: nat, dst: nat, src: nat): nat
    requires 0 < dst
  {
    i * src / dst
  }

  lemma CutFits(i: nat, dst: nat, src: nat)
    requires i < dst && 0 < src
    ensures Cut(i, dst, src) < src && Cut(i + 1, dst, src) <= src
  {
    MulLe(i + 1, dst, src);
    OneRowMore(i, src);
    OneRowMore(src, dst);
    Commutes(dst, src);
    DivBelow(i * src, dst, src);
    DivBelow((i + 1) * src, dst, src + 1);
  }

  lemma Commutes(a: nat, b: nat)
    ensures a * b == b * a
  {
  }

  predicate SpanIsBox(i: u32, dst: u32, src: u32)
    requires i < dst && 0 < src
  {
    var (start, end) := Span(i, dst, src);
    start < end <= src
  }

  /** A span is never empty and never leaves the source. */
  lemma SpanInside(i: u32, dst: u32, src: u32)
    requires i < dst && 0 < src
    ensures SpanIsBox(i, dst, src)
  {
  }

  /** Shrinking: the span ends where the next one begins. */
  lemma SpanWhenShrinking(i: u32, dst: u32, src: u32)
    requires i < dst <= src
    ensures Span(i, dst, src) == (Cut(i, dst, src), Cut(i + 1, dst, src))
    ensures Cut(0, dst, src) == 0 && Cut(dst, dst, src) == src && Cut(i, dst, src) < Cut(i + 1, dst, src) <= src
  {
    CutStep(i, dst, src);
    CutEnds(dst, src);
  }

  lemma CutStep(i: nat, dst: nat, src: nat)
    requires i < dst <= src
    ensures Cut(i, dst, src) < Cut(i + 1, dst, src) <= src
  {
    CutFits(i, dst, src);
    var q := Cut(i, dst, src);
    assert q * dst <= i * src;
    OneRowMore(i, src);
    OneRowMore(q, dst);
    DivAtLeast((i + 1) * src, dst, q + 1);
  }

  lemma CutEnds(dst: nat, src: nat)
    requires 0 < dst
    ensures Cut(0, dst, src) == 0 && Cut(dst, dst, src) == src
  {
    DivAtLeast(dst * src, dst, src);
    assert dst * src < (src + 1) * dst;
    DivBelow(dst * src, dst, src + 1);
  }

  /** Enlarging: every span is the one source pixel the index falls on. */
  lemma SpanWhenEnlarging(i: u32, dst: u32, src: u32)
    requires i < dst && 0 < src <= dst
    ensures Span(i, dst, src) == (Cut(i, dst, src), Cut(i, dst, src) + 1)
  {
    CutFits(i, dst, src);
    var q := Cut(i, dst, src);
    assert i * src < (q + 1) * dst;
    assert (i + 1) * src == i * src + src;
    assert (q + 2) * dst == (q + 1) * dst + dst;
    DivBelow((i + 1) * src, dst, q + 2);
  }

  /** Shrinking: every source position belongs to a span ... */
  lemma {:induction false} SpanOf(p: nat, n: nat, dst: nat, src: nat) returns (i: nat)
    requires n <= dst <= src && 0 < dst && p < Cut(n, dst, src)
    ensures i < n && Cut(i, dst, src) <= p < Cut(i + 1, dst, src)
  {
    CutEnds(dst, src);
    if p < Cut(n - 1, dst, src) {
      i := SpanOf(p, n - 1, dst, src);
    } else {
      i := n - 1;
    }
  }

  /** ... and to no other. */
  lemma SpansDisjoint(i: nat, j: nat, dst: nat, src: nat, p: nat)
    requires i < dst && j < dst <= src
    requires Cut(i, dst, src) <= p < Cut(i + 1, dst, src) && Cut(j, dst, src) <= p < Cut(j + 1, dst, src)
    ensures i == j
  {
    if i < j { CutMonotone(i + 1, j, dst, src); }
    if j < i { CutMonotone(j + 1, i, dst, src); }
  }

  /** Shrinking: every source pixel feeds one output pixel and no other. */
  lemma EachPixelFeedsOne(srcW: u32, srcH: u32, dstW: u32, dstH: u32, sy: nat, sx: nat) returns (y: nat, x: nat)
    requires 0 < dstW <= srcW && 0 < dstH <= srcH && sy < srcH && sx < srcW
    ensures y < dstH && x < dstW && Feeds(srcW, srcH, dstW, dstH, sy, sx, y, x)
    ensures forall j, k :: 0 <= j < dstH && 0 <= k < dstW && Feeds(srcW, srcH, dstW, dstH, sy, sx, j, k) ==>
            j == y && k == x
  {
    CutEnds(dstH, srcH);
    CutEnds(dstW, srcW);
    y := SpanOf(sy, dstH, dstH, srcH);
    x := SpanOf(sx, dstW, dstW, srcW);
    SpanWhenShrinking(y, dstH, srcH);
    SpanWhenShrinking(x, dstW, srcW);
    forall j, k | 0 <= j < dstH && 0 <= k < dstW && Feeds(srcW, srcH, dstW, dstH, sy, sx, j, k)
      ensures j == y && k == x {
      SpanWhenShrinking(j, dstH, srcH);
      SpanWhenShrinking(k, dstW, srcW);
      SpansDisjoint(j, y, dstH, srcH, sy);
      SpansDisjoint(k, x, dstW, srcW, sx);
    }
  }

  /** Source pixel (`sy`, `sx`) is in the box of output pixel (`y`, `x`). */
  predicate Feeds(srcW: u32, srcH: u32, dstW: u32, dstH: u32, sy: nat, sx: nat, y: nat, x: nat)
    requires y < dstH && x < dstW && 0 < srcW && 0 < srcH
  {
    var (ys, xs) := (Span(y, dstH, srcH), Span(x, dstW, srcW));
    ys.0 <= sy < ys.1 && xs.0 <= sx < xs.1
  }

  lemma CutMonotone(i: nat, j: nat, dst: nat, src: nat)
    requires i <= j && 0 < dst
    ensures Cut(i, dst, src) <= Cut(j, dst, src)
  {
    MulLe(i, j, src);
    assert Cut(i, dst, src) * dst <= i * src;
    DivAtLeast(j * src, dst, Cut(i, dst, src));
  }

  // -------------------------------------------------------------------------------------------
  // Means
  // -------------------------------------------------------------------------------------------

  lemma {:induction false} RowSumBetween(src: seq<u8>, width: nat, y: nat, x0: nat, x1: nat, lo: nat, hi: nat)
    requires x0 <= x1 && forall x :: x0 <= x < x1 ==> lo <= Pixel(src, width, y, x) <= hi
    ensures lo * (x1 - x0) <= RowSum(src, width, y, x0, x1) <= hi * (x1 - x0)
    decreases x1
  {
    if x0 < x1 {
      RowSumBetween(src, width, y, x0, x1 - 1, lo, hi);
      assert lo * (x1 - x0) == lo * (x1 - 1 - x0) + lo && hi * (x1 - x0) == hi * (x1 - 1 - x0) + hi;
    }
  }

  lemma {:induction false} BoxSumBetween(src: seq<u8>, width: nat, y0: nat, y1: nat, xs: (nat, nat), lo: nat, hi: nat)
    requires y0 <= y1 && xs.0 <= xs.1
    requires forall y, x :: y0 <= y < y1 && xs.0 <= x < xs.1 ==> lo <= Pixel(src, width, y, x) <= hi
    ensures lo * Area((y0, y1), xs) <= BoxSum(src, width, y0, y1, xs.0, xs.1) <= hi * Area((y0, y1), xs)
    decreases y1
  {
    AreaStep(y0, y0, xs);
    if y0 < y1 {
      BoxSumBetween(src, width, y0, y1 - 1, xs, lo, hi);
      RowSumBetween(src, width, y1 - 1, xs.0, xs.1, lo, hi);
      AreaStep(y0, y1 - 1, xs);
      Distribute(lo, Area((y0, y1 - 1), xs), xs.1 - xs.0);
      Distribute(hi, Area((y0, y1 - 1), xs), xs.1 - xs.0);
    }
  }

  lemma Distribute(k: int, a: int, b: int)
    ensures k * (a + b) == k * a + k * b
  {
  }

  lemma RoundedBetween(sum: nat, count: nat, lo: nat, hi: nat)
    requires 0 < count && lo * count <= sum <= hi * count
    ensures lo <= RoundedMean(sum, count) <= hi
  {
    DivAtLeast(sum + count / 2, count, lo);
    assert (hi + 1) * count == hi * count + count;
    DivBelow(sum + count / 2, count, hi + 1);
  }

  /** A mean lies between any bounds of its box; with 0 and 255, the cast to a byte keeps it. */
  lemma MeanIsBetween(src: seq<u8>, width: nat, ys: (nat, nat), xs: (nat, nat), lo: nat, hi: nat)
    requires ys.0 < ys.1 && xs.0 < xs.1
    requires forall y, x :: ys.0 <= y < ys.1 && xs.0 <= x < xs.1 ==> lo <= Pixel(src, width, y, x) <= hi
    ensures lo <= BoxMean(src, width, ys, xs) <= hi
  {
    BoxSumBetween(src, width, ys.0, ys.1, xs, lo, hi);
    RoundedBetween(BoxSum(src, width, ys.0, ys.1, xs.0, xs.1), Area(ys, xs), lo, hi);
  }

  /** Enlarging is nearest neighbour: every output is a source pixel. */
  lemma EnlargingCopies(src: seq<u8>, srcW: u32, srcH: u32, dstW: u32, dstH: u32, y: u32, x: u32)
    requires 0 < srcW <= dstW && 0 < srcH <= dstH && y < dstH && x < dstW
    ensures SpanIsBox(y, dstH, srcH) && SpanIsBox(x, dstW, srcW)
    ensures BoxMean(src, srcW, Span(y, dstH, srcH), Span(x, dstW, srcW))
         == Pixel(src, srcW, Cut(y, dstH, srcH), Cut(x, dstW, srcW))
  {
    SpanWhenEnlarging(y, dstH, srcH);
    SpanWhenEnlarging(x, dstW, srcW);
    var p := Pixel(src, srcW, Cut(y, dstH, srcH), Cut(x, dstW, srcW));
    MeanIsBetween(src, srcW, Span(y, dstH, srcH), Span(x, dstW, srcW), p, p);
  }

  // -------------------------------------------------------------------------------------------
  // Conservation when shrinking
  // -------------------------------------------------------------------------------------------

  lemma {:induction false} RowSumSplit(src: seq<u8>, width: nat, y: nat, x0: nat, x1: nat, x2: nat)
    requires x0 <= x1 <= x2
    ensures RowSum(src, width, y, x0, x2) == RowSum(src, width, y, x0, x1) + RowSum(src, width, y, x1, x2)
    decreases x2
  {
    if x1 < x2 { RowSumSplit(src, width, y, x0, x1, x2 - 1); }
  }

  lemma {:induction false} BoxSumSplitX(src: seq<u8>, width: nat, y0: nat, y1: nat, x0: nat, x1: nat, x2: nat)
    requires x0 <= x1 <= x2
    ensures BoxSum(src, width, y0, y1, x0, x2)
            == BoxSum(src, width, y0, y1, x0, x1) + BoxSum(src, width, y0, y1, x1, x2)
    decreases y1
  {
    if y0 < y1 {
      BoxSumSplitX(src, width, y0, y1 - 1, x0, x1, x2);
      RowSumSplit(src, width, y1 - 1, x0, x1, x2);
    }
  }

  lemma {:induction false} BoxSumSplitY(src: seq<u8>, width: nat, y0: nat, y1: nat, y2: nat, x0: nat, x1: nat)
    requires y0 <= y1 <= y2
    ensures BoxSum(src, width, y0, y2, x0, x1)
            == BoxSum(src, width, y0, y1, x0, x1) + BoxSum(src, width, y1, y2, x0, x1)
    decreases y2
  {
    if y1 < y2 { BoxSumSplitY(src, width, y0, y1, y2 - 1, x0, x1); }
  }

  /** The outputs of the first `n` boxes of a band of rows, each counted once per source pixel. */
  function BandWeight(src: seq<u8>, srcW: nat, ys: (nat, nat), n: nat, dstW: nat): nat
    requires ys.0 < ys.1 && n <= dstW <= srcW
  {
    if n == 0 then 0
    else
      CutStep(n - 1, dstW, srcW);
      BandWeight(src, srcW, ys, n - 1, dstW) + BoxWeight(src, srcW, ys, (Cut(n - 1, dstW, srcW), Cut(n, dstW, srcW)))
  }

  function BoxWeight(src: seq<u8>, srcW: nat, ys: (nat, nat), xs: (nat, nat)): nat
    requires ys.0 < ys.1 && xs.0 < xs.1
  {
    Area(ys, xs) * BoxMean(src, srcW, ys, xs)
  }

  /** The outputs of the first `n` bands, each counted once per source pixel. */
  function ImageWeight(src: seq<u8>, srcW: nat, srcH: nat, dstW: nat, n: nat, dstH: nat): nat
    requires n <= dstH <= srcH && dstW <= srcW
  {
    if n == 0 then 0
    else
      CutStep(n - 1, dstH, srcH);
      ImageWeight(src, srcW, srcH, dstW, n - 1, dstH)
        + BandWeight(src, srcW, (Cut(n - 1, dstH, srcH), Cut(n, dstH, srcH)), dstW, dstW)
  }

  lemma RoundingError(sum: nat, count: nat)
    requires 0 < count
    ensures 2 * Distance(count * RoundedMean(sum, count), sum) <= count
  {
    var m := RoundedMean(sum, count);
    assert m * count <= sum + count / 2 < (m + 1) * count;
    assert (m + 1) * count == m * count + count;
  }

  lemma AddErrors(w1: int, s1: int, a1: int, w2: int, s2: int, a2: int)
    requires 2 * Distance(w1, s1) <= a1 && 2 * Distance(w2, s2) <= a2
    ensures 2 * Distance(w1 + w2, s1 + s2) <= a1 + a2
  {
  }

  lemma AreaSplitX(ys: (nat, nat), a: nat, b: nat)
    requires ys.0 <= ys.1 && a <= b
    ensures Area(ys, (0, b)) == Area(ys, (0, a)) + Area(ys, (a, b)) && Area(ys, (0, 0)) == 0
  {
    Distribute(ys.1 - ys.0, a, b - a);
  }

  lemma AreaSplitY(a: nat, b: nat, w: nat)
    requires a <= b
    ensures Area((0, b), (0, w)) == Area((0, a), (0, w)) + Area((a, b), (0, w)) && Area((0, 0), (0, w)) == 0
  {
    Distribute(w, a, b - a);
  }

  lemma {:induction false} BandError(src: seq<u8>, srcW: nat, ys: (nat, nat), n: nat, dstW: nat)
    requires ys.0 < ys.1 && n <= dstW <= srcW && 0 < dstW
    ensures 2 * Distance(BandWeight(src, srcW, ys, n, dstW), BoxSum(src, srcW, ys.0, ys.1, 0, Cut(n, dstW, srcW)))
         <= Area(ys, (0, Cut(n, dstW, srcW)))
  {
    CutEnds(dstW, srcW);
    if n == 0 {
      EmptyBox(src, srcW, ys.0, ys.1);
    } else {
      BandError(src, srcW, ys, n - 1, dstW);
      CutStep(n - 1, dstW, srcW);
      var a, b := Cut(n - 1, dstW, srcW), Cut(n, dstW, srcW);
      var sum := BoxSum(src, srcW, ys.0, ys.1, a, b);
      BoxSumSplitX(src, srcW, ys.0, ys.1, 0, a, b);
      RoundingError(sum, Area(ys, (a, b)));
      AreaSplitX(ys, a, b);
      AddErrors(BandWeight(src, srcW, ys, n - 1, dstW), BoxSum(src, srcW, ys.0, ys.1, 0, a), Area(ys, (0, a)),
                BoxWeight(src, srcW, ys, (a, b)), sum, Area(ys, (a, b)));
    }
  }

  lemma {:induction false} EmptyBox(src: seq<u8>, width: nat, y0: nat, y1: nat)
    ensures BoxSum(src, width, y0, y1, 0, 0) == 0
    decreases y1
  {
    if y0 < y1 { EmptyBox(src, width, y0, y1 - 1); }
  }

  lemma {:induction false} ImageError(src: seq<u8>, srcW: nat, srcH: nat, dstW: nat, n: nat, dstH: nat)
    requires n <= dstH <= srcH && 0 < dstW <= srcW && 0 < dstH
    ensures 2 * Distance(ImageWeight(src, srcW, srcH, dstW, n, dstH), BoxSum(src, srcW, 0, Cut(n, dstH, srcH), 0, srcW))
         <= Area((0, Cut(n, dstH, srcH)), (0, srcW))
  {
    CutEnds(dstH, srcH);
    if n > 0 {
      ImageError(src, srcW, srcH, dstW, n - 1, dstH);
      CutStep(n - 1, dstH, srcH);
      var a, b := Cut(n - 1, dstH, srcH), Cut(n, dstH, srcH);
      BoxSumSplitY(src, srcW, 0, a, b, 0, srcW);
      CutEnds(dstW, srcW);
      BandError(src, srcW, (a, b), dstW, dstW);
      AreaSplitY(a, b, srcW);
      AddErrors(ImageWeight(src, srcW, srcH, dstW, n - 1, dstH), BoxSum(src, srcW, 0, a, 0, srcW),
                Area((0, a), (0, srcW)), BandWeight(src, srcW, (a, b), dstW, dstW),
                BoxSum(src, srcW, a, b, 0, srcW), Area((a, b), (0, srcW)));
    }
  }

  /** Shrinking keeps the overall coverage: the outputs, each weighted by the source pixels it stands
      for, add up to the source's total within half a level per source pixel. */
  lemma {:induction false} ShrinkingConserves(src: seq<u8>, srcW: nat, srcH: nat, dstW: nat, dstH: nat)
    requires 0 < dstW <= srcW && 0 < dstH <= srcH
    ensures 2 * Distance(ImageWeight(src, srcW, srcH, dstW, dstH, dstH),
                         BoxSum(src, srcW, 0, srcH, 0, srcW)) <= srcH * srcW
  {
    ImageError(src, srcW, srcH, dstW, dstH, dstH);
    CutEnds(dstH, srcH);
  }

  // The same of the image itself.

  /** How many source pixels output pixel (`y`, `x`) stands for. */
  function BoxArea(srcW: u32, srcH: u32, dstW: u32, dstH: u32, y: nat, x: nat): nat
    requires y < dstH && x < dstW && 0 < srcW && 0 < srcH
  {
    SpanInside(y, dstH, srcH);
    SpanInside(x, dstW, srcW);
    Area(Span(y, dstH, srcH), Span(x, dstW, srcW))
  }

  /** Output pixel (`y`, `x`), counted once per source pixel it stands for. */
  function OutWeight(out: seq<u8>, srcW: u32, srcH: u32, dstW: u32, dstH: u32, y: nat, x: nat): nat
    requires y < dstH && x < dstW && 0 < srcW && 0 < srcH
  {
    BoxArea(srcW, srcH, dstW, dstH, y, x) * Pixel(out, dstW, y, x)
  }

  /** The first `n` pixels of row `y`, each counted once per source pixel it stands for. */
  function RowWeight(out: seq<u8>, srcW: u32, srcH: u32, dstW: u32, dstH: u32, y: nat, n: nat): nat
    requires y < dstH && n <= dstW && 0 < srcW && 0 < srcH
  {
    if n == 0 then 0
    else
      RowWeight(out, srcW, srcH, dstW, dstH, y, n - 1) + OutWeight(out, srcW, srcH, dstW, dstH, y, n - 1)
  }

  function TotalWeight(out: seq<u8>, srcW: u32, srcH: u32, dstW: u32, dstH: u32, n: nat): nat
    requires n <= dstH && 0 < srcW && 0 < srcH
  {
    if n == 0 then 0
    else TotalWeight(out, srcW, srcH, dstW, dstH, n - 1) + RowWeight(out, srcW, srcH, dstW, dstH, n - 1, dstW)
  }

  lemma PixelWeight(out: seq<u8>, src: seq<u8>, srcW: u32, srcH: u32, dstW: u32, dstH: u32, y: nat, x: nat)
    requires 0 < dstW <= srcW && 0 < dstH <= srcH && y < dstH && x < dstW
    requires PixelIs(out, src, srcW, srcH, dstW, dstH, y, x)
    ensures Cut(y, dstH, srcH) < Cut(y + 1, dstH, srcH) && Cut(x, dstW, srcW) < Cut(x + 1, dstW, srcW)
    ensures OutWeight(out, srcW, srcH, dstW, dstH, y, x)
         == BoxWeight(src, srcW, (Cut(y, dstH, srcH), Cut(y + 1, dstH, srcH)),
                      (Cut(x, dstW, srcW), Cut(x + 1, dstW, srcW)))
  {
    SpanWhenShrinking(y, dstH, srcH);
    SpanWhenShrinking(x, dstW, srcW);
    assert Pixel(out, dstW, y, x) == out[At(y, x, dstW)];
  }

  lemma {:induction false} RowWeightIs(out: seq<u8>, src: seq<u8>, srcW: u32, srcH: u32, dstW: u32, dstH: u32, y: nat,
                                       n: nat)
    requires 0 < dstW <= srcW && 0 < dstH <= srcH && y < dstH && n <= dstW
             && IsReduction(out, src, srcW, srcH, dstW, dstH)
    ensures Cut(y, dstH, srcH) < Cut(y + 1, dstH, srcH)
    ensures RowWeight(out, srcW, srcH, dstW, dstH, y, n)
         == BandWeight(src, srcW, (Cut(y, dstH, srcH), Cut(y + 1, dstH, srcH)), n, dstW)
  {
    CutStep(y, dstH, srcH);
    if n > 0 {
      RowWeightIs(out, src, srcW, srcH, dstW, dstH, y, n - 1);
      assert PixelIs(out, src, srcW, srcH, dstW, dstH, y, n - 1);
      PixelWeight(out, src, srcW, srcH, dstW, dstH, y, n - 1);
    }
  }

  lemma {:induction false} TotalWeightIs(out: seq<u8>, src: seq<u8>, srcW: u32, srcH: u32, dstW: u32, dstH: u32, n: nat)
    requires 0 < dstW <= srcW && 0 < dstH <= srcH && n <= dstH && IsReduction(out, src, srcW, srcH, dstW, dstH)
    ensures TotalWeight(out, srcW, srcH, dstW, dstH, n) == ImageWeight(src, srcW, srcH, dstW, n, dstH)
  {
    if n > 0 {
      TotalWeightIs(out, src, srcW, srcH, dstW, dstH, n - 1);
      RowWeightIs(out, src, srcW, srcH, dstW, dstH, n - 1, dstW);
    }
  }

  /** The shrunk image keeps the source's coverage: its pixels, each counted once per source pixel it stands
      for, add up to the source's total within half a level per source pixel. */
  lemma {:induction false} ReductionConserves(out: seq<u8>, src: seq<u8>, srcW: u32, srcH: u32, dstW: u32, dstH: u32)
    requires 0 < dstW <= srcW && 0 < dstH <= srcH && IsReduction(out, src, srcW, srcH, dstW, dstH)
    ensures 2 * Distance(TotalWeight(out, srcW, srcH, dstW, dstH, dstH),
                         BoxSum(src, srcW, 0, srcH, 0, srcW)) <= srcH * srcW
  {
    TotalWeightIs(out, src, srcW, srcH, dstW, dstH, dstH);
    ShrinkingConserves(src, srcW, srcH, dstW, dstH);
  }

  function Zeros(n: nat): (r: seq<u8>)
    ensures |r| == n && forall i :: 0 <= i < n ==> r[i] == 0
  {
    seq(n, _ => 0)
  }

  lemma {:induction false} RowOfShort(src: seq<u8>, n: nat, width: nat, y: nat, x0: nat, x1: nat)
    ensures RowSum(src + Zeros(n), width, y, x0, x1) == RowSum(src, width, y, x0, x1)
    decreases x1 - x0
  {
    if x0 < x1 {
      RowOfShort(src, n, width, y, x0, x1 - 1);
    }
  }

  /** A source shorter than its extents reads as if zeros filled it up, however many. */
  lemma {:induction false} ShortSource(src: seq<u8>, n: nat, width: nat, y0: nat, y1: nat, x0: nat, x1: nat)
    ensures BoxSum(src + Zeros(n), width, y0, y1, x0, x1) == BoxSum(src, width, y0, y1, x0, x1)
    decreases y1 - y0
  {
    if y0 < y1 {
      ShortSource(src, n, width, y0, y1 - 1, x0, x1);
      RowOfShort(src, n, width, y1 - 1, x0, x1);
    }
  }

  // -------------------------------------------------------------------------------------------
  // The mark's geometry
  // -------------------------------------------------------------------------------------------

  /** A source of no height has no width either. */
  function TargetWidth(srcW: u32, srcH: u32, targetH: u32): (r: u32)
    ensures srcH == 0 ==> r == 0
  {
    if srcH == 0 then 0 else ToU32(RoundedMean(srcW * targetH, srcH))
  }

  /** The width before it is cast to 32 bits. */
  function WideWidth(srcW: u32, srcH: u32, targetH: u32): nat
    requires 0 < srcH
  {
    RoundedMean(srcW * targetH, srcH)
  }

  /** The width is the nearest to the source's aspect ratio exactly when the exact quotient fits 32 bits; a
      height no larger than the source's always does, and then the width is no larger either. */
  lemma TargetWidthIsNearest(srcW: u32, srcH: u32, targetH: u32)
    requires 0 < srcH
    ensures 2 * Distance(srcH * TargetWidth(srcW, srcH, targetH), srcW * targetH) <= srcH <==>
            srcW * targetH + srcH / 2 < 0x1_0000_0000 * srcH
    ensures targetH <= srcH ==> TargetWidth(srcW, srcH, targetH) == WideWidth(srcW, srcH, targetH) <= srcW
  {
    var n, w := srcW * targetH, WideWidth(srcW, srcH, targetH);
    RoundingError(n, srcH);
    FitsIff(n + srcH / 2, srcH, 0x1_0000_0000);
    if targetH <= srcH {
      MulLe(targetH, srcH, srcW);
      RoundedBetween(n, srcH, 0, srcW);
    }
    if w >= 0x1_0000_0000 {
      WrappedIsFar(n, srcH, w, TargetWidth(srcW, srcH, targetH));
    }
  }

  lemma FitsIff(a: nat, d: nat, k: nat)
    requires 0 < d
    ensures a / d < k <==> a < k * d
  {
    if a < k * d { DivBelow(a, d, k); } else { DivAtLeast(a, d, k); }
  }

  lemma WrappedIsFar(n: nat, h: nat, w: nat, t: nat)
    requires 0 < h && t < w && 2 * Distance(h * w, n) <= h && t + 2 <= w
    ensures 2 * Distance(h * t, n) > h
  {
    assert h * (t + 2) == h * t + 2 * h;
    Commutes(h, t + 2);
    Commutes(h, w);
    MulLe(t + 2, w, h);
  }

  /** Twice the height of a source two thousand million pixels wide wraps to nothing. */
  lemma TargetWidthWraps()
    ensures TargetWidth(0x8000_0000, 1, 2) == 0
  {
  }

  /** The rightmost square of the source, cut from its vertical centre when it is tall. */
  function IconCrop(srcW: u32, srcH: u32): (u32, u32, u32) {
    var side := Min(srcW, srcH);
    (srcW - side, (srcH - side) / 2, side)
  }

  method CropAlpha(src: seq<u8>, srcW: u32, x0: u32, y0: u32, w: u32, h: u32) returns (out: seq<u8>)
    ensures var width, height := Min(w, Max(srcW - x0, 0)), Min(y0 + h, 0xFFFF_FFFF) - y0;
            |out| == height * width && forall y, x :: 0 <= y < height && 0 <= x < width ==>
              At(y, x, width) < |out| && out[At(y, x, width)] == Pixel(src, srcW, y0 + y, x0 + x)
  {
    var width, height := Min(w, Max(srcW - x0, 0)), Min(y0 + h, 0xFFFF_FFFF) - y0;
    out := [];
    for y := 0 to height
      invariant |out| == y * width
      invariant forall j, k :: 0 <= j < y && 0 <= k < width ==>
        At(j, k, width) < |out| && out[At(j, k, width)] == Pixel(src, srcW, y0 + j, x0 + k)
    {
      var row: seq<u8> := [];
      for x := 0 to width
        invariant |row| == x && forall k :: 0 <= k < x ==> row[k] == Pixel(src, srcW, y0 + y, x0 + k)
      {
        row := row + [Pixel(src, srcW, y0 + y, x0 + x)];
      }
      AppendRow(out, row, y, width);
      out := out + row;
    }
  }

  /** The icon's crop is the largest square inside the source, flush with its right edge; the rows left out
      above and below it differ by at most one; and every pixel of it reads a source pixel of its own column. */
  lemma IconCropInside(srcW: u32, srcH: u32)
    ensures var (x0, y0, side) := IconCrop(srcW, srcH);
            && x0 + side == srcW && y0 + side <= srcH && (side == srcW || side == srcH)
            && 0 <= srcH - (y0 + side) - y0 <= 1 && Min(side, Max(srcW - x0, 0)) == side
  {
  }
}
