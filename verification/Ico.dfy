/** The `.ico` writer of xtask/src/identity.rs, against a reader of the format: the directory of entries, the
    bottom-up BGRA bitmap, and the packed 1-bit AND mask, where setting a bit is adding its weight unless
    it is set. */
module Ico {
  import opened Text
  import opened Identity

  type Bytes = seq<u8>

  // -------------------------------------------------------------------------------------------
  // Numbers and bits
  // -------------------------------------------------------------------------------------------

  /** `to_le_bytes` of a number cast to 16 bits. */
  function Le2(v: nat): Bytes { [ToU8(v), ToU8(v / 0x100)] }

  /** `to_le_bytes` of a number cast to 32 bits. */
  function Le4(v: nat): Bytes { [ToU8(v), ToU8(v / 0x100), ToU8(v / 0x1_0000), ToU8(v / 0x100_0000)] }

  function ReadLe2(b: Bytes, at: nat): nat
    requires at + 2 <= |b|
  {
    b[at] as nat + 0x100 * (b[at + 1] as nat)
  }

  function ReadLe4(b: Bytes, at: nat): nat
    requires at + 4 <= |b|
  {
    b[at] as nat + 0x100 * (b[at + 1] as nat) + 0x1_0000 * (b[at + 2] as nat) + 0x100_0000 * (b[at + 3] as nat)
  }

  lemma Le2Reads(v: nat, b: Bytes, at: nat)
    requires v < 0x1_0000 && at + 2 <= |b| && b[at..at + 2] == Le2(v)
    ensures ReadLe2(b, at) == v
  {
    assert b[at] == b[at..at + 2][0] && b[at + 1] == b[at..at + 2][1];
  }

  lemma Le4Reads(v: nat, b: Bytes, at: nat)
    requires at + 4 <= |b| && b[at..at + 4] == Le4(v)
    ensures ReadLe4(b, at) == v % 0x1_0000_0000
  {
    FourBytes(v % 0x1_0000_0000);
    Le4Wraps(v);
    FourOf(b, at, Le4(v));
  }

  /** The cast to 32 bits. */
  lemma Le4Wraps(v: nat)
    ensures Le4(v) == Le4(v % 0x1_0000_0000)
  {
    var w, q := v % 0x1_0000_0000, v / 0x1_0000_0000;
    var a, b := v / 0x100, w / 0x100;
    DropByte(v, w, 0x100_0000 * q);
    DropByte(a, b, 0x1_0000 * q);
    DropByte(a / 0x100, b / 0x100, 0x100 * q);
    assert a / 0x100 == v / 0x1_0000 && a / 0x100 / 0x100 == v / 0x100_0000;
    assert b / 0x100 == w / 0x1_0000 && b / 0x100 / 0x100 == w / 0x100_0000;
  }

  lemma DropByte(v: nat, w: nat, t: nat)
    requires v == w + 0x100 * t
    ensures v / 0x100 == w / 0x100 + t && ToU8(v) == ToU8(w)
  {
  }

  lemma FourOf(b: Bytes, at: nat, four: Bytes)
    requires at + 4 <= |b| && b[at..at + 4] == four
    ensures |four| == 4 && b[at] == four[0] && b[at + 1] == four[1] && b[at + 2] == four[2] && b[at + 3] == four[3]
  {
  }

  lemma FourBytes(v: nat)
    requires v < 0x1_0000_0000
    ensures v % 0x100 + 0x100 * (v / 0x100 % 0x100) + 0x1_0000 * (v / 0x1_0000 % 0x100)
          + 0x100_0000 * (v / 0x100_0000 % 0x100) == v
  {
    var a, b, c := v / 0x100, v / 0x1_0000, v / 0x100_0000;
    assert b == a / 0x100 && c == b / 0x100;
  }

  /** `0x80 >> k`. */
  function BitMask(k: nat): (m: nat)
    requires k < 8
    ensures 0 < m
    decreases 8 - k
  {
    if k == 7 then 1 else 2 * BitMask(k + 1)
  }

  /** The bits of a byte from its left end. */
  lemma BitMasksAre()
    ensures BitMask(0) == 0x80 && BitMask(1) == 0x40 && BitMask(2) == 0x20 && BitMask(3) == 0x10
    ensures BitMask(4) == 0x08 && BitMask(5) == 0x04 && BitMask(6) == 0x02 && BitMask(7) == 0x01
  {
    assert BitMask(6) == 2 * BitMask(7);
    assert BitMask(5) == 2 * BitMask(6);
    assert BitMask(4) == 2 * BitMask(5);
    assert BitMask(3) == 2 * BitMask(4);
    assert BitMask(2) == 2 * BitMask(3);
    assert BitMask(1) == 2 * BitMask(2);
    assert BitMask(0) == 2 * BitMask(1);
  }

  /** A higher bit weighs an even multiple of a lower one. */
  lemma {:induction false} MaskRatio(k: nat, j: nat) returns (n: nat)
    requires k < j < 8
    ensures 0 < n && BitMask(k) == n * (2 * BitMask(j))
    decreases j - k
  {
    if k + 1 == j {
      n := 1;
    } else {
      var m := MaskRatio(k + 1, j);
      n := 2 * m;
      assert 2 * (m * (2 * BitMask(j))) == n * (2 * BitMask(j));
    }
  }

  predicate BitSet(b: nat, k: nat)
    requires k < 8
  {
    b / BitMask(k) % 2 == 1
  }

  /** `b | (0x80 >> k)`. */
  function OrBit(b: u8, k: nat): nat
    requires k < 8
  {
    if BitSet(b, k) then b else b + BitMask(k)
  }

  lemma OrBitSets(b: u8, k: nat)
    requires k < 8
    ensures OrBit(b, k) < 0x100
    ensures forall j :: 0 <= j < 8 ==> (BitSet(OrBit(b, k), j) <==> j == k || BitSet(b, j))
  {
    if !BitSet(b, k) {
      StaysByte(b, k);
      forall j | 0 <= j < 8 ensures BitSet(OrBit(b, k), j) <==> j == k || BitSet(b, j) {
        OrBitAt(b, k, j);
      }
    }
  }

  lemma {:induction false} StaysByte(b: u8, k: nat)
    requires k < 8 && !BitSet(b, k)
    ensures b + BitMask(k) < 0x100
  {
    TopMask();
    if k == 0 {
      NoCarry(b, BitMask(k), 1);
    } else {
      var n := MaskRatio(0, k);
      assert 0x100 == (2 * n) * (2 * BitMask(k));
      NoCarry(b, BitMask(k), 2 * n);
    }
  }

  lemma TopMask()
    ensures BitMask(0) == 128
  {
    assert BitMask(4) == 8;
  }

  /** Adding a clear bit sets it and no other. */
  lemma {:induction false} OrBitAt(b: nat, k: nat, j: nat)
    requires k < 8 && j < 8 && !BitSet(b, k)
    ensures BitSet(b + BitMask(k), j) <==> j == k || BitSet(b, j)
  {
    var w, v := BitMask(k), BitMask(j);
    if j == k {
      AddMultiple(b, 1, w);
    } else if j > k {
      var n := MaskRatio(k, j);
      AddEven(b, v, w, n);
    } else {
      var n := MaskRatio(j, k);
      AddLow(b, v, w, n);
    }
  }

  lemma AddEven(b: nat, v: nat, w: nat, n: nat)
    requires 0 < v && w == n * (2 * v)
    ensures (b + w) / v % 2 == b / v % 2
  {
    MulAssoc(n, 2, v);
    AddMultiple(b, n * 2, v);
  }

  lemma MulAssoc(a: nat, b: nat, c: nat)
    ensures a * (b * c) == (a * b) * c
  {
  }

  lemma AddMultiple(b: nat, m: nat, v: nat)
    requires 0 < v
    ensures (b + m * v) / v == b / v + m
  {
    var q := b / v;
    assert q * v <= b < (q + 1) * v;
    assert (q + m) * v == q * v + m * v && (q + m + 1) * v == (q + 1) * v + m * v;
    DivAtLeast(b + m * v, v, q + m);
    DivBelow(b + m * v, v, q + m + 1);
  }

  /** A number whose bit of weight `w` is clear stays below a multiple of `2 * w` when it is set. */
  lemma NoCarry(b: nat, w: nat, n: nat)
    requires 0 < w && b / w % 2 == 0 && b < n * (2 * w)
    ensures b + w < n * (2 * w)
  {
    var h := b / w / 2;
    assert b / w == 2 * h;
    assert 2 * h * w <= b < (2 * h + 1) * w;
    assert (2 * h + 1) * w + w == (h + 1) * (2 * w) && 2 * h * w == h * (2 * w);
    if n <= h { MulLe(n, h, 2 * w); }
    MulLe(h + 1, n, 2 * w);
  }

  lemma AddLow(b: nat, v: nat, w: nat, n: nat)
    requires 0 < w && 0 < n && b / w % 2 == 0 && v == n * (2 * w)
    ensures (b + w) / v == b / v
  {
    var q := b / v;
    assert q * v <= b < (q + 1) * v;
    MulAssoc(q + 1, n, 2 * w);
    NoCarry(b, w, (q + 1) * n);
    DivAtLeast(b + w, v, q);
    DivBelow(b + w, v, q + 1);
  }

  // -------------------------------------------------------------------------------------------
  // One image
  // -------------------------------------------------------------------------------------------

  const FILL: seq<u8> := [0xff, 0x66, 0x00]
  const FLOOR := 128

  function AndRow(side: nat): nat { (side + 31) / 32 * 4 }

  /** A mask row is the fewest whole 32-bit words that hold a bit for each pixel. */
  lemma AndRowFits(side: nat)
    ensures AndRow(side) % 4 == 0 && side <= 8 * AndRow(side) < side + 32
  {
  }

  function XorLen(side: nat): nat { side * (4 * side) }

  function AndLen(side: nat): nat { side * AndRow(side) }

  function BitmapHeader(side: nat): (r: Bytes)
    ensures |r| == 40
  {
    Le4(40) + Le4(side) + Le4(2 * side) + Le2(1) + Le2(32) + Le4(0) + Le4(XorLen(side) + AndLen(side))
      + Le4(0) + Le4(0) + Le4(0) + Le4(0)
  }

  // What a reader of the format sees in an image of edge `side`.

  function Channel(image: Bytes, side: nat, y: nat, x: nat, c: nat): u8
    requires y < side && x < side && c < 4 && |image| == 40 + XorLen(side) + AndLen(side)
  {
    RowFits(side - 1 - y, 4 * x + c, side, 4 * side);
    image[40 + At(side - 1 - y, 4 * x + c, 4 * side)]
  }

  /** Bit `x` of row `y` of the AND mask, which has padding columns beyond `side`. */
  predicate MaskBit(image: Bytes, side: nat, y: nat, x: nat)
    requires y < side && x < 8 * AndRow(side) && |image| == 40 + XorLen(side) + AndLen(side)
  {
    RowFits(side - 1 - y, x / 8, side, AndRow(side));
    BitSet(image[40 + XorLen(side) + At(side - 1 - y, x / 8, AndRow(side))], x % 8)
  }

  lemma RowFits(row: nat, k: nat, rows: nat, width: nat)
    requires row < rows && k < width
    ensures At(row, k, width) < rows * width
  {
    MulLe(row + 1, rows, width);
    assert (row + 1) * width == row * width + width;
  }

  /** The header's fields, each in 32 bits: its own size, the width, twice the height as it counts the mask too,
      one plane of 32 bits, no compression, the size of what follows it, and nothing else. */
  predicate HeaderShows(image: Bytes, side: nat)
    requires |image| >= 40
  {
    && ReadLe4(image, 0) == 40
    && ReadLe4(image, 4) == side % 0x1_0000_0000 && ReadLe4(image, 8) == 2 * side % 0x1_0000_0000
    && ReadLe2(image, 12) == 1 && ReadLe2(image, 14) == 32 && ReadLe4(image, 16) == 0
    && ReadLe4(image, 20) == (|image| - 40) % 0x1_0000_0000
    && ReadLe4(image, 24) == 0 && ReadLe4(image, 28) == 0 && ReadLe4(image, 32) == 0 && ReadLe4(image, 36) == 0
  }

  lemma HeaderOf(side: nat, rest: Bytes)
    requires |rest| == XorLen(side) + AndLen(side)
    ensures HeaderShows(BitmapHeader(side) + rest, side)
  {
    var image := BitmapHeader(side) + rest;
    var width := Le4(40);
    var height := width + Le4(side);
    var planes := height + Le4(2 * side);
    var bits := planes + Le2(1);
    var compression := bits + Le2(32);
    var size := compression + Le4(0);
    var pelsX := size + Le4(|rest|);
    var pelsY := pelsX + Le4(0);
    var used := pelsY + Le4(0);
    var important := used + Le4(0);
    assert important + Le4(0) == BitmapHeader(side) && important + Le4(0) <= image;
    Field4(important, 0, image);
    Field4(used, 0, image);
    Field4(pelsY, 0, image);
    Field4(pelsX, 0, image);
    Field4(size, |rest|, image);
    Field4(compression, 0, image);
    Field2(bits, 32, image);
    Field2(planes, 1, image);
    Field4(height, 2 * side, image);
    Field4(width, side, image);
    assert [] + Le4(40) == width;
    Field4([], 40, image);
  }

  /** A number behind the bytes `before` reads back, and `before` stands before it. */
  lemma Field4(before: Bytes, v: nat, image: Bytes)
    requires before + Le4(v) <= image
    ensures before <= image && ReadLe4(image, |before|) == v % 0x1_0000_0000
  {
    SliceOfPrefix(before, Le4(v), image);
    FrontOf(before, Le4(v), image);
    Le4Reads(v, image, |before|);
  }

  lemma Field2(before: Bytes, v: nat, image: Bytes)
    requires before + Le2(v) <= image && v < 0x1_0000
    ensures before <= image && ReadLe2(image, |before|) == v
  {
    SliceOfPrefix(before, Le2(v), image);
    FrontOf(before, Le2(v), image);
    Le2Reads(v, image, |before|);
  }

  lemma FrontOf(a: Bytes, b: Bytes, c: Bytes)
    requires a + b <= c
    ensures a <= c
  {
    assert forall i :: 0 <= i < |a| ==> a[i] == (a + b)[i];
  }

  /** The image shows the mask: a header that says so, fill colour and mask alpha in every pixel, AND bits exactly
      where the alpha is below the floor, and no padding bit. */
  predicate Shows(image: Bytes, side: nat, mask: Bytes) {
    && |image| == 40 + XorLen(side) + AndLen(side)
    && HeaderShows(image, side)
    && (forall y, x :: 0 <= y < side && 0 <= x < side ==> PixelShows(image, side, mask, y, x))
    && (forall y, x :: 0 <= y < side && 0 <= x < 8 * AndRow(side) ==> BitShows(image, side, mask, y, x))
  }

  predicate PixelShows(image: Bytes, side: nat, mask: Bytes, y: nat, x: nat)
    requires y < side && x < side && |image| == 40 + XorLen(side) + AndLen(side)
  {
    && Channel(image, side, y, x, 0) == 0x00 && Channel(image, side, y, x, 1) == 0x66
    && Channel(image, side, y, x, 2) == 0xff && Channel(image, side, y, x, 3) == Pixel(mask, side, y, x)
  }

  predicate BitShows(image: Bytes, side: nat, mask: Bytes, y: nat, x: nat)
    requires y < side && x < 8 * AndRow(side) && |image| == 40 + XorLen(side) + AndLen(side)
  {
    MaskBit(image, side, y, x) <==> x < side && Pixel(mask, side, y, x) < 128
  }

  predicate XorRowIs(row: Bytes, side: nat, mask: Bytes, y: nat) {
    |row| == 4 * side && forall x :: 0 <= x < side ==> XorPixelIs(row, side, mask, y, x)
  }

  predicate XorPixelIs(row: Bytes, side: nat, mask: Bytes, y: nat, x: nat)
    requires 4 * x + 3 < |row|
  {
    && row[4 * x] == FILL[2] && row[4 * x + 1] == FILL[1] && row[4 * x + 2] == FILL[0]
    && row[4 * x + 3] == Pixel(mask, side, y, x)
  }

  method XorRow(side: nat, mask: Bytes, y: nat) returns (row: Bytes)
    ensures XorRowIs(row, side, mask, y)
  {
    row := [];
    for x := 0 to side
      invariant |row| == 4 * x
      invariant forall k :: 0 <= k < x ==> XorPixelIs(row, side, mask, y, k)
    {
      ghost var before := row;
      row := row + [FILL[2], FILL[1], FILL[0], Pixel(mask, side, y, x)];
      forall k | 0 <= k < x ensures XorPixelIs(row, side, mask, y, k) {
        assert XorPixelIs(before, side, mask, y, k);
      }
    }
  }

  predicate AndRowIs(row: Bytes, side: nat, mask: Bytes, y: nat, upTo: nat) {
    |row| == AndRow(side) && forall x :: 0 <= x < 8 * AndRow(side) ==>
      (BitSet(row[x / 8], x % 8) <==> x < upTo && Pixel(mask, side, y, x) < FLOOR)
  }

  method PackedRow(side: nat, mask: Bytes, y: nat) returns (row: Bytes)
    ensures AndRowIs(row, side, mask, y, side)
  {
    row := seq(AndRow(side), _ => 0);
    for x := 0 to side
      invariant AndRowIs(row, side, mask, y, x)
    {
      if Pixel(mask, side, y, x) < FLOOR {
        OrBitSets(row[x / 8], x % 8);
        row := row[x / 8 := OrBit(row[x / 8], x % 8)];
      }
    }
  }

  lemma XorRowJoins(xors: Bytes, row: Bytes, side: nat, mask: Bytes, r: nat, j: nat, k: nat)
    requires j <= r < side && k < side && |xors| == r * (4 * side) && XorRowIs(row, side, mask, side - 1 - r)
    requires j < r ==> XorAt(xors, side, mask, j, k)
    ensures XorAt(xors + row, side, mask, j, k)
  {
    if j == r {
      assert XorPixelIs(row, side, mask, side - 1 - r, k);
      assert At(r, 4 * k, 4 * side) == |xors| + 4 * k;
      assert At(r, 4 * k + 3, 4 * side) == |xors| + 4 * k + 3;
    }
  }

  /** The colour bitmap, bottom row first. */
  method XorRows(side: nat, mask: Bytes) returns (xors: Bytes)
    ensures |xors| == XorLen(side) && forall j, k :: 0 <= j < side && 0 <= k < side ==> XorAt(xors, side, mask, j, k)
  {
    xors := [];
    for r := 0 to side
      invariant |xors| == r * (4 * side)
      invariant forall j, k :: 0 <= j < r && 0 <= k < side ==> XorAt(xors, side, mask, j, k)
    {
      var row := XorRow(side, mask, side - 1 - r);
      OneRowMore(r, 4 * side);
      forall j, k | 0 <= j < r + 1 && 0 <= k < side ensures XorAt(xors + row, side, mask, j, k) {
        XorRowJoins(xors, row, side, mask, r, j, k);
      }
      xors := xors + row;
    }
  }

  /** The AND mask, bottom row first. */
  method AndRows(side: nat, mask: Bytes) returns (ands: Bytes)
    ensures |ands| == AndLen(side) && forall j, k :: 0 <= j < side && 0 <= k < 8 * AndRow(side) ==>
            AndAt(ands, side, mask, j, k)
  {
    ands := [];
    for r := 0 to side
      invariant |ands| == r * AndRow(side)
      invariant forall j, k :: 0 <= j < r && 0 <= k < 8 * AndRow(side) ==> AndAt(ands, side, mask, j, k)
    {
      var row := PackedRow(side, mask, side - 1 - r);
      AppendRow(ands, row, r, AndRow(side));
      forall j, k | 0 <= j < r + 1 && 0 <= k < 8 * AndRow(side) ensures AndAt(ands + row, side, mask, j, k) {
        if j < r { assert AndAt(ands, side, mask, j, k); }
      }
      ands := ands + row;
    }
  }

  method IcoImage(side: nat, mask: Bytes) returns (image: Bytes)
    ensures Shows(image, side, mask)
  {
    var xors := XorRows(side, mask);
    var ands := AndRows(side, mask);
    image := BitmapHeader(side) + xors + ands;
    ImageShows(side, mask, xors, ands);
  }

  /** Row `j` from the bottom, pixel `k`, of the colour bitmap. */
  predicate XorAt(xors: Bytes, side: nat, mask: Bytes, j: nat, k: nat)
    requires j < side && k < side
  {
    && At(j, 4 * k + 3, 4 * side) < |xors|
    && xors[At(j, 4 * k, 4 * side)] == FILL[2] && xors[At(j, 4 * k + 1, 4 * side)] == FILL[1]
    && xors[At(j, 4 * k + 2, 4 * side)] == FILL[0]
    && xors[At(j, 4 * k + 3, 4 * side)] == Pixel(mask, side, side - 1 - j, k)
  }

  /** Row `j` from the bottom, bit `k`, of the AND mask. */
  predicate AndAt(ands: Bytes, side: nat, mask: Bytes, j: nat, k: nat)
    requires j < side
  {
    && At(j, k / 8, AndRow(side)) < |ands|
    && (BitSet(ands[At(j, k / 8, AndRow(side))], k % 8) <==> k < side && Pixel(mask, side, side - 1 - j, k) < FLOOR)
  }

  lemma ImageShows(side: nat, mask: Bytes, xors: Bytes, ands: Bytes)
    requires |xors| == XorLen(side) && |ands| == AndLen(side)
    requires forall j, k :: 0 <= j < side && 0 <= k < side ==> XorAt(xors, side, mask, j, k)
    requires forall j, k :: 0 <= j < side && 0 <= k < 8 * AndRow(side) ==> AndAt(ands, side, mask, j, k)
    ensures Shows(BitmapHeader(side) + xors + ands, side, mask)
  {
    var image := BitmapHeader(side) + xors + ands;
    HeaderOf(side, xors + ands);
    assert image == BitmapHeader(side) + (xors + ands);
    forall y, x | 0 <= y < side && 0 <= x < side ensures PixelShows(image, side, mask, y, x) {
      assert XorAt(xors, side, mask, side - 1 - y, x);
      assert forall c :: 0 <= c < 4 ==> Channel(image, side, y, x, c) == xors[At(side - 1 - y, 4 * x + c, 4 * side)];
    }
    forall y, x | 0 <= y < side && 0 <= x < 8 * AndRow(side) ensures BitShows(image, side, mask, y, x) {
      assert AndAt(ands, side, mask, side - 1 - y, x);
    }
  }

  // -------------------------------------------------------------------------------------------
  // The container
  // -------------------------------------------------------------------------------------------

  /** An edge length in one byte, 256 being spelled 0. */
  function EntryDimension(size: nat): u8 { if size >= 256 then 0 else size }

  function ReadDimension(b: u8): nat { if b == 0 then 256 else b }

  function EntryBytes(size: nat, length: nat, offset: nat): (r: Bytes)
    ensures |r| == 16
  {
    [EntryDimension(size), EntryDimension(size), 0, 0] + Le2(1) + Le2(32) + Le4(length) + Le4(offset)
  }

  type Image = (nat, Bytes)

  /** Where the body of image `k` begins. */
  function Offset(images: seq<Image>, k: nat): nat
    requires k <= |images|
  {
    if k == 0 then 6 + 16 * |images| else Offset(images, k - 1) + |images[k - 1].1|
  }

  function Directory(images: seq<Image>, k: nat): (r: Bytes)
    requires k <= |images|
    ensures |r| == 6 + 16 * k
  {
    if k == 0 then Le2(0) + Le2(1) + Le2(|images|)
    else Directory(images, k - 1) + EntryBytes(images[k - 1].0, |images[k - 1].1|, Offset(images, k - 1))
  }

  function Bodies(images: seq<Image>, k: nat): (r: Bytes)
    requires k <= |images|
    ensures |r| == Offset(images, k) - Offset(images, 0)
  {
    if k == 0 then [] else Bodies(images, k - 1) + images[k - 1].1
  }

  method AssembleIco(images: seq<Image>) returns (file: Bytes)
    ensures file == Directory(images, |images|) + Bodies(images, |images|)
  {
    var directory := Le2(0) + Le2(1) + Le2(|images|);
    var offset := 6 + 16 * |images|;
    var body: Bytes := [];
    for k := 0 to |images|
      invariant directory == Directory(images, k) && offset == Offset(images, k) && body == Bodies(images, k)
    {
      var (size, image) := images[k];
      directory := directory + EntryBytes(size, |image|, offset);
      offset := offset + |image|;
      body := body + image;
    }
    file := directory + body;
  }

  // A reader of the container.

  /** A square image without a palette, of one plane of 32 bits, whose body lies inside the file. */
  function ReadEntry(file: Bytes, k: nat): Option<Image> {
    var at := 6 + 16 * k;
    if |file| < at + 16 then None
    else if file[at + 1] != file[at] || file[at + 2] != 0 || file[at + 3] != 0 then None
    else if ReadLe2(file, at + 4) != 1 || ReadLe2(file, at + 6) != 32 then None
    else
      var length, offset := ReadLe4(file, at + 8), ReadLe4(file, at + 12);
      if |file| < offset + length then None else Some((ReadDimension(file[at]), file[offset..offset + length]))
  }

  function ReadEntries(file: Bytes, k: nat, count: nat): Option<seq<Image>>
    requires k <= count
    decreases count - k
  {
    if k == count then Some([])
    else
      match ReadEntry(file, k)
      case None => None
      case Some(image) =>
        match ReadEntries(file, k + 1, count)
        case None => None
        case Some(images) => Some([image] + images)
  }

  function ReadIco(file: Bytes): Option<seq<Image>> {
    if |file| < 6 || ReadLe2(file, 0) != 0 || ReadLe2(file, 2) != 1 then None
    else ReadEntries(file, 0, ReadLe2(file, 4))
  }

  predicate Fits(images: seq<Image>) {
    |images| < 0x1_0000 && Offset(images, |images|) < 0x1_0000_0000
      && forall k :: 0 <= k < |images| ==> 1 <= images[k].0 <= 256
  }

  lemma {:induction false} DirectoryPrefix(images: seq<Image>, j: nat, k: nat)
    requires j <= k <= |images|
    ensures Directory(images, j) <= Directory(images, k)
    decreases k
  {
    if j < k { DirectoryPrefix(images, j, k - 1); }
  }

  lemma {:induction false} BodiesPrefix(images: seq<Image>, j: nat, k: nat)
    requires j <= k <= |images|
    ensures Bodies(images, j) <= Bodies(images, k)
    decreases k
  {
    if j < k { BodiesPrefix(images, j, k - 1); }
  }

  lemma {:induction false} DirectoryEntry(images: seq<Image>, k: nat)
    requires k < |images|
    ensures var at := 6 + 16 * k;
            Directory(images, |images|)[at..at + 16] == EntryBytes(images[k].0, |images[k].1|, Offset(images, k))
  {
    DirectoryPrefix(images, k + 1, |images|);
    SliceOfPrefix(Directory(images, k), EntryBytes(images[k].0, |images[k].1|, Offset(images, k)),
                  Directory(images, |images|));
  }

  lemma SliceOfPrefix(a: Bytes, b: Bytes, c: Bytes)
    requires a + b <= c
    ensures c[|a|..|a| + |b|] == b
  {
  }

  lemma BodyOf(images: seq<Image>, k: nat)
    requires k < |images|
    ensures var lo, hi := |Bodies(images, k)|, |Bodies(images, k + 1)|;
            lo <= hi <= |Bodies(images, |images|)| && Bodies(images, |images|)[lo..hi] == images[k].1
  {
    BodiesPrefix(images, k + 1, |images|);
    var lo, hi := |Bodies(images, k)|, |Bodies(images, k + 1)|;
    assert Bodies(images, k + 1)[lo..] == images[k].1;
    assert Bodies(images, |images|)[lo..hi] == Bodies(images, k + 1)[lo..];
  }

  /** Offsets delimit the bodies in order, with no gap and no overlap, from the directory to the end. */
  lemma {:induction false} EntryReads(images: seq<Image>, file: Bytes, k: nat)
    requires Fits(images) && k < |images| && file == Directory(images, |images|) + Bodies(images, |images|)
    ensures ReadEntry(file, k) == Some(images[k])
    ensures Offset(images, k + 1) == Offset(images, k) + |images[k].1| <= |file|
    ensures Offset(images, 0) == 6 + 16 * |images| && Offset(images, |images|) == |file|
  {
    var n, at := |images|, 6 + 16 * k;
    var directory, bodies := Directory(images, n), Bodies(images, n);
    DirectoryEntry(images, k);
    SliceOfFirst(directory, bodies, at, at + 16);
    BodyOf(images, k);
    OffsetsGrow(images, k);
    SliceOfSecond(directory, bodies, |Bodies(images, k)|, |Bodies(images, k + 1)|);
    EntryFrom(file, k, images[k], Offset(images, k));
  }

  lemma EntryFrom(file: Bytes, k: nat, image: Image, offset: nat)
    requires var at := 6 + 16 * k; at + 16 <= |file| && file[at..at + 16] == EntryBytes(image.0, |image.1|, offset)
    requires 1 <= image.0 <= 256 && |image.1| < 0x1_0000_0000 && offset < 0x1_0000_0000
    requires offset + |image.1| <= |file| && file[offset..offset + |image.1|] == image.1
    ensures ReadEntry(file, k) == Some(image)
  {
    EntryNumbers(file, 6 + 16 * k, image.0, |image.1|, offset);
  }

  lemma {:induction false} OffsetsGrow(images: seq<Image>, k: nat)
    requires Fits(images) && k < |images|
    ensures 1 <= images[k].0 <= 256 && |images[k].1| < 0x1_0000_0000 && Offset(images, k) < 0x1_0000_0000
  {
    BodiesPrefix(images, k + 1, |images|);
    assert |Bodies(images, k + 1)| <= |Bodies(images, |images|)|;
  }

  lemma SliceOfFirst(a: Bytes, b: Bytes, lo: nat, hi: nat)
    requires lo <= hi <= |a|
    ensures (a + b)[lo..hi] == a[lo..hi]
  {
  }

  lemma SliceOfSecond(a: Bytes, b: Bytes, lo: nat, hi: nat)
    requires lo <= hi <= |b|
    ensures (a + b)[|a| + lo..|a| + hi] == b[lo..hi]
  {
  }

  lemma SubSlice(file: Bytes, at: nat, n: nat, lo: nat, hi: nat)
    requires at + n <= |file| && lo <= hi <= n
    ensures file[at..at + n][lo..hi] == file[at + lo..at + hi]
  {
    var e := file[at..at + n];
    assert forall i :: lo <= i < hi ==> e[i] == file[at + i];
    assert e[lo..hi] == file[at + lo..at + hi];
  }

  /** The fixed fields of a directory entry. */
  lemma EntryKind(file: Bytes, at: nat, e: Bytes, head: Bytes, rest: Bytes)
    requires at + 16 <= |file| && e == file[at..at + 16] && e == head + rest
    requires exists d: u8 :: head == [d, d, 0, 0] + Le2(1) + Le2(32)
    ensures file[at + 1] == file[at] && file[at + 2] == 0 && file[at + 3] == 0
    ensures ReadLe2(file, at + 4) == 1 && ReadLe2(file, at + 6) == 32
  {
    var d: u8 :| head == [d, d, 0, 0] + Le2(1) + Le2(32);
    assert e[0] == d && e[1] == d && e[2] == 0 && e[3] == 0;
    assert head <= e;
    FrontOf([d, d, 0, 0] + Le2(1), Le2(32), e);
    SliceOfPrefix([d, d, 0, 0], Le2(1), e);
    SliceOfPrefix([d, d, 0, 0] + Le2(1), Le2(32), e);
    assert file[at] == e[0] && file[at + 1] == e[1] && file[at + 2] == e[2] && file[at + 3] == e[3];
    SubSlice(file, at, 16, 4, 6);
    SubSlice(file, at, 16, 6, 8);
    Le2Reads(1, file, at + 4);
    Le2Reads(32, file, at + 6);
  }

  lemma EntryNumbers(file: Bytes, at: nat, size: nat, length: nat, offset: nat)
    requires at + 16 <= |file| && file[at..at + 16] == EntryBytes(size, length, offset)
    requires 1 <= size <= 256 && length < 0x1_0000_0000 && offset < 0x1_0000_0000
    ensures ReadDimension(file[at]) == size && ReadLe4(file, at + 8) == length && ReadLe4(file, at + 12) == offset
    ensures file[at + 1] == file[at] && file[at + 2] == 0 && file[at + 3] == 0
    ensures ReadLe2(file, at + 4) == 1 && ReadLe2(file, at + 6) == 32
  {
    var head := [EntryDimension(size), EntryDimension(size), 0, 0] + Le2(1) + Le2(32);
    var e := file[at..at + 16];
    assert e == head + Le4(length) + Le4(offset);
    SliceOfPrefix(head, Le4(length), e);
    SliceOfPrefix(head + Le4(length), Le4(offset), e);
    assert file[at] == e[0];
    assert file[at + 8..at + 12] == e[8..12];
    assert file[at + 12..at + 16] == e[12..16];
    assert e == head + (Le4(length) + Le4(offset));
    EntryKind(file, at, e, head, Le4(length) + Le4(offset));
    Le4Reads(length, file, at + 8);
    Le4Reads(offset, file, at + 12);
  }

  lemma {:induction false} EntriesRead(images: seq<Image>, file: Bytes, k: nat)
    requires Fits(images) && k <= |images| && file == Directory(images, |images|) + Bodies(images, |images|)
    ensures ReadEntries(file, k, |images|) == Some(images[k..])
    decreases |images| - k
  {
    if k == |images| {
      assert images[k..] == [];
    } else {
      EntryReads(images, file, k);
      EntriesRead(images, file, k + 1);
      assert [images[k]] + images[k + 1..] == images[k..];
    }
  }

  lemma HeadReads(images: seq<Image>, file: Bytes)
    requires |images| < 0x1_0000 && Le2(0) + Le2(1) + Le2(|images|) <= file
    ensures ReadLe2(file, 0) == 0 && ReadLe2(file, 2) == 1 && ReadLe2(file, 4) == |images|
  {
    assert file[0..2] == Le2(0) && file[2..4] == Le2(1) && file[4..6] == Le2(|images|);
    Le2Reads(0, file, 0);
    Le2Reads(1, file, 2);
    Le2Reads(|images|, file, 4);
  }

  /** Reading an assembled icon gives back every image and its size. */
  lemma {:induction false} IcoRoundTrip(images: seq<Image>)
    requires Fits(images)
    ensures ReadIco(Directory(images, |images|) + Bodies(images, |images|)) == Some(images)
  {
    var file := Directory(images, |images|) + Bodies(images, |images|);
    DirectoryPrefix(images, 0, |images|);
    HeadReads(images, file);
    EntriesRead(images, file, 0);
    assert images[0..] == images;
  }

  // -------------------------------------------------------------------------------------------
  // The whole icon
  // -------------------------------------------------------------------------------------------

  const ICO_SIZES: seq<nat> := [16, 32, 48, 256]

  /** The edge of image `k`. */
  predicate IsSize(k: nat, size: nat) {
    size == if k == 0 then 16 else if k == 1 then 32 else if k == 2 then 48 else 256
  }

  /** From decoded alpha to file: every image in the file shows the box-averaged square mark, in the fill
      colour, with the header of its size and the mask its alpha gives. */
  method RenderIco(alpha: seq<u8>, srcW: u32, srcH: u32) returns (file: Bytes, mark: seq<u8>)
    requires 0 < srcW && 0 < srcH
    ensures var (x0, y0, side) := IconCrop(srcW, srcH);
      && |mark| == side * side
      && (forall y, x :: 0 <= y < side && 0 <= x < side ==>
            At(y, x, side) < |mark| && mark[At(y, x, side)] == Pixel(alpha, srcW, y0 + y, x0 + x))
      && ReadIco(file).Some? && |ReadIco(file).value| == 4
      && forall k :: 0 <= k < 4 ==>
           IsSize(k, ReadIco(file).value[k].0)
           && ShowsReduced(ReadIco(file).value[k].1, ReadIco(file).value[k].0, mark, side)
  {
    var (x0, y0, side) := IconCrop(srcW, srcH);
    IconCropInside(srcW, srcH);
    mark := CropAlpha(alpha, srcW, x0, y0, side, side);
    var images := RenderImages(mark, side);
    file := AssembleIco(images);
    RenderedFits(images, mark, side);
    IcoRoundTrip(images);
    RenderedSizes(images, mark, side);
  }

  lemma RenderedSizes(images: seq<Image>, mark: seq<u8>, side: u32)
    requires 0 < side && Rendered(images, mark, side, 4)
    ensures forall k :: 0 <= k < 4 ==> IsSize(k, images[k].0) && ShowsReduced(images[k].1, images[k].0, mark, side)
  {
  }

  ghost predicate Rendered(images: seq<Image>, mark: seq<u8>, side: u32, n: nat)
    requires 0 < side && n <= 4
  {
    |images| == n && forall j :: 0 <= j < n ==>
      images[j].0 == ICO_SIZES[j] && ShowsReduced(images[j].1, ICO_SIZES[j], mark, side)
  }

  method RenderImages(mark: seq<u8>, side: u32) returns (images: seq<Image>)
    requires 0 < side
    ensures Rendered(images, mark, side, 4)
  {
    images := [];
    for k := 0 to 4
      invariant Rendered(images, mark, side, k)
    {
      var size := ICO_SIZES[k];
      var scaled := DownsampleAlpha(mark, side, side, size, size);
      var image := IcoImage(size, scaled);
      ScaledShows(image, size, scaled, mark, side);
      images := images + [(size, image)];
    }
  }

  /** The image is the icon image of an alpha that is, pixel by pixel, the mean of the box of the mark that the
      pixel stands for. */
  ghost predicate ShowsReduced(image: Bytes, size: nat, mark: seq<u8>, side: u32)
    requires 0 < side && 0 < size <= 256
  {
    && |image| == 40 + XorLen(size) + AndLen(size)
    && (forall y, x :: 0 <= y < size && 0 <= x < size ==> ReducedAt(image, size, mark, side, y, x))
    && exists scaled: Bytes :: IsReduction(scaled, mark, side, side, size, size) && Shows(image, size, scaled)
  }

  predicate ReducedAt(image: Bytes, size: nat, mark: seq<u8>, side: u32, y: nat, x: nat)
    requires 0 < side && y < size <= 256 && x < size && |image| == 40 + XorLen(size) + AndLen(size)
  {
    && SpanIsBox(y, size, side) && SpanIsBox(x, size, side)
    && Channel(image, size, y, x, 3) == BoxMean(mark, side, Span(y, size, side), Span(x, size, side))
  }

  lemma ReducedPixel(image: Bytes, size: nat, scaled: seq<u8>, mark: seq<u8>, side: u32, y: nat, x: nat)
    requires 0 < side && y < size <= 256 && x < size && |image| == 40 + XorLen(size) + AndLen(size)
    requires PixelShows(image, size, scaled, y, x) && PixelIs(scaled, mark, side, side, size, size, y, x)
    ensures ReducedAt(image, size, mark, side, y, x)
  {
  }

  lemma ScaledShows(image: Bytes, size: nat, scaled: seq<u8>, mark: seq<u8>, side: u32)
    requires 0 < side && 0 < size <= 256 && Shows(image, size, scaled)
    requires IsReduction(scaled, mark, side, side, size, size)
    ensures ShowsReduced(image, size, mark, side)
  {
    forall y, x | 0 <= y < size && 0 <= x < size ensures ReducedAt(image, size, mark, side, y, x) {
      ReducedPixel(image, size, scaled, mark, side, y, x);
    }
  }

  lemma RenderedFits(images: seq<Image>, mark: seq<u8>, side: u32)
    requires 0 < side && Rendered(images, mark, side, 4)
    ensures Fits(images)
  {
    assert |images[0].1| == 40 + 1024 + 64;
    assert |images[1].1| == 40 + 4096 + 128;
    assert |images[2].1| == 40 + 9216 + 384;
    assert |images[3].1| == 40 + 262144 + 8192;
    assert Offset(images, 4) == Offset(images, 3) + |images[3].1|;
    assert Offset(images, 3) == Offset(images, 2) + |images[2].1|;
    assert Offset(images, 2) == Offset(images, 1) + |images[1].1|;
    assert Offset(images, 1) == Offset(images, 0) + |images[0].1|;
  }
}
