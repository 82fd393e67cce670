/** The brand-mark blob of xtask/src/identity.rs: a reduced alpha mask behind a little-endian header. */
module Blob {
  import opened Identity
  import opened Ico
  import opened Numbers

  /** The blob's dimensions: the target height and the width that keeps the aspect ratio, never zero and
      never more than the source has. */
  function Dimensions(srcW: u32, srcH: u32, targetH: u32): (r: (u32, u32))
    requires 0 < srcW && 0 < srcH
    ensures 1 <= r.0 <= srcW && 1 <= r.1 <= srcH
    ensures r.0 == Max(TargetWidth(srcW, srcH, r.1), 1) && r.1 == Max(Min(targetH, srcH), 1)
  {
    var h := Max(Min(targetH, srcH), 1);
    TargetWidthIsNearest(srcW, srcH, h);
    (Max(TargetWidth(srcW, srcH, h), 1), h)
  }

  /** A reader of the header finds the dimensions, and as many pixels behind it as they say, each the rounded
      mean of its box of the source. */
  method RenderBlob(alpha: seq<u8>, srcW: u32, srcH: u32, targetH: u32) returns (out: Bytes)
    requires 0 < srcW && 0 < srcH
    ensures var (w, h) := Dimensions(srcW, srcH, targetH);
      && |out| == 8 + w * h && ReadLe4(out, 0) == w && ReadLe4(out, 4) == h
      && forall y, x :: 0 <= y < h && 0 <= x < w ==> PixelIs(out[8..], alpha, srcW, srcH, w, h, y, x)
  {
    var (w, h) := Dimensions(srcW, srcH, targetH);
    var pixels := DownsampleAlpha(alpha, srcW, srcH, w, h);
    out := Le4(w) + Le4(h) + pixels;
    Framed(w, h, pixels);
  }

  lemma Framed(w: u32, h: u32, pixels: Bytes)
    ensures var out := Le4(w) + Le4(h) + pixels;
            |out| == 8 + |pixels| && ReadLe4(out, 0) == w && ReadLe4(out, 4) == h && out[8..] == pixels
  {
    var out := Le4(w) + Le4(h) + pixels;
    assert out[0..4] == Le4(w) && out[4..8] == Le4(h);
    Le4Reads(w, out, 0);
    Le4Reads(h, out, 4);
  }
}
