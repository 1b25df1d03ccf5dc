/** Mapping surviving boxes from canvas coordinates back to the source image:
    divide by the letterbox scale, then clip to the image. */
module Remap {
  import opened JavaNumerics
  import opened Decoder

  /** Box corners in source-image coordinates, before the drawing casts. */
  datatype Corners = Corners(x0: real, y0: real, x1: real, y1: real)

  /** A kept detection: its class, its score and its corners in the source image. */
  datatype Detection = Detection(classId: int, confidence: real, corners: Corners)

  /** `Math.max(Math.min(v, hi), 0)`. */
  function Clamp(v: real, hi: real): (r: real)
    ensures 0.0 <= hi ==> 0.0 <= r <= hi
    ensures 0.0 <= v <= hi ==> r == v
    ensures 0.0 <= hi < v ==> r == hi
    ensures v < 0.0 ==> r == 0.0
  {
    Max(Min(v, hi), 0.0)
  }

  /** Clipping twice is clipping once. */
  lemma ClampIdempotent(v: real, hi: real)
    requires 0.0 <= hi
    ensures Clamp(Clamp(v, hi), hi) == Clamp(v, hi)
  {
  }

  /** Clipping keeps the order of coordinates. */
  lemma ClampMonotone(v1: real, v2: real, hi: real)
    requires v1 <= v2
    ensures Clamp(v1, hi) <= Clamp(v2, hi)
  {
  }

  /** Corners of `box` divided by `scale`, x clipped to `[0, cols - 1]` and
      y to `[0, rows - 1]`. */
  function RemapBox(box: Rect, scale: real, cols: int, rows: int): (r: Corners)
    requires 0.0 < scale && 0 < cols && 0 < rows
    ensures 0.0 <= r.x0 <= (cols - 1) as real && 0.0 <= r.x1 <= (cols - 1) as real
    ensures 0.0 <= r.y0 <= (rows - 1) as real && 0.0 <= r.y1 <= (rows - 1) as real
  {
    Corners(
      Clamp(box.x as real / scale, (cols - 1) as real),
      Clamp(box.y as real / scale, (rows - 1) as real),
      Clamp((box.x + box.width) as real / scale, (cols - 1) as real),
      Clamp((box.y + box.height) as real / scale, (rows - 1) as real))
  }

  lemma DivideMonotone(a: real, b: real, scale: real)
    requires a <= b && 0.0 < scale
    ensures a / scale <= b / scale
  {
    assert b / scale - a / scale == (b - a) / scale;
  }

  /** A box of non-negative size keeps its corners in order after remapping. */
  lemma RemapKeepsOrder(box: Rect, scale: real, cols: int, rows: int)
    requires 0.0 < scale && 0 < cols && 0 < rows
    requires 0 <= box.width && 0 <= box.height
    ensures RemapBox(box, scale, cols, rows).x0 <= RemapBox(box, scale, cols, rows).x1
    ensures RemapBox(box, scale, cols, rows).y0 <= RemapBox(box, scale, cols, rows).y1
  {
    DivideMonotone(box.x as real, (box.x + box.width) as real, scale);
    DivideMonotone(box.y as real, (box.y + box.height) as real, scale);
    ClampMonotone(box.x as real / scale, (box.x + box.width) as real / scale, (cols - 1) as real);
    ClampMonotone(box.y as real / scale, (box.y + box.height) as real / scale, (rows - 1) as real);
  }

  /** With scale 1 a box inside the image comes back unchanged. */
  lemma RemapIdentity(box: Rect, cols: int, rows: int)
    requires 0 < cols && 0 < rows
    requires 0 <= box.x && box.x + box.width <= cols - 1 && 0 <= box.width
    requires 0 <= box.y && box.y + box.height <= rows - 1 && 0 <= box.height
    ensures RemapBox(box, 1.0, cols, rows)
         == Corners(box.x as real, box.y as real, (box.x + box.width) as real, (box.y + box.height) as real)
  {
  }

  /** A canvas coordinate that is the truncated scaled source coordinate
      `p >= 0` comes back, after division by the scale, within one source
      pixel-step `1 / scale` below `p`, and never above it. */
  lemma UnscaleTrunc(p: real, scale: real)
    requires 0.0 < scale && 0.0 <= p
    ensures 0.0 <= Trunc(p * scale) as real / scale
    ensures p - 1.0 / scale < Trunc(p * scale) as real / scale <= p
  {
    var t := Trunc(p * scale) as real;
    assert t <= p * scale < t + 1.0;
    assert (p * scale) / scale == p;
    DivideMonotone(t, p * scale, scale);
    assert (t + 1.0) / scale - (p * scale) / scale == (t + 1.0 - p * scale) / scale;
    assert (t + 1.0) / scale == t / scale + 1.0 / scale;
  }

  /** Remapping undoes the letterbox up to truncation: a box whose corner is
      the truncated scaled image of a source point `(px, py)` inside the image
      has its remapped top-left corner in `(px - 1 / scale, px]` by
      `(py - 1 / scale, py]`. */
  lemma RemapInvertsScale(px: real, py: real, w: int, h: int, scale: real, cols: int, rows: int)
    requires 0.0 < scale && 0 < cols && 0 < rows
    requires 0.0 <= px <= (cols - 1) as real && 0.0 <= py <= (rows - 1) as real
    ensures var r := RemapBox(Rect(Trunc(px * scale), Trunc(py * scale), w, h), scale, cols, rows);
      && px - 1.0 / scale < r.x0 <= px
      && py - 1.0 / scale < r.y0 <= py
  {
    UnscaleTrunc(px, scale);
    UnscaleTrunc(py, scale);
  }

  /** A coordinate past the right or bottom edge is clipped exactly to the edge. */
  lemma ClipBoundary(box: Rect, scale: real, cols: int, rows: int)
    requires 0.0 < scale && 0 < cols && 0 < rows
    requires (box.x + box.width) as real / scale > (cols - 1) as real
    ensures RemapBox(box, scale, cols, rows).x1 == (cols - 1) as real
  {
  }
}
