/** Letterbox arithmetic: the uniform scale that fits a source image into the
    network canvas, and the truncated size of the scaled image. */
module Letterbox {
  import opened JavaNumerics

  /** Grey level written on every channel of the padding. */
  const Fill: real := 144.0

  datatype Size = Size(w: int, h: int)

  /** `min(width / cols, height / rows)`: the largest factor that makes the
      source fit the canvas on both axes, applied to both axes alike. */
  function Scale(width: int, height: int, cols: int, rows: int): (s: real)
    requires 0 < width && 0 < height && 0 < cols && 0 < rows
    ensures 0.0 < s
    ensures s * cols as real <= width as real && s * rows as real <= height as real
    ensures s * cols as real == width as real || s * rows as real == height as real
  {
    var sx := width as real / cols as real;
    var sy := height as real / rows as real;
    assert sx * cols as real == width as real;
    assert sy * rows as real == height as real;
    assert sx <= sy ==> sx * rows as real <= sy * rows as real;
    assert sy <= sx ==> sy * cols as real <= sx * cols as real;
    Min(sx, sy)
  }

  /** `upW = (int)(scale * cols)`, `upH = (int)(scale * rows)`. */
  function ScaledSize(width: int, height: int, cols: int, rows: int): (sz: Size)
    requires 0 < width && 0 < height && 0 < cols && 0 < rows
    ensures 0 <= sz.w <= width && 0 <= sz.h <= height
    ensures sz.w == width || sz.h == height
    ensures sz.w as real <= Scale(width, height, cols, rows) * cols as real < sz.w as real + 1.0
    ensures sz.h as real <= Scale(width, height, cols, rows) * rows as real < sz.h as real + 1.0
  {
    var s := Scale(width, height, cols, rows);
    TruncOfInt(width);
    TruncOfInt(height);
    Size(Trunc(s * cols as real), Trunc(s * rows as real))
  }

  /** The letterbox shrinks (scale at most 1) exactly when the source is at
      least as large as the canvas on one axis; otherwise it enlarges. */
  lemma ScaleShrinks(width: int, height: int, cols: int, rows: int)
    requires 0 < width && 0 < height && 0 < cols && 0 < rows
    ensures Scale(width, height, cols, rows) <= 1.0 <==> (width <= cols || height <= rows)
  {
    var sx := width as real / cols as real;
    var sy := height as real / rows as real;
    assert sx * cols as real == width as real;
    assert sy * rows as real == height as real;
    assert sx <= 1.0 <==> width <= cols;
    assert sy <= 1.0 <==> height <= rows;
  }
}
