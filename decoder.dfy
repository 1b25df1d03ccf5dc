/** Decoding of the detection head's output rows into candidate boxes.
    A row is `[cx offset, cy offset, log w, log h, objectness, class scores...]`. */
module Decoder {
  import opened JavaNumerics
  import opened Grid

  /** `probThreshold`: a candidate is kept only when its score is strictly above it. */
  const ProbThreshold: real := 0.5

  /** Column of the first class score (`colRange(5, cols)`). */
  const FirstClass: nat := 5

  /** An OpenCV `Rect`: integer top-left corner and size. */
  datatype Rect = Rect(x: int, y: int, width: int, height: int)

  /** One entry of the three parallel vectors `classIds`, `confidences`, `boxes`. */
  datatype Candidate = Candidate(classId: int, confidence: real, box: Rect)

  /** The box of a cell before the `(int)` casts. */
  datatype Geometry = Geometry(xCenter: real, yCenter: real, w: real, h: real, x0: real, y0: real)

  /** Every row read has the four box values, the objectness and at least one class score. */
  ghost predicate WideRows(rows: seq<seq<real>>, n: nat)
  {
    n <= |rows| && forall k :: 0 <= k < n ==> |rows[k]| > FirstClass
  }

  ghost predicate Levelled(cells: seq<Cell>)
  {
    forall k :: 0 <= k < |cells| ==> cells[k].level < |Strides|
  }

  /** `minMaxLoc` on a row of scores: the position of the maximum, the first one
      when several scores tie (OpenCV replaces its running maximum only on `>`). */
  function ArgMax(scores: seq<real>): (k: nat)
    requires |scores| > 0
    ensures k < |scores|
    ensures forall c :: 0 <= c < |scores| ==> scores[c] <= scores[k]
    ensures forall c :: 0 <= c < k ==> scores[c] < scores[k]
  {
    if |scores| == 1 then 0
    else
      var k := ArgMax(scores[..|scores| - 1]);
      if scores[|scores| - 1] > scores[k] then |scores| - 1 else k
  }

  /** `classIdx`: the best class of a row. */
  function ClassIndex(row: seq<real>): (k: nat)
    requires |row| > FirstClass
    ensures FirstClass + k < |row|
  {
    ArgMax(row[FirstClass..])
  }

  /** The best class scores at least as high as every class of the row, and
      strictly higher than every class before it. */
  lemma ClassIndexBest(row: seq<real>)
    requires |row| > FirstClass
    ensures forall c :: FirstClass <= c < |row| ==> row[c] <= row[FirstClass + ClassIndex(row)]
    ensures forall c :: FirstClass <= c < FirstClass + ClassIndex(row) ==> row[c] < row[FirstClass + ClassIndex(row)]
  {
    var scores := row[FirstClass..];
    assert forall c :: FirstClass <= c < |row| ==> row[c] == scores[c - FirstClass];
  }

  /** `boxProb = boxScore * clsScore`: objectness times the best class score. */
  function Confidence(row: seq<real>): real
    requires |row| > FirstClass
  {
    row[4] * row[FirstClass + ClassIndex(row)]
  }

  predicate Emits(row: seq<real>)
    requires |row| > FirstClass
  {
    Confidence(row) > ProbThreshold
  }

  /** `value * stride` for the stride of block `level`. The product is written
      out per level so that it stays a product by a constant. */
  function AtStride(value: real, level: nat): real
    requires level < |Strides|
  {
    if level == 0 then value * 8.0 else if level == 1 then value * 16.0 else value * 32.0
  }

  lemma AtStrideIs(value: real, level: nat)
    requires level < |Strides|
    ensures AtStride(value, level) == value * Strides[level] as real
  {
  }

  /** Box decoding for cell `(i, j)` of stride block `level`, exactly as the
      decoder writes it: `j` moves the x centre and `i` the y centre. */
  function DecodeBox(row: seq<real>, level: nat, i: int, j: int, exp: real -> real): Geometry
    requires |row| > FirstClass && level < |Strides|
  {
    var xCenter := AtStride(row[0] + j as real, level);
    var yCenter := AtStride(row[1] + i as real, level);
    var w := AtStride(exp(row[2]), level);
    var h := AtStride(exp(row[3]), level);
    Geometry(xCenter, yCenter, w, h, xCenter - w * 0.5, yCenter - h * 0.5)
  }

  /** `new Rect((int) x0, (int) y0, (int) w, (int) h)`. */
  function ToRect(g: Geometry): Rect
  {
    Rect(Trunc(g.x0), Trunc(g.y0), Trunc(g.w), Trunc(g.h))
  }

  function CandidateAt(row: seq<real>, c: Cell, exp: real -> real): Candidate
    requires |row| > FirstClass && c.level < |Strides|
  {
    Candidate(ClassIndex(row), Confidence(row), ToRect(DecodeBox(row, c.level, c.i, c.j, exp)))
  }

  /** What one grid cell adds to the vectors. */
  function Emitted(row: seq<real>, c: Cell, exp: real -> real): seq<Candidate>
    requires |row| > FirstClass && c.level < |Strides|
  {
    if Emits(row) then [CandidateAt(row, c, exp)] else []
  }

  /** The candidates produced when row `k` is decoded as cell `cells[k]`, for
      every `k < |cells|`, in that order. */
  function DecodeRows(rows: seq<seq<real>>, cells: seq<Cell>, exp: real -> real): (cands: seq<Candidate>)
    requires WideRows(rows, |cells|) && Levelled(cells)
    ensures |cands| <= |cells|
  {
    if cells == [] then []
    else
      var k := |cells| - 1;
      DecodeRows(rows, cells[..k], exp) + Emitted(rows[k], cells[k], exp)
  }

  /** The rows among the first `n` whose score passes the threshold, ascending. */
  function Kept(rows: seq<seq<real>>, n: nat): (ks: seq<nat>)
    requires WideRows(rows, n)
    ensures forall m :: 0 <= m < |ks| ==> ks[m] < n && Emits(rows[ks[m]])
    ensures forall m1, m2 :: 0 <= m1 < m2 < |ks| ==> ks[m1] < ks[m2]
  {
    if n == 0 then []
    else Kept(rows, n - 1) + (if Emits(rows[n - 1]) then [n - 1] else [])
  }

  /** Threshold, completeness half: every row whose score is above the
      threshold is kept. */
  lemma {:induction false} KeptComplete(rows: seq<seq<real>>, n: nat, k: nat)
    requires WideRows(rows, n) && k < n && Emits(rows[k])
    ensures k in Kept(rows, n)
  {
    var prev := Kept(rows, n - 1);
    assert Kept(rows, n) == prev + (if Emits(rows[n - 1]) then [n - 1] else []);
    if k < n - 1 {
      KeptComplete(rows, n - 1, k);
    } else {
      assert Kept(rows, n)[|prev|] == k;
    }
  }

  /** Decoding appends at most one candidate per row, in row order. */
  lemma DecodeRowsExtend(rows: seq<seq<real>>, cells: seq<Cell>, k: nat, exp: real -> real)
    requires k < |cells| && WideRows(rows, |cells|) && Levelled(cells)
    ensures DecodeRows(rows, cells[..k + 1], exp)
         == DecodeRows(rows, cells[..k], exp) + Emitted(rows[k], cells[k], exp)
  {
    assert cells[..k + 1][..k] == cells[..k];
  }

  /** Decoding emits one candidate per kept row. */
  lemma {:induction false} DecodeRowsCount(rows: seq<seq<real>>, cells: seq<Cell>, exp: real -> real)
    requires WideRows(rows, |cells|) && Levelled(cells)
    ensures |DecodeRows(rows, cells, exp)| == |Kept(rows, |cells|)|
  {
    if cells != [] {
      DecodeRowsCount(rows, cells[..|cells| - 1], exp);
    }
  }

  /** Candidate `m` is the decoding of the `m`-th kept row, read as its own cell. */
  lemma {:induction false} DecodeRowsAt(rows: seq<seq<real>>, cells: seq<Cell>, m: nat, exp: real -> real)
    requires WideRows(rows, |cells|) && Levelled(cells) && m < |Kept(rows, |cells|)|
    ensures m < |DecodeRows(rows, cells, exp)|
    ensures DecodeRows(rows, cells, exp)[m]
         == CandidateAt(rows[Kept(rows, |cells|)[m]], cells[Kept(rows, |cells|)[m]], exp)
  {
    var k := |cells| - 1;
    var prefix := cells[..k];
    DecodeRowsCount(rows, cells, exp);
    DecodeRowsCount(rows, prefix, exp);
    var d, ks := DecodeRows(rows, prefix, exp), Kept(rows, k);
    assert DecodeRows(rows, cells, exp) == d + Emitted(rows[k], cells[k], exp);
    assert Kept(rows, |cells|) == ks + (if Emits(rows[k]) then [k] else []);
    if m < |ks| {
      DecodeRowsAt(rows, prefix, m, exp);
      assert prefix[ks[m]] == cells[ks[m]];
    }
  }

  lemma DecodeRowsOrigin(rows: seq<seq<real>>, cells: seq<Cell>, exp: real -> real)
    requires WideRows(rows, |cells|) && Levelled(cells)
    ensures |DecodeRows(rows, cells, exp)| == |Kept(rows, |cells|)|
    ensures forall m :: 0 <= m < |Kept(rows, |cells|)| ==>
              DecodeRows(rows, cells, exp)[m] == CandidateAt(rows[Kept(rows, |cells|)[m]], cells[Kept(rows, |cells|)[m]], exp)
  {
    DecodeRowsCount(rows, cells, exp);
    forall m | 0 <= m < |Kept(rows, |cells|)|
      ensures DecodeRows(rows, cells, exp)[m] == CandidateAt(rows[Kept(rows, |cells|)[m]], cells[Kept(rows, |cells|)[m]], exp)
    {
      DecodeRowsAt(rows, cells, m, exp);
    }
  }

  /** A grid offset in `[0, 1)` places the centre inside the cell's stride span. */
  lemma CellSpan(o: real, idx: int, s: int)
    requires 0.0 <= o < 1.0 && 0 < s
    ensures idx as real * s as real <= (o + idx as real) * s as real < (idx as real + 1.0) * s as real
  {
  }

  /** `Math.pow(e, t)` is strictly positive for every `t`. */
  ghost predicate ExpPositive(exp: real -> real)
  {
    forall t :: exp(t) > 0.0
  }

  lemma ExpAt(exp: real -> real, t: real)
    requires ExpPositive(exp)
    ensures exp(t) > 0.0
  {
  }

  /** A cell's box: positive size proportional to the stride, corner at centre
      minus half size, and a centre inside cell `(j, i)` when the offsets are in `[0, 1)`. */
  lemma BoxDecode(row: seq<real>, level: nat, i: int, j: int, exp: real -> real)
    requires |row| > FirstClass && level < |Strides|
    requires ExpPositive(exp)
    ensures var g := DecodeBox(row, level, i, j, exp);
      var s := Strides[level] as real;
      && 0.0 < g.w && 0.0 < g.h
      && g.w == exp(row[2]) * s && g.h == exp(row[3]) * s
      && g.x0 + g.w / 2.0 == g.xCenter && g.y0 + g.h / 2.0 == g.yCenter
      && g.x0 < g.xCenter && g.y0 < g.yCenter
      && (0.0 <= row[0] < 1.0 ==> j as real * s <= g.xCenter < (j as real + 1.0) * s)
      && (0.0 <= row[1] < 1.0 ==> i as real * s <= g.yCenter < (i as real + 1.0) * s)
  {
    ExpAt(exp, row[2]);
    ExpAt(exp, row[3]);
    AtStrideIs(exp(row[2]), level);
    AtStrideIs(exp(row[3]), level);
    AtStrideIs(row[0] + j as real, level);
    AtStrideIs(row[1] + i as real, level);
    if 0.0 <= row[0] < 1.0 {
      CellSpan(row[0], j, Strides[level]);
    }
    if 0.0 <= row[1] < 1.0 {
      CellSpan(row[1], i, Strides[level]);
    }
  }

  /** As written, the x centre follows the inner index `j`, which runs up to
      `height / s`, and the y centre follows the outer index `i`, which runs up
      to `width / s`. With offsets in `[0, 1)` the x centre is therefore bounded
      by the canvas height and the y centre by the canvas width; on a square
      canvas both lie inside the canvas. */
  lemma CentreBounds(width: nat, height: nat, row: seq<real>, c: Cell, exp: real -> real)
    requires InGrid(width, height, c) && |row| > FirstClass
    requires 0.0 <= row[0] < 1.0 && 0.0 <= row[1] < 1.0
    ensures var g := DecodeBox(row, c.level, c.i, c.j, exp);
      0.0 <= g.xCenter < height as real && 0.0 <= g.yCenter < width as real
  {
  }

  /** On a non-square canvas a decoded centre can leave the canvas: a 16x8
      canvas has stride-8 cells with `i` in {0, 1} and `j` in {0}, and the cell
      with `i = 1` gets a y centre of at least 8, the canvas height. */
  lemma NonSquareCentreOutside(row: seq<real>, exp: real -> real)
    requires |row| > FirstClass && 0.0 <= row[1]
    ensures InGrid(16, 8, Cell(0, 1, 0))
    ensures DecodeBox(row, 0, 1, 0, exp).yCenter >= 8.0
  {
  }

  /** The whole traversal: the candidates are exactly the rows above the
      threshold, each decoded as its own grid cell, in traversal order (so
      stride 8 before 16 before 32). */
  lemma DecodedCandidates(width: nat, height: nat, rows: seq<seq<real>>, exp: real -> real)
    requires WideRows(rows, TotalCells(width, height))
    ensures var t := Traversal(width, height);
            var cands := DecodeRows(rows, t, exp);
            var ks := Kept(rows, |t|);
      && |cands| == |ks|
      && (forall m :: 0 <= m < |ks| ==>
            && ks[m] < |t| && InGrid(width, height, t[ks[m]]) && RowOf(width, height, t[ks[m]]) == ks[m]
            && cands[m] == CandidateAt(rows[ks[m]], t[ks[m]], exp)
            && cands[m].confidence > ProbThreshold)
      && (forall k :: 0 <= k < |t| ==> (Emits(rows[k]) <==> k in ks))
      && (forall m1, m2 :: 0 <= m1 < m2 < |ks| ==> t[ks[m1]].level <= t[ks[m2]].level)
  {
    var t := Traversal(width, height);
    var ks := Kept(rows, |t|);
    DecodeRowsOrigin(rows, t, exp);
    GridCoverage(width, height);
    forall k | 0 <= k < |t| && Emits(rows[k]) ensures k in ks {
      KeptComplete(rows, |t|, k);
    }
    forall m1, m2 | 0 <= m1 < m2 < |ks| ensures t[ks[m1]].level <= t[ks[m2]].level {
      TraversalOrdered(width, height, ks[m1], ks[m2]);
    }
  }
}
