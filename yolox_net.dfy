/** The detector object: the canvas size it was built for and the letterbox
    scale that the last resize recorded for the remap. */
module Detector {
  import opened JavaNumerics
  import opened Letterbox
  import opened Normalization
  import opened Grid
  import opened Decoder
  import opened Remap

  /** The three parallel vectors hold, entry by entry, the fields of `cands`. */
  ghost predicate Unzipped(classIds: seq<int>, confidences: seq<real>, boxes: seq<Rect>, cands: seq<Candidate>)
  {
    && |classIds| == |cands| && |confidences| == |cands| && |boxes| == |cands|
    && forall m :: 0 <= m < |cands| ==>
         classIds[m] == cands[m].classId && confidences[m] == cands[m].confidence && boxes[m] == cands[m].box
  }

  lemma UnzippedSnoc(classIds: seq<int>, confidences: seq<real>, boxes: seq<Rect>, cands: seq<Candidate>, c: Candidate)
    requires Unzipped(classIds, confidences, boxes, cands)
    ensures Unzipped(classIds + [c.classId], confidences + [c.confidence], boxes + [c.box], cands + [c])
  {
  }

  lemma ScoreIsConfidence(row: seq<real>, classIdx: nat, boxProb: real)
    requires |row| > FirstClass && classIdx == ArgMax(row[FirstClass..])
    requires boxProb == row[4] * row[FirstClass + classIdx]
    ensures classIdx == ClassIndex(row) && boxProb == Confidence(row)
  {
  }

  /** Appending what one row emits to the decoded candidates appends the row's
      class, score and box to the three vectors when the score clears the
      threshold, and nothing otherwise. */
  lemma EmitStep(classIds: seq<int>, confidences: seq<real>, boxes: seq<Rect>, before: seq<Candidate>,
                 row: seq<real>, c: Cell, exp: real -> real, classIdx: nat, boxProb: real)
    requires |row| > FirstClass && c.level < |Strides|
    requires Unzipped(classIds, confidences, boxes, before)
    requires classIdx == ArgMax(row[FirstClass..])
    requires boxProb == row[4] * row[FirstClass + classIdx]
    ensures boxProb > ProbThreshold ==>
      Unzipped(classIds + [classIdx], confidences + [boxProb],
               boxes + [ToRect(DecodeBox(row, c.level, c.i, c.j, exp))], before + Emitted(row, c, exp))
    ensures boxProb <= ProbThreshold ==> Unzipped(classIds, confidences, boxes, before + Emitted(row, c, exp))
  {
    ScoreIsConfidence(row, classIdx, boxProb);
    if boxProb > ProbThreshold {
      UnzippedSnoc(classIds, confidences, boxes, before, CandidateAt(row, c, exp));
    } else {
      assert Emitted(row, c, exp) == [];
      assert before + [] == before;
    }
  }

  /** What decoding the first `n` rows produces, cell `cells[k]` for row `k`. */
  ghost function Decoded(out: seq<seq<real>>, cells: seq<Cell>, n: nat, exp: real -> real): seq<Candidate>
    requires WideRows(out, |cells|) && Levelled(cells) && n <= |cells|
  {
    DecodeRows(out, cells[..n], exp)
  }

  /** Decoding one more cell of the traversal appends what that cell emits. */
  lemma CellStep(width: nat, height: nat, out: seq<seq<real>>, cells: seq<Cell>, c: Cell, rowInd: nat, exp: real -> real)
    requires Layout(width, height, cells) && InGrid(width, height, c) && rowInd == RowOf(width, height, c)
    requires WideRows(out, |cells|)
    ensures rowInd < |cells|
    ensures Decoded(out, cells, rowInd + 1, exp) == Decoded(out, cells, rowInd, exp) + Emitted(out[rowInd], c, exp)
  {
    DecodeRowsExtend(out, cells, rowInd, exp);
  }

  /** The body of the inner decoding loop for one output row `row` and its cell
      `c`: the best class, the score, and, when the score clears the threshold,
      the decoded box appended to the three vectors. */
  method DecodeCell(row: seq<real>, c: Cell, exp: real -> real,
                    classIds: seq<int>, confidences: seq<real>, boxes: seq<Rect>, ghost before: seq<Candidate>)
    returns (classIds': seq<int>, confidences': seq<real>, boxes': seq<Rect>)
    requires |row| > FirstClass && c.level < |Strides|
    requires Unzipped(classIds, confidences, boxes, before)
    ensures Unzipped(classIds', confidences', boxes', before + Emitted(row, c, exp))
  {
    var boxScore := row[4];
    var classIdx := ArgMax(row[FirstClass..]);
    var clsScore := row[FirstClass + classIdx];
    var boxProb := boxScore * clsScore;
    EmitStep(classIds, confidences, boxes, before, row, c, exp, classIdx, boxProb);
    classIds', confidences', boxes' := classIds, confidences, boxes;
    if boxProb > ProbThreshold {
      var g := DecodeBox(row, c.level, c.i, c.j, exp);
      classIds' := classIds' + [classIdx];
      confidences' := confidences' + [boxProb];
      boxes' := boxes' + [ToRect(g)];
    }
  }

  /** What `NMSBoxes` guarantees of its result: indices into the candidate vectors. */
  ghost predicate SelectsIndices(nms: (seq<Rect>, seq<real>) -> seq<int>)
  {
    forall boxes, confidences, k ::
      0 <= k < |nms(boxes, confidences)| && |boxes| == |confidences| ==>
        0 <= nms(boxes, confidences)[k] < |confidences|
  }

  class YoloxNet {
    const width: int
    const height: int
    var scale: real

    ghost predicate Valid()
      reads this
    {
      0 < width && 0 < height && 0.0 < scale
    }

    /** The network is built for a `width` x `height` canvas; `scale` starts at 1. */
    constructor (width: int, height: int)
      requires 0 < width && 0 < height
      ensures Valid() && this.width == width && this.height == height && scale == 1.0
    {
      this.width := width;
      this.height := height;
      scale := 1.0;
    }

    /** Letterbox: records the scale and returns a `height` x `width` x 3 canvas
        holding the resized source (`resized`, the interpolation's output) in its
        top-left `upW` x `upH` corner and the fill grey everywhere else. The
        pixels of `resized` are taken as already converted to RGB floats, so
        that channel `c` of the canvas is the one `Normalize` treats as channel `c`. */
    method ResizeImage(rows: int, cols: int, resized: (int, int, int) -> real) returns (canvas: array3<real>)
      requires Valid() && 0 < rows && 0 < cols
      modifies this`scale
      ensures Valid()
      ensures scale == Scale(width, height, cols, rows)
      ensures fresh(canvas)
      ensures canvas.Length0 == height && canvas.Length1 == width && canvas.Length2 == Channels
      ensures forall r, c, ch :: 0 <= r < height && 0 <= c < width && 0 <= ch < Channels ==>
                canvas[r, c, ch] == if r < ScaledSize(width, height, cols, rows).h && c < ScaledSize(width, height, cols, rows).w
                                    then resized(r, c, ch) else Fill
    {
      scale := Scale(width, height, cols, rows);
      var size := ScaledSize(width, height, cols, rows);
      var upW, upH := size.w, size.h;
      canvas := new real[height, width, Channels]((r, c, ch) => Fill);
      forall r, c, ch | 0 <= r < upH && 0 <= c < upW && 0 <= ch < Channels {
        canvas[r, c, ch] := resized(r, c, ch);
      }
    }

    /** Per-pixel normalisation in place: every channel value of every pixel
        becomes `NormalizeValue` of its old value, with its own channel's statistics. */
    method Normalize(img: array3<real>)
      requires img.Length2 == Channels
      modifies img
      ensures forall x, y, c :: 0 <= x < img.Length0 && 0 <= y < img.Length1 && 0 <= c < Channels ==>
                img[x, y, c] == NormalizeValue(old(img[x, y, c]), c)
    {
      for x := 0 to img.Length0
        invariant forall x', y', c :: 0 <= x' < x && 0 <= y' < img.Length1 && 0 <= c < Channels ==>
                    img[x', y', c] == NormalizeValue(old(img[x', y', c]), c)
        invariant forall x', y', c :: x <= x' < img.Length0 && 0 <= y' < img.Length1 && 0 <= c < Channels ==>
                    img[x', y', c] == old(img[x', y', c])
      {
        for y := 0 to img.Length1
          invariant forall x', y', c :: 0 <= x' < x && 0 <= y' < img.Length1 && 0 <= c < Channels ==>
                      img[x', y', c] == NormalizeValue(old(img[x', y', c]), c)
          invariant forall y', c :: 0 <= y' < y && 0 <= c < Channels ==>
                      img[x, y', c] == NormalizeValue(old(img[x, y', c]), c)
          invariant forall x', y', c :: ((x < x' < img.Length0 && 0 <= y' < img.Length1) || (x' == x && y <= y' < img.Length1)) && 0 <= c < Channels ==>
                      img[x', y', c] == old(img[x', y', c])
        {
          var v0, v1, v2 := img[x, y, 0], img[x, y, 1], img[x, y, 2];
          img[x, y, 0] := NormalizeValue(v0, 0);
          img[x, y, 1] := NormalizeValue(v1, 1);
          img[x, y, 2] := NormalizeValue(v2, 2);
        }
      }
    }

    /** The grid-decoding loops of a detection call: walks the three stride
        blocks, reads one output row per cell, and appends to the three parallel
        vectors what that cell emits. `rowInd` ends at the number of cells. */
    method DecodeGrid(out: seq<seq<real>>, exp: real -> real)
      returns (classIds: seq<int>, confidences: seq<real>, boxes: seq<Rect>, rowInd: nat)
      requires Valid()
      requires WideRows(out, TotalCells(width, height))
      ensures rowInd == TotalCells(width, height)
      ensures Unzipped(classIds, confidences, boxes, DecodeRows(out, Traversal(width, height), exp))
    {
      ghost var cells := Traversal(width, height);
      TraversalLayout(width, height);
      classIds, confidences, boxes := [], [], [];
      rowInd := 0;
      for n := 0 to |Strides|
        invariant rowInd == Offset(width, height, n) <= |cells|
        invariant Unzipped(classIds, confidences, boxes, Decoded(out, cells, rowInd, exp))
      {
        OffsetMonotone(width, height, n + 1, |Strides|);
        classIds, confidences, boxes, rowInd := DecodeLevel(out, exp, cells, n, classIds, confidences, boxes, rowInd);
      }
      assert cells[..rowInd] == cells;
    }

    /** The loop over `i` for stride block `n`. */
    method DecodeLevel(out: seq<seq<real>>, exp: real -> real, ghost cells: seq<Cell>, n: nat,
                       classIds: seq<int>, confidences: seq<real>, boxes: seq<Rect>, rowInd: nat)
      returns (classIds': seq<int>, confidences': seq<real>, boxes': seq<Rect>, rowInd': nat)
      requires Valid() && n < |Strides| && Layout(width, height, cells) && WideRows(out, |cells|)
      requires rowInd == Offset(width, height, n) && Offset(width, height, n + 1) <= |cells|
      requires Unzipped(classIds, confidences, boxes, Decoded(out, cells, rowInd, exp))
      ensures rowInd' == Offset(width, height, n + 1)
      ensures Unzipped(classIds', confidences', boxes', Decoded(out, cells, rowInd', exp))
    {
      var numGridX := GridX(width, n);
      var numGridY := GridY(height, n);
      classIds', confidences', boxes', rowInd' := classIds, confidences, boxes, rowInd;
      for i := 0 to numGridX
        invariant rowInd' == rowInd + Rows(i, numGridY) <= |cells|
        invariant Unzipped(classIds', confidences', boxes', Decoded(out, cells, rowInd', exp))
      {
        RowsMonotone(i + 1, numGridX, numGridY);
        classIds', confidences', boxes', rowInd' := DecodeSweep(out, exp, cells, n, i, classIds', confidences', boxes', rowInd');
      }
    }

    /** The loop over `j` for stride block `n` and outer index `i`. */
    method DecodeSweep(out: seq<seq<real>>, exp: real -> real, ghost cells: seq<Cell>, n: nat, i: nat,
                       classIds: seq<int>, confidences: seq<real>, boxes: seq<Rect>, rowInd: nat)
      returns (classIds': seq<int>, confidences': seq<real>, boxes': seq<Rect>, rowInd': nat)
      requires Valid() && n < |Strides| && i < GridX(width, n) && Layout(width, height, cells) && WideRows(out, |cells|)
      requires rowInd == Offset(width, height, n) + Rows(i, GridY(height, n))
      requires rowInd + GridY(height, n) <= |cells|
      requires Unzipped(classIds, confidences, boxes, Decoded(out, cells, rowInd, exp))
      ensures rowInd' == rowInd + GridY(height, n)
      ensures Unzipped(classIds', confidences', boxes', Decoded(out, cells, rowInd', exp))
    {
      var numGridY := GridY(height, n);
      classIds', confidences', boxes', rowInd' := classIds, confidences, boxes, rowInd;
      for j := 0 to numGridY
        invariant rowInd' == rowInd + j
        invariant Unzipped(classIds', confidences', boxes', Decoded(out, cells, rowInd', exp))
      {
        classIds', confidences', boxes' := DecodeRow(out, exp, cells, Cell(n, i, j), rowInd', classIds', confidences', boxes');
        rowInd' := rowInd' + 1;
      }
    }

    /** One pass of the inner loop: row `rowInd` of the output decoded as cell `c`. */
    method DecodeRow(out: seq<seq<real>>, exp: real -> real, ghost cells: seq<Cell>, c: Cell, rowInd: nat,
                     classIds: seq<int>, confidences: seq<real>, boxes: seq<Rect>)
      returns (classIds': seq<int>, confidences': seq<real>, boxes': seq<Rect>)
      requires Valid() && Layout(width, height, cells) && WideRows(out, |cells|)
      requires InGrid(width, height, c) && rowInd == RowOf(width, height, c)
      requires Unzipped(classIds, confidences, boxes, Decoded(out, cells, rowInd, exp))
      ensures rowInd < |cells|
      ensures Unzipped(classIds', confidences', boxes', Decoded(out, cells, rowInd + 1, exp))
    {
      CellStep(width, height, out, cells, c, rowInd, exp);
      classIds', confidences', boxes' := DecodeCell(out[rowInd], c, exp, classIds, confidences, boxes, Decoded(out, cells, rowInd, exp));
    }

    /** The remap loop: for each index kept by suppression, the class, the score
        and the box divided by the recorded scale and clipped to the source image. */
    method RemapAndClip(classIds: seq<int>, confidences: seq<real>, boxes: seq<Rect>, indices: seq<int>, rows: int, cols: int)
      returns (dets: seq<Detection>)
      requires Valid() && 0 < rows && 0 < cols
      requires |classIds| == |boxes| && |confidences| == |boxes|
      requires forall k :: 0 <= k < |indices| ==> 0 <= indices[k] < |boxes|
      ensures |dets| == |indices|
      ensures forall k :: 0 <= k < |indices| ==>
                dets[k] == Detection(classIds[indices[k]], confidences[indices[k]], RemapBox(boxes[indices[k]], scale, cols, rows))
    {
      dets := [];
      for i := 0 to |indices|
        invariant |dets| == i
        invariant forall k :: 0 <= k < i ==>
                    dets[k] == Detection(classIds[indices[k]], confidences[indices[k]], RemapBox(boxes[indices[k]], scale, cols, rows))
      {
        var idx := indices[i];
        var box := boxes[idx];
        var x0 := box.x as real / scale;
        var y0 := box.y as real / scale;
        var x1 := (box.x + box.width) as real / scale;
        var y1 := (box.y + box.height) as real / scale;
        x0 := Clamp(x0, (cols - 1) as real);
        y0 := Clamp(y0, (rows - 1) as real);
        x1 := Clamp(x1, (cols - 1) as real);
        y1 := Clamp(y1, (rows - 1) as real);
        dets := dets + [Detection(classIds[idx], confidences[idx], Corners(x0, y0, x1, y1))];
      }
    }

    /** One detection call on a `rows` x `cols` source: letterbox, normalise,
        decode the network's output `out`, suppress with `nms`, remap and clip. */
    method Detect(rows: int, cols: int, resized: (int, int, int) -> real, out: seq<seq<real>>,
                  exp: real -> real, nms: (seq<Rect>, seq<real>) -> seq<int>)
      returns (dets: seq<Detection>)
      requires Valid() && 0 < rows && 0 < cols
      requires WideRows(out, TotalCells(width, height))
      requires SelectsIndices(nms)
      modifies this`scale
      ensures Valid() && scale == Scale(width, height, cols, rows)
      ensures var cands := DecodeRows(out, Traversal(width, height), exp);
              var keep := nms(seq(|cands|, m requires 0 <= m < |cands| => cands[m].box),
                              seq(|cands|, m requires 0 <= m < |cands| => cands[m].confidence));
        && |dets| == |keep|
        && forall k :: 0 <= k < |keep| ==>
             && 0 <= keep[k] < |cands|
             && dets[k] == Detection(cands[keep[k]].classId, cands[keep[k]].confidence,
                                     RemapBox(cands[keep[k]].box, scale, cols, rows))
    {
      var canvas := ResizeImage(rows, cols, resized);
      Normalize(canvas);
      var classIds, confidences, boxes, _ := DecodeGrid(out, exp);
      ghost var cands := DecodeRows(out, Traversal(width, height), exp);
      assert boxes == seq(|cands|, m requires 0 <= m < |cands| => cands[m].box);
      assert confidences == seq(|cands|, m requires 0 <= m < |cands| => cands[m].confidence);
      var indices := nms(boxes, confidences);
      dets := RemapAndClip(classIds, confidences, boxes, indices, rows, cols);
    }
  }
}
