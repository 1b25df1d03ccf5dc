# YOLOX detection post-processing, modelled in Dafny

This project models the detection pipeline of `YoloxNet`, a single-image YOLOX
object detector built on OpenCV's DNN module. It covers:

- the letterbox resize that fits the source image into the network canvas and
  records the scale;
- the per-pixel normalisation of the canvas;
- the decoding of the network's three stride blocks (8, 16, 32) into class,
  score and box triples above the score threshold;
- the mapping of the boxes that survive non-maximum suppression back to the
  source image, clipped to its bounds.

Modules, one per concern:

- `JavaNumerics`: Java's `(int)` cast (truncation toward zero) and `Math.min`/`Math.max` on reals.
- `Letterbox`: the scale and the truncated scaled size.
- `Normalization`: the per-channel ImageNet mean and standard deviation.
- `Grid`: the stride table, the order in which the decoder walks the cells, and the row each cell is read from.
- `Decoder`: arg-max over class scores, the confidence, the threshold, the box of one cell, and `DecodeRows`, the specification of the whole decoding loop.
- `Remap`: division by the scale and clipping.
- `Detector`: the class `YoloxNet`. Its fields are `width`, `height` and the `scale` that a resize records. Its methods are the imperative parts of the source: the resize, the in-place normalisation over an `array3`, the nested decoding loops, the remap loop and a whole detection call.

The decoding loops are proved against `DecodeRows`. The lemmas about
`DecodeRows` then state what the candidate vectors hold:

- exactly the rows whose score clears the threshold;
- each decoded as the grid cell it was read for;
- in traversal order, so stride 8 comes before 16, and 16 before 32.

The grid lemmas show that the traversal reads every cell of the three blocks
exactly once, at row `RowOf(c)`.

Numbers are Dafny `real`s. `Math.pow(e, t)` is a function parameter that is
assumed strictly positive. The network's output is a sequence of rows, each
with at least six columns: four box values, the objectness and one class score
or more. The interpolating `resize` and `NMSBoxes` are parameters too; only the
promise that NMS returns indices into its input is used.

The decoder is modelled as written, with its index pairing kept:

- the outer index `i` runs over `width / stride` and moves the y centre;
- the inner index `j` runs over `height / stride` and moves the x centre.

`CentreBounds` shows the consequence: with offsets in `[0, 1)` the x centre is
bounded by the canvas height and the y centre by the canvas width. On a square
canvas both centres therefore lie inside it. `NonSquareCentreOutside` shows a
16 x 8 canvas where a decoded y centre reaches the canvas height.

Two properties of the letterbox as the code computes it:

- The scale `min(width / cols, height / rows)` is not capped at 1: a source
  smaller than the canvas is enlarged (`Letterbox.ScaleShrinks` states exactly
  when the scale is at most 1).
- Over exact reals at least one scaled side equals the canvas side, and both do
  when the aspect ratios match (`Letterbox.ScaledSize`). In double arithmetic
  the truncation can land one pixel short on the constrained axis (see
  "## Left out").

## Model

| member | source | states |
|---|---|---|
| JavaNumerics.Trunc | src/main/java/com/example/yolox/utils/YoloxNet.java:62-63 | Java's `(int)` cast of a double truncates toward zero: for `x >= 0` the result is the largest integer not above `x`, for `x < 0` the smallest not below it |
| JavaNumerics.Min | src/main/java/com/example/yolox/utils/YoloxNet.java:61 | `Math.min` returns one of its arguments and is below both |
| JavaNumerics.Max | src/main/java/com/example/yolox/utils/YoloxNet.java:189-192 | `Math.max` returns one of its arguments and is above both |
| Letterbox.Scale | src/main/java/com/example/yolox/utils/YoloxNet.java:61 | the letterbox scale is positive, fits the source inside the canvas on both axes, and makes one axis fill the canvas exactly |
| Letterbox.ScaledSize | src/main/java/com/example/yolox/utils/YoloxNet.java:61-63 | `upW`/`upH` are the truncated scaled sides: within `[0, width]`/`[0, height]`, each within one pixel below the exact scaled length, and, over exact reals, at least one equal to the canvas side |
| Letterbox.ScaleShrinks | src/main/java/com/example/yolox/utils/YoloxNet.java:61 | the scale is at most 1 exactly when the source is at least as wide or at least as tall as the canvas |
| Normalization.NormalizeValue | src/main/java/com/example/yolox/utils/YoloxNet.java:93-95 | an 8-bit intensity of channel `c` normalises into that channel's range `[Lowest(c), Highest(c)]` |
| Normalization.Denormalize | src/main/java/com/example/yolox/utils/YoloxNet.java:93-95 | the inverse transform: normalising its result gives back the normalised value |
| Normalization.NormalizeRoundTrip | src/main/java/com/example/yolox/utils/YoloxNet.java:93-95 | normalisation is lossless: denormalising a normalised value gives the original intensity |
| Normalization.NormalizeMonotone | src/main/java/com/example/yolox/utils/YoloxNet.java:93-95 | normalisation is strictly increasing, so it keeps the order of intensities |
| Grid.Sweep | src/main/java/com/example/yolox/utils/YoloxNet.java:136 | the inner loop visits `(level, i, 0)`, ..., `(level, i, gy - 1)` in order |
| Grid.GridX | src/main/java/com/example/yolox/utils/YoloxNet.java:132 | definition of `numGridX = width / stride[n]`, the range of the outer index `i`; `GridDivision` proves it is that division |
| Grid.GridY | src/main/java/com/example/yolox/utils/YoloxNet.java:133 | definition of `numGridY = height / stride[n]`, the range of the inner index `j`; `GridDivision` proves it is that division |
| Grid.Rows | src/main/java/com/example/yolox/utils/YoloxNet.java:134-136 | definition: the rows that `gx` full sweeps of `gy` rows advance `rowInd` by; `RowsProduct` proves it is `gx * gy` |
| Grid.Block | src/main/java/com/example/yolox/utils/YoloxNet.java:134-136 | a stride block has `gx * gy` cells (counted sweep by sweep), all on that block's level with `i < gx` and `j < gy` |
| Grid.Shape | src/main/java/com/example/yolox/utils/YoloxNet.java:131-133 | the three block extents are `width / stride` by `height / stride` for each stride of the table |
| Grid.GridDivision | src/main/java/com/example/yolox/utils/YoloxNet.java:132-133 | `numGridX` and `numGridY` are the canvas sides divided by the level's stride |
| Grid.Walk | src/main/java/com/example/yolox/utils/YoloxNet.java:131-136 | the first `n` blocks walked in order have `Start(n)` cells, all on levels below `n` |
| Grid.Traversal | src/main/java/com/example/yolox/utils/YoloxNet.java:131-136 | the decoder visits `TotalCells` cells, each on one of the three stride blocks |
| Grid.Offset | src/main/java/com/example/yolox/utils/YoloxNet.java:125-163 | definition: the value of `rowInd` when stride block `level` starts; `OffsetIsStart`, `OffsetMonotone` and `TraversalIndex` state its properties |
| Grid.TotalCells | src/main/java/com/example/yolox/utils/YoloxNet.java:125-166 | definition: the value of `rowInd` after the three loops; `TotalCellsClosedForm` gives it in closed form and `DecodeGrid` ends with it |
| Grid.RowOf | src/main/java/com/example/yolox/utils/YoloxNet.java:125-163 | definition: the value of `rowInd` when the loops reach cell `c`; `GridCoverage` proves it a bijection onto the rows read and `RowOfClosedForm` gives it in closed form |
| Grid.RowsProduct | src/main/java/com/example/yolox/utils/YoloxNet.java:134-136 | `gx` sweeps of `gy` rows read `gx * gy` rows |
| Grid.RowsMonotone | src/main/java/com/example/yolox/utils/YoloxNet.java:134-136 | more outer iterations read at least as many rows |
| Grid.BlockAt | src/main/java/com/example/yolox/utils/YoloxNet.java:134-136 | cell `(i, j)` of a block is visited at position `Rows(i, gy) + j` of the block, which `RowsProduct` equates with `i * gy + j` |
| Grid.BlockIndex | src/main/java/com/example/yolox/utils/YoloxNet.java:134-136 | conversely, the cell at position `k` of a block has `Rows(i, gy) + j == k` |
| Grid.StartMonotone | src/main/java/com/example/yolox/utils/YoloxNet.java:131 | a later block never starts at an earlier row (empty blocks share their start row) |
| Grid.OffsetIsStart | src/main/java/com/example/yolox/utils/YoloxNet.java:131-133 | the row offset of each stride block is the start of that block in the walk over the canvas's extents |
| Grid.OffsetMonotone | src/main/java/com/example/yolox/utils/YoloxNet.java:131 | stride-block offsets never decrease |
| Grid.WalkAt | src/main/java/com/example/yolox/utils/YoloxNet.java:131-136 | every cell of the walked blocks is visited at its position |
| Grid.WalkIndex | src/main/java/com/example/yolox/utils/YoloxNet.java:131-136 | every position of the walk holds the cell whose position it is, from the block whose rows contain it |
| Grid.TraversalAt | src/main/java/com/example/yolox/utils/YoloxNet.java:125-163 | every grid cell is read at row `RowOf(c)`, below the number of rows read |
| Grid.TraversalLayout | src/main/java/com/example/yolox/utils/YoloxNet.java:125-163 | the traversal has one entry per row read, each on a stride block, and holds cell `c` at row `RowOf(c)` |
| Grid.TraversalIndex | src/main/java/com/example/yolox/utils/YoloxNet.java:125-163 | row `k` is read for a grid cell whose `RowOf` is `k`, within its block's rows |
| Grid.GridCoverage | src/main/java/com/example/yolox/utils/YoloxNet.java:125-163 | `RowOf` is a bijection from the grid cells onto the rows read: no row skipped, none read twice |
| Grid.TraversalOrdered | src/main/java/com/example/yolox/utils/YoloxNet.java:131-136 | rows are read block by block: a later row never belongs to a smaller stride |
| Grid.TotalCellsClosedForm | src/main/java/com/example/yolox/utils/YoloxNet.java:131-136 | the loops read `(w/8)(h/8) + (w/16)(h/16) + (w/32)(h/32)` rows in all |
| Grid.RowOfClosedForm | src/main/java/com/example/yolox/utils/YoloxNet.java:131-163 | cell `(i, j)` of a block is read at that block's offset plus `i * numGridY + j` |
| Decoder.ArgMax | src/main/java/com/example/yolox/utils/YoloxNet.java:140-147 | `minMaxLoc` gives the position of a maximal score, the first one when scores tie |
| Decoder.ClassIndex | src/main/java/com/example/yolox/utils/YoloxNet.java:147-148 | the class column `5 + classIdx` lies within the row |
| Decoder.ClassIndexBest | src/main/java/com/example/yolox/utils/YoloxNet.java:140-148 | the chosen class scores at least as high as every class of the row and strictly higher than every class before it |
| Decoder.Confidence | src/main/java/com/example/yolox/utils/YoloxNet.java:138-149 | definition of `boxProb = boxScore * clsScore` with the best class; `ScoreIsConfidence` proves the loop computes it |
| Decoder.Emits | src/main/java/com/example/yolox/utils/YoloxNet.java:150 | definition of the strict test `boxProb > probThreshold` with threshold 0.5; `Kept` and `KeptComplete` state that exactly the rows passing it are kept |
| Decoder.AtStrideIs | src/main/java/com/example/yolox/utils/YoloxNet.java:152-155 | the per-level product is the value times the level's stride |
| Decoder.DecodeBox | src/main/java/com/example/yolox/utils/YoloxNet.java:152-157 | definition of the centre, size and corner formulas, with `j` moving the x centre and `i` the y centre; `BoxDecode`, `CentreBounds` and `NonSquareCentreOutside` state its properties |
| Decoder.ToRect | src/main/java/com/example/yolox/utils/YoloxNet.java:161 | definition of `new Rect((int) x0, (int) y0, (int) w, (int) h)`; the bounds of each cast are the ensures of `JavaNumerics.Trunc` |
| Decoder.CandidateAt | src/main/java/com/example/yolox/utils/YoloxNet.java:159-161 | definition of the class, score and box that one passing row pushes; `EmitStep` proves the three `push_back` calls append exactly these |
| Decoder.Emitted | src/main/java/com/example/yolox/utils/YoloxNet.java:150-162 | definition: one candidate for a passing row, none otherwise; `EmitStep` and `DecodeCell` prove the loop body appends exactly this |
| Decoder.Kept | src/main/java/com/example/yolox/utils/YoloxNet.java:149-150 | the kept rows are strictly increasing and each has a score above the threshold |
| Decoder.KeptComplete | src/main/java/com/example/yolox/utils/YoloxNet.java:149-150 | every row whose score clears the threshold is kept |
| Decoder.DecodeRows | src/main/java/com/example/yolox/utils/YoloxNet.java:131-163 | decoding emits at most one candidate per row read |
| Decoder.DecodeRowsExtend | src/main/java/com/example/yolox/utils/YoloxNet.java:136-163 | decoding one more row appends exactly what that row emits |
| Decoder.DecodeRowsCount | src/main/java/com/example/yolox/utils/YoloxNet.java:150-162 | the number of candidates is the number of rows above the threshold |
| Decoder.DecodeRowsAt | src/main/java/com/example/yolox/utils/YoloxNet.java:138-162 | candidate `m` is the decoding of the `m`-th kept row, read as its own cell |
| Decoder.DecodeRowsOrigin | src/main/java/com/example/yolox/utils/YoloxNet.java:138-162 | the candidates correspond one-to-one, in order, to the kept rows, each decoded as its own cell |
| Decoder.CellSpan | src/main/java/com/example/yolox/utils/YoloxNet.java:152-153 | an offset in `[0, 1)` plus a cell index, times the stride, lands inside that cell's span |
| Decoder.BoxDecode | src/main/java/com/example/yolox/utils/YoloxNet.java:152-157 | the box has positive size `exp(log size) * stride`, its corner is the centre minus half the size, and offsets in `[0, 1)` put the x centre in column `j` and the y centre in row `i` |
| Decoder.CentreBounds | src/main/java/com/example/yolox/utils/YoloxNet.java:131-153 | with offsets in `[0, 1)` the x centre lies in `[0, height)` and the y centre in `[0, width)`, as the index pairing is written |
| Decoder.NonSquareCentreOutside | src/main/java/com/example/yolox/utils/YoloxNet.java:132-153 | on a 16 x 8 canvas the stride-8 cell with `i = 1` gets a y centre at or past the canvas height |
| Decoder.DecodedCandidates | src/main/java/com/example/yolox/utils/YoloxNet.java:125-166 | the candidates of a whole traversal: one per row above the threshold (both directions), each decoded as the grid cell its row was read for, with a confidence above the threshold, stride blocks in order |
| Remap.Clamp | src/main/java/com/example/yolox/utils/YoloxNet.java:189-192 | clipping puts a value in `[0, hi]`, keeps values already inside, and maps values outside to the nearer bound |
| Remap.ClampIdempotent | src/main/java/com/example/yolox/utils/YoloxNet.java:189-192 | clipping twice is clipping once |
| Remap.ClampMonotone | src/main/java/com/example/yolox/utils/YoloxNet.java:189-192 | clipping keeps the order of coordinates |
| Remap.RemapBox | src/main/java/com/example/yolox/utils/YoloxNet.java:183-192 | remapped corners lie inside the source image: x in `[0, cols - 1]`, y in `[0, rows - 1]` |
| Remap.DivideMonotone | src/main/java/com/example/yolox/utils/YoloxNet.java:183-186 | dividing by the positive scale keeps the order of coordinates |
| Remap.RemapKeepsOrder | src/main/java/com/example/yolox/utils/YoloxNet.java:183-192 | a box of non-negative size keeps its corners in order after remapping |
| Remap.RemapIdentity | src/main/java/com/example/yolox/utils/YoloxNet.java:183-192 | with scale 1 a box inside the image is returned unchanged |
| Remap.UnscaleTrunc | src/main/java/com/example/yolox/utils/YoloxNet.java:161-184 | a truncated scaled coordinate of `p >= 0`, divided by the scale again, is non-negative and lies in `(p - 1 / scale, p]` |
| Remap.RemapInvertsScale | src/main/java/com/example/yolox/utils/YoloxNet.java:161-190 | remapping undoes the letterbox up to truncation: for a box whose corner is `(int)` of a source point `(px, py)` inside the image times the scale, the remapped corner lies in `(px - 1 / scale, px]` by `(py - 1 / scale, py]` |
| Remap.ClipBoundary | src/main/java/com/example/yolox/utils/YoloxNet.java:185-191 | a right edge past the image is clipped exactly to `cols - 1` |
| Detector.UnzippedSnoc | src/main/java/com/example/yolox/utils/YoloxNet.java:159-161 | pushing a candidate's class, score and box onto the three vectors keeps them parallel to the candidate list |
| Detector.Unzipped | src/main/java/com/example/yolox/utils/YoloxNet.java:114-116 | definition: the vectors `classIds`, `confidences` and `boxes` hold, entry by entry, the fields of a candidate list; `UnzippedSnoc` and `DecodeGrid` state what they hold |
| Detector.SelectsIndices | src/main/java/com/example/yolox/utils/YoloxNet.java:172-180 | definition of what `NMSBoxes` is relied on for: every index it returns is an index into the candidate vectors, which `Detect` needs for `boxes.get(idx)` |
| Detector.ScoreIsConfidence | src/main/java/com/example/yolox/utils/YoloxNet.java:138-149 | the loop's `classIdx` and `boxProb` are the row's best class and confidence |
| Detector.EmitStep | src/main/java/com/example/yolox/utils/YoloxNet.java:150-162 | a score above the threshold pushes the class, score and box; any other score pushes nothing |
| Detector.CellStep | src/main/java/com/example/yolox/utils/YoloxNet.java:136-163 | the row read for a grid cell is in range, and decoding it appends what that cell emits |
| Detector.DecodeCell | src/main/java/com/example/yolox/utils/YoloxNet.java:138-162 | the body of the inner loop appends to the three vectors exactly what the row emits |
| Detector.YoloxNet.constructor | src/main/java/com/example/yolox/utils/YoloxNet.java:24-44 | a detector for a positive canvas starts with scale 1 |
| Detector.YoloxNet.ResizeImage | src/main/java/com/example/yolox/utils/YoloxNet.java:59-79 | records the letterbox scale and returns a `height` x `width` x 3 canvas holding the resized source in the top-left `upW` x `upH` corner and grey 144 elsewhere |
| Detector.YoloxNet.Normalize | src/main/java/com/example/yolox/utils/YoloxNet.java:88-98 | every channel of every pixel is replaced, in place, by its normalised value with its own channel's statistics |
| Detector.YoloxNet.DecodeGrid | src/main/java/com/example/yolox/utils/YoloxNet.java:125-166 | the three nested loops end with `rowInd` equal to the number of cells, and fill the three vectors with exactly the candidates `DecodeRows` specifies for the traversal |
| Detector.YoloxNet.DecodeLevel | src/main/java/com/example/yolox/utils/YoloxNet.java:131-166 | the loop over `i` for one stride block advances `rowInd` from that block's offset to the next block's and decodes every row in between |
| Detector.YoloxNet.DecodeSweep | src/main/java/com/example/yolox/utils/YoloxNet.java:134-165 | the loop over `j` reads `numGridY` consecutive rows and decodes each |
| Detector.YoloxNet.DecodeRow | src/main/java/com/example/yolox/utils/YoloxNet.java:136-164 | one pass of the inner loop decodes the row read for its cell |
| Detector.YoloxNet.RemapAndClip | src/main/java/com/example/yolox/utils/YoloxNet.java:179-192 | one detection per NMS index, carrying that candidate's class, score and remapped, clipped box, in index order |
| Detector.YoloxNet.Detect | src/main/java/com/example/yolox/utils/YoloxNet.java:101-192 | a detection call records the scale, and returns one detection per index NMS keeps, each the remapped candidate at that index of the decoded candidates |

## Left out

- Colour conversion (`cvtColor` from BGR to RGB) and `convertTo` float: the `resized` pixels given to `ResizeImage` stand for the pixels after that conversion, so channel 0 of the canvas is red, and `Normalize` starts from the RGB float canvas.
- The interpolation of `resize`: the resized pixels are a parameter of `ResizeImage`.
- `Math.pow(e, t)` is a parameter, assumed only to be strictly positive.
- Floating point: all arithmetic is on exact reals. This leaves out float rounding, the `(float)` casts, NaN and signed zeros.
- JavaNumerics.Trunc: does not model the saturation of `(int)` at the 32-bit bounds.
- Letterbox.ScaledSize: its fill property (one scaled side equals the canvas side) holds over exact reals only; in doubles `scale * cols` can fall just below the canvas side (a 77 x 77 source on a 640 x 640 canvas), so the truncation lands one pixel short.
- Remap.RemapBox and Detector.YoloxNet.RemapAndClip: `box.x + box.width` and `box.y + box.height` are added as unbounded integers; Java's 32-bit `int` addition, which wraps on overflow, is not modelled.
- Concurrency is not modelled: `scale` is a field of the one detector that all callers share, written by the resize and read by the remap, and `Detect` is modelled as one call at a time, so remapping with the scale of another call's image is not captured.
- Decoder.ArgMax: assumes `minMaxLoc` returns the first maximum in column order when several class scores tie.
- Grid.GridX, Grid.GridY and Decoder.AtStride: these write the per-level division and multiplication by the stride with the constant literally. `GridDivision` and `AtStrideIs` equate them with the stride-table form of the source.
- The decoding loops are split into `DecodeLevel`, `DecodeSweep` and `DecodeRow`, one method per loop level, so that each loop carries its own invariant.
- `NMSBoxes` internals (IoU, the 0.4 threshold, tie-breaking) are not modelled. `Detect` takes NMS as a parameter and relies only on its result being indices into the candidate vectors.
- Network loading and inference are not modelled: `readNet`, `blobFromImage`, `setInput`, `forward`, and the `reshape` of a 3-D output. The output rows are an input to `Detect`.
- Detector.YoloxNet.ResizeImage: a very elongated source can make `upW` or `upH` truncate to 0 (a 1 x 1000 source on a 640 x 640 canvas gives `upW == 0`); OpenCV's `resize` then rejects the empty target size and `detect` throws, while the model returns an all-grey canvas.
- Drawing is not modelled: the rectangles, the label text, its formatting with class names, and the label-height adjustment of `y0`.
- The class-name file, resource `release` calls and exceptions are not modelled.
- `YoloxController.java` and `YoloxTest.java` are not part of this model.
