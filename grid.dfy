/** The multi-stride grid that the detection head's output rows are laid out on,
    in the order the decoder walks it: stride 8, then 16, then 32; within a
    stride, `i` over `width / s` outside and `j` over `height / s` inside. */
module Grid {

  const Strides: seq<int> := [8, 16, 32]

  /** One grid cell: the stride block (an index into `Strides`) and the two loop indices. */
  datatype Cell = Cell(level: nat, i: nat, j: nat)

  /** `numGridX = width / stride[n]`: the range of the outer index `i`. The
      divisor is written out per level so that the division stays by a constant. */
  function GridX(width: nat, level: nat): nat
    requires level < |Strides|
  {
    if level == 0 then width / 8 else if level == 1 then width / 16 else width / 32
  }

  /** `numGridY = height / stride[n]`: the range of the inner index `j`. */
  function GridY(height: nat, level: nat): nat
    requires level < |Strides|
  {
    if level == 0 then height / 8 else if level == 1 then height / 16 else height / 32
  }

  /** Both grid extents are the canvas side divided by the level's stride. */
  lemma GridDivision(width: nat, height: nat, level: nat)
    requires level < |Strides|
    ensures GridX(width, level) == width / Strides[level]
    ensures GridY(height, level) == height / Strides[level]
  {
  }

  /** Rows read by `gx` sweeps of `gy` cells each, counted sweep by sweep. */
  function Rows(gx: nat, gy: nat): (r: nat)
  {
    if gx == 0 then 0 else Rows(gx - 1, gy) + gy
  }

  /** The extent of one stride block: `gx` values of the outer index `i` and
      `gy` values of the inner index `j`. */
  datatype Extent = Extent(gx: nat, gy: nat)

  /** The extents of the three stride blocks of a `width` x `height` canvas:
      `GridX` and `GridY` collected per level, as a list for the lemmas about walks. */
  function Shape(width: nat, height: nat): (d: seq<Extent>)
    ensures |d| == |Strides|
    ensures forall l :: 0 <= l < |d| ==> d[l] == Extent(GridX(width, l), GridY(height, l))
  {
    [Extent(width / 8, height / 8), Extent(width / 16, height / 16), Extent(width / 32, height / 32)]
  }

  /** Number of rows read before block `level` of `dims` starts. */
  function Start(dims: seq<Extent>, level: nat): nat
    requires level <= |dims|
  {
    if level == 0 then 0
    else Start(dims, level - 1) + Rows(dims[level - 1].gx, dims[level - 1].gy)
  }

  predicate Within(dims: seq<Extent>, c: Cell)
  {
    c.level < |dims| && c.i < dims[c.level].gx && c.j < dims[c.level].gy
  }

  /** The row read for cell `c` when the blocks of `dims` are walked in order. */
  function Position(dims: seq<Extent>, c: Cell): nat
    requires c.level < |dims|
  {
    Start(dims, c.level) + Rows(c.i, dims[c.level].gy) + c.j
  }

  /** The inner loop: `j` from 0 to `gy` for a fixed `i`. */
  function Sweep(level: nat, i: nat, gy: nat): (r: seq<Cell>)
    ensures |r| == gy
    ensures forall j :: 0 <= j < gy ==> r[j] == Cell(level, i, j)
  {
    seq(gy, (j: int) requires 0 <= j => Cell(level, i, j))
  }

  /** One stride block: `i` from 0 to `gx`, each followed by its inner sweep. */
  function Block(level: nat, gx: nat, gy: nat): (b: seq<Cell>)
    ensures |b| == Rows(gx, gy)
    ensures forall k :: 0 <= k < |b| ==> b[k].level == level && b[k].i < gx && b[k].j < gy
  {
    if gx == 0 then [] else Block(level, gx - 1, gy) + Sweep(level, gx - 1, gy)
  }

  /** The first `n` blocks of `dims`, one after the other. */
  function Walk(dims: seq<Extent>, n: nat): (t: seq<Cell>)
    requires n <= |dims|
    ensures |t| == Start(dims, n)
    ensures forall k :: 0 <= k < |t| ==> t[k].level < n
  {
    if n == 0 then []
    else Walk(dims, n - 1) + Block(n - 1, dims[n - 1].gx, dims[n - 1].gy)
  }

  /** Number of rows read before stride block `level` starts. This is `Start`
      over `Shape(width, height)` (`OffsetIsStart`), written on the canvas
      directly: the loops reason about this form, whose divisions are by
      constants, while the position lemmas are proved once over any list of
      extents. */
  function Offset(width: nat, height: nat, level: nat): nat
    requires level <= |Strides|
  {
    if level == 0 then 0
    else Offset(width, height, level - 1) + Rows(GridX(width, level - 1), GridY(height, level - 1))
  }

  /** Number of rows the decoder reads in all. */
  function TotalCells(width: nat, height: nat): nat
  {
    Offset(width, height, |Strides|)
  }

  predicate InGrid(width: nat, height: nat, c: Cell)
  {
    c.level < |Strides| && c.i < GridX(width, c.level) && c.j < GridY(height, c.level)
  }

  /** The row of the output that the decoder reads for cell `c`. */
  function RowOf(width: nat, height: nat, c: Cell): nat
    requires c.level < |Strides|
  {
    Offset(width, height, c.level) + Rows(c.i, GridY(height, c.level)) + c.j
  }

  /** The cells in the order the decoder visits them, one per output row. */
  function Traversal(width: nat, height: nat): (t: seq<Cell>)
    ensures |t| == TotalCells(width, height)
    ensures forall k :: 0 <= k < |t| ==> t[k].level < |Strides|
  {
    OffsetIsStart(width, height, |Strides|);
    Walk(Shape(width, height), |Strides|)
  }

  /** Counting sweep by sweep is multiplication. */
  lemma {:induction false} RowsProduct(gx: nat, gy: nat)
    ensures Rows(gx, gy) == gx * gy
  {
    if gx > 0 {
      RowsProduct(gx - 1, gy);
    }
  }

  lemma {:induction false} RowsMonotone(a: nat, b: nat, gy: nat)
    requires a <= b
    ensures Rows(a, gy) <= Rows(b, gy)
    decreases b
  {
    if a < b {
      RowsMonotone(a, b - 1, gy);
    }
  }

  /** Cell `(i, j)` of a block sits at position `Rows(i, gy) + j`. */
  lemma {:induction false} BlockAt(level: nat, gx: nat, gy: nat, i: nat, j: nat)
    requires i < gx && j < gy
    ensures Rows(i, gy) + j < Rows(gx, gy)
    ensures Block(level, gx, gy)[Rows(i, gy) + j] == Cell(level, i, j)
  {
    var prev := Block(level, gx - 1, gy);
    assert Block(level, gx, gy) == prev + Sweep(level, gx - 1, gy);
    if i < gx - 1 {
      BlockAt(level, gx - 1, gy, i, j);
    }
  }

  /** Conversely, position `k` of a block holds the cell `(i, j)` with `Rows(i, gy) + j == k`. */
  lemma {:induction false} BlockIndex(level: nat, gx: nat, gy: nat, k: nat)
    requires k < Rows(gx, gy)
    ensures Rows(Block(level, gx, gy)[k].i, gy) + Block(level, gx, gy)[k].j == k
  {
    var prev := Block(level, gx - 1, gy);
    assert Block(level, gx, gy) == prev + Sweep(level, gx - 1, gy);
    if k < |prev| {
      BlockIndex(level, gx - 1, gy, k);
    } else {
      assert Block(level, gx, gy)[k] == Cell(level, gx - 1, k - |prev|);
    }
  }

  lemma {:induction false} StartMonotone(dims: seq<Extent>, a: nat, b: nat)
    requires a <= b <= |dims|
    ensures Start(dims, a) <= Start(dims, b)
    decreases b
  {
    if a < b {
      StartMonotone(dims, a, b - 1);
    }
  }

  /** `Offset` is `Start` on the canvas's own extents. */
  lemma {:induction false} OffsetIsStart(width: nat, height: nat, level: nat)
    requires level <= |Strides|
    ensures Offset(width, height, level) == Start(Shape(width, height), level)
  {
    if level > 0 {
      OffsetIsStart(width, height, level - 1);
    }
  }

  lemma OffsetMonotone(width: nat, height: nat, a: nat, b: nat)
    requires a <= b <= |Strides|
    ensures Offset(width, height, a) <= Offset(width, height, b)
  {
    OffsetIsStart(width, height, a);
    OffsetIsStart(width, height, b);
    StartMonotone(Shape(width, height), a, b);
  }

  /** Every cell of the first `n` blocks is walked at its `Position`. */
  lemma {:induction false} WalkAt(dims: seq<Extent>, n: nat, c: Cell)
    requires n <= |dims| && Within(dims, c) && c.level < n
    ensures Position(dims, c) < Start(dims, n)
    ensures Walk(dims, n)[Position(dims, c)] == c
  {
    var prev := Walk(dims, n - 1);
    var e := dims[n - 1];
    assert Walk(dims, n) == prev + Block(n - 1, e.gx, e.gy);
    if c.level < n - 1 {
      WalkAt(dims, n - 1, c);
      StartMonotone(dims, c.level + 1, n - 1);
    } else {
      BlockAt(c.level, e.gx, e.gy, c.i, c.j);
    }
  }

  /** Position `k` of the walk holds the cell whose `Position` is `k`, from
      the block whose rows include `k`. */
  lemma {:induction false} WalkIndex(dims: seq<Extent>, n: nat, k: nat)
    requires n <= |dims| && k < Start(dims, n)
    ensures Within(dims, Walk(dims, n)[k]) && Position(dims, Walk(dims, n)[k]) == k
    ensures Start(dims, Walk(dims, n)[k].level) <= k < Start(dims, Walk(dims, n)[k].level + 1)
  {
    var prev := Walk(dims, n - 1);
    var e := dims[n - 1];
    assert Walk(dims, n) == prev + Block(n - 1, e.gx, e.gy);
    if k < Start(dims, n - 1) {
      WalkIndex(dims, n - 1, k);
      assert Walk(dims, n)[k] == prev[k];
    } else {
      BlockIndex(n - 1, e.gx, e.gy, k - |prev|);
      assert Walk(dims, n)[k] == Block(n - 1, e.gx, e.gy)[k - |prev|];
    }
  }

  /** Grid coverage, one direction: every cell of every stride block is read
      at row `RowOf(c)`, which lies within the rows read. */
  lemma TraversalAt(width: nat, height: nat, c: Cell)
    requires InGrid(width, height, c)
    ensures RowOf(width, height, c) < TotalCells(width, height)
    ensures Traversal(width, height)[RowOf(width, height, c)] == c
  {
    OffsetIsStart(width, height, c.level);
    OffsetIsStart(width, height, |Strides|);
    WalkAt(Shape(width, height), |Strides|, c);
  }

  /** `cells` lists the grid in the order the decoder reads it: one entry per
      row read, each on a stride block, and cell `c` at row `RowOf(c)`. */
  ghost predicate Layout(width: nat, height: nat, cells: seq<Cell>)
  {
    && |cells| == TotalCells(width, height)
    && (forall k :: 0 <= k < |cells| ==> cells[k].level < |Strides|)
    && (forall c :: InGrid(width, height, c) ==> RowOf(width, height, c) < |cells| && cells[RowOf(width, height, c)] == c)
  }

  lemma TraversalLayout(width: nat, height: nat)
    ensures Layout(width, height, Traversal(width, height))
  {
    forall c | InGrid(width, height, c)
      ensures RowOf(width, height, c) < TotalCells(width, height)
      ensures Traversal(width, height)[RowOf(width, height, c)] == c
    {
      TraversalAt(width, height, c);
    }
  }

  /** Grid coverage, other direction: row `k` is read for exactly one cell, the
      one whose `RowOf` is `k`. */
  lemma TraversalIndex(width: nat, height: nat, k: nat)
    requires k < TotalCells(width, height)
    ensures InGrid(width, height, Traversal(width, height)[k])
    ensures RowOf(width, height, Traversal(width, height)[k]) == k
    ensures Offset(width, height, Traversal(width, height)[k].level) <= k
    ensures k < Offset(width, height, Traversal(width, height)[k].level + 1)
  {
    var t := Traversal(width, height);
    OffsetIsStart(width, height, |Strides|);
    WalkIndex(Shape(width, height), |Strides|, k);
    OffsetIsStart(width, height, t[k].level);
    OffsetIsStart(width, height, t[k].level + 1);
  }

  /** No row is skipped or read twice: `RowOf` is a bijection from the cells of
      the grid onto `[0, TotalCells)`. */
  lemma GridCoverage(width: nat, height: nat)
    ensures forall c :: InGrid(width, height, c) ==> RowOf(width, height, c) < TotalCells(width, height)
    ensures forall c1, c2 ::
              (InGrid(width, height, c1) && InGrid(width, height, c2)
               && RowOf(width, height, c1) == RowOf(width, height, c2)) ==> c1 == c2
    ensures forall k :: 0 <= k < TotalCells(width, height) ==>
              InGrid(width, height, Traversal(width, height)[k]) && RowOf(width, height, Traversal(width, height)[k]) == k
  {
    forall c | InGrid(width, height, c)
      ensures RowOf(width, height, c) < TotalCells(width, height)
      ensures Traversal(width, height)[RowOf(width, height, c)] == c
    {
      TraversalAt(width, height, c);
    }
    forall k | 0 <= k < TotalCells(width, height)
      ensures InGrid(width, height, Traversal(width, height)[k])
      ensures RowOf(width, height, Traversal(width, height)[k]) == k
    {
      TraversalIndex(width, height, k);
    }
  }

  /** Stride blocks are read in order: every stride-8 row precedes every
      stride-16 row, which precedes every stride-32 row. */
  lemma TraversalOrdered(width: nat, height: nat, k1: nat, k2: nat)
    requires k1 <= k2 < TotalCells(width, height)
    ensures Traversal(width, height)[k1].level <= Traversal(width, height)[k2].level
  {
    var t := Traversal(width, height);
    TraversalIndex(width, height, k1);
    TraversalIndex(width, height, k2);
    if t[k2].level < t[k1].level {
      OffsetMonotone(width, height, t[k2].level + 1, t[k1].level);
    }
  }

  /** The number of rows read, in closed form. */
  lemma TotalCellsClosedForm(width: nat, height: nat)
    ensures TotalCells(width, height)
         == (width / 8) * (height / 8) + (width / 16) * (height / 16) + (width / 32) * (height / 32)
  {
    assert Offset(width, height, 3) == Offset(width, height, 2) + Rows(width / 32, height / 32);
    assert Offset(width, height, 2) == Offset(width, height, 1) + Rows(width / 16, height / 16);
    assert Offset(width, height, 1) == Rows(width / 8, height / 8);
    RowsProduct(width / 8, height / 8);
    RowsProduct(width / 16, height / 16);
    RowsProduct(width / 32, height / 32);
  }

  /** The row read for a cell, in closed form: its block's offset, `i` full
      sweeps of `numGridY` rows, then `j`. */
  lemma RowOfClosedForm(width: nat, height: nat, c: Cell)
    requires c.level < |Strides|
    ensures RowOf(width, height, c) == Offset(width, height, c.level) + c.i * GridY(height, c.level) + c.j
  {
    RowsProduct(c.i, GridY(height, c.level));
  }
}
