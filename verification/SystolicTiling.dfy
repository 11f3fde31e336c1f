/** Cutting a matrix product into tiles: the queue of tile tasks and what it adds up to. */
module SystolicTiling {
  import opened Words
  import opened MatrixMath

  /** Where a tile of C starts, its size, and the slice of the inner dimension it multiplies. */
  datatype TileTask = TileTask(rowBlk: nat, colBlk: nat, tileRows: nat, tileCols: nat, kBlk: nat, kCols: nat)

  // ---- The queue, as its three nested loops fill it ----

  function SliceTasks(n: nat, sb: nat, r: nat, rows: nat, c: nat, cols: nat, k: nat): seq<TileTask>
    requires n > 0
    decreases sb - k
  {
    if k >= sb then [] else [TileTask(r, c, rows, cols, k, Min(n, sb - k))] + SliceTasks(n, sb, r, rows, c, cols, k + n)
  }

  function ColumnTasks(n: nat, sb: nat, r: nat, rows: nat, c: nat): seq<TileTask>
    requires n > 0
    decreases sb - c
  {
    if c >= sb then [] else SliceTasks(n, sb, r, rows, c, Min(n, sb - c), 0) + ColumnTasks(n, sb, r, rows, c + n)
  }

  function RowTasks(n: nat, sa: nat, sb: nat, r: nat): seq<TileTask>
    requires n > 0
    decreases sa - r
  {
    if r >= sa then [] else ColumnTasks(n, sb, r, Min(n, sa - r), 0) + RowTasks(n, sa, sb, r + n)
  }

  // ---- What running a list of tasks adds to an entry of C ----

  predicate Covers(t: TileTask, r: nat, c: nat) {
    t.rowBlk <= r < t.rowBlk + t.tileRows && t.colBlk <= c < t.colBlk + t.tileCols
  }

  function Share(a: Matrix, b: Matrix, t: TileTask, r: nat, c: nat): nat {
    if Covers(t, r, c) then Dot(a, b, r, c, t.kBlk, t.kBlk + t.kCols) else 0
  }

  function Total(a: Matrix, b: Matrix, ts: seq<TileTask>, r: nat, c: nat): nat {
    if ts == [] then 0 else Total(a, b, ts[..|ts| - 1], r, c) + Share(a, b, ts[|ts| - 1], r, c)
  }

  lemma {:induction false} TotalSplits(a: Matrix, b: Matrix, xs: seq<TileTask>, ys: seq<TileTask>, r: nat, c: nat)
    ensures Total(a, b, xs + ys, r, c) == Total(a, b, xs, r, c) + Total(a, b, ys, r, c)
    decreases |ys|
  {
    if ys == [] {
      assert xs + ys == xs;
    } else {
      var all, rest := xs + ys, ys[..|ys| - 1];
      assert all[..|all| - 1] == xs + rest;
      TotalSplits(a, b, xs, rest, r, c);
    }
  }

  lemma TotalOne(a: Matrix, b: Matrix, t: TileTask, r: nat, c: nat)
    ensures Total(a, b, [t], r, c) == Share(a, b, t, r, c)
  {
    assert [t][..0] == [];
  }

  lemma {:induction false} SliceTotal(a: Matrix, b: Matrix, n: nat, sb: nat, r0: nat, rows: nat, c0: nat, cols: nat,
                                      k: nat, r: nat, c: nat)
    requires n > 0
    ensures Total(a, b, SliceTasks(n, sb, r0, rows, c0, cols, k), r, c) ==
            if r0 <= r < r0 + rows && c0 <= c < c0 + cols then Dot(a, b, r, c, k, sb) else 0
    decreases sb - k
  {
    if k < sb {
      var t := TileTask(r0, c0, rows, cols, k, Min(n, sb - k));
      SliceTotal(a, b, n, sb, r0, rows, c0, cols, k + n, r, c);
      TotalSplits(a, b, [t], SliceTasks(n, sb, r0, rows, c0, cols, k + n), r, c);
      TotalOne(a, b, t, r, c);
      DotSplits(a, b, r, c, k, Min(k + n, sb), sb);
    }
  }

  lemma {:induction false} ColumnTotal(a: Matrix, b: Matrix, n: nat, sb: nat, r0: nat, rows: nat, c0: nat, r: nat,
                                       c: nat)
    requires n > 0
    ensures Total(a, b, ColumnTasks(n, sb, r0, rows, c0), r, c) ==
            if r0 <= r < r0 + rows && c0 <= c < sb then Dot(a, b, r, c, 0, sb) else 0
    decreases sb - c0
  {
    if c0 < sb {
      var cols := Min(n, sb - c0);
      SliceTotal(a, b, n, sb, r0, rows, c0, cols, 0, r, c);
      ColumnTotal(a, b, n, sb, r0, rows, c0 + n, r, c);
      TotalSplits(a, b, SliceTasks(n, sb, r0, rows, c0, cols, 0), ColumnTasks(n, sb, r0, rows, c0 + n), r, c);
    }
  }

  /** The whole queue covers every entry of C with every slice of the inner dimension exactly once. */
  lemma {:induction false} QueueTotal(a: Matrix, b: Matrix, n: nat, sa: nat, sb: nat, r0: nat, r: nat, c: nat)
    requires n > 0
    ensures Total(a, b, RowTasks(n, sa, sb, r0), r, c) == if r0 <= r < sa && c < sb then Dot(a, b, r, c, 0, sb) else 0
    decreases sa - r0
  {
    if r0 < sa {
      var rows := Min(n, sa - r0);
      ColumnTotal(a, b, n, sb, r0, rows, 0, r, c);
      QueueTotal(a, b, n, sa, sb, r0 + n, r, c);
      TotalSplits(a, b, ColumnTasks(n, sb, r0, rows, 0), RowTasks(n, sa, sb, r0 + n), r, c);
    }
  }

  // ---- Its length ----

  function Blocks(n: nat, s: nat): nat
    requires n > 0
  {
    if s == 0 then 0 else 1 + if s > n then Blocks(n, s - n) else 0
  }

  /** That many blocks of n reach s, and one fewer do not: it is s divided by n, rounded up. */
  lemma {:induction false} BlocksCeiling(n: nat, s: nat)
    requires n > 0
    ensures s <= Blocks(n, s) * n
    ensures s > 0 ==> (Blocks(n, s) - 1) * n < s
  {
    if s > n {
      BlocksCeiling(n, s - n);
      OneMore(Blocks(n, s - n), n);
      OneMore(Blocks(n, s - n) - 1, n);
    }
  }

  lemma OneMore(x: int, y: int)
    ensures (1 + x) * y == y + x * y
  {}

  lemma {:induction false} SliceCount(n: nat, sb: nat, r: nat, rows: nat, c: nat, cols: nat, k: nat)
    requires n > 0 && k <= sb + n
    ensures |SliceTasks(n, sb, r, rows, c, cols, k)| == if k < sb then Blocks(n, sb - k) else 0
    decreases sb - k
  {
    if k < sb {
      SliceCount(n, sb, r, rows, c, cols, k + n);
    }
  }

  lemma {:induction false} ColumnCount(n: nat, sb: nat, r: nat, rows: nat, c: nat)
    requires n > 0 && c <= sb + n
    ensures |ColumnTasks(n, sb, r, rows, c)| == if c < sb then Blocks(n, sb - c) * Blocks(n, sb) else 0
    decreases sb - c
  {
    if c < sb {
      SliceCount(n, sb, r, rows, c, Min(n, sb - c), 0);
      ColumnCount(n, sb, r, rows, c + n);
      OneMore(if sb - c > n then Blocks(n, sb - c - n) else 0, Blocks(n, sb));
    }
  }

  /** ceil(strideA / n) * ceil(strideB / n)^2 tiles. */
  lemma {:induction false} QueueCount(n: nat, sa: nat, sb: nat, r: nat)
    requires n > 0 && r <= sa + n
    ensures |RowTasks(n, sa, sb, r)| == if r < sa then Blocks(n, sa - r) * (Blocks(n, sb) * Blocks(n, sb)) else 0
    decreases sa - r
  {
    if r < sa {
      ColumnCount(n, sb, r, Min(n, sa - r), 0);
      QueueCount(n, sa, sb, r + n);
      OneMore(if sa - r > n then Blocks(n, sa - r - n) else 0, Blocks(n, sb) * Blocks(n, sb));
    }
  }

  // ---- Every task stays inside the matrices ----

  predicate Inside(t: TileTask, n: nat, sa: nat, sb: nat) {
    && t.rowBlk + t.tileRows <= sa && t.colBlk + t.tileCols <= sb && t.kBlk + t.kCols <= sb
    && t.tileRows <= n && t.tileCols <= n && t.kCols <= n
  }

  predicate AllInside(ts: seq<TileTask>, n: nat, sa: nat, sb: nat) {
    forall i :: 0 <= i < |ts| ==> Inside(ts[i], n, sa, sb)
  }

  lemma {:induction false} SlicesInside(n: nat, sa: nat, sb: nat, r: nat, rows: nat, c: nat, cols: nat, k: nat)
    requires n > 0 && r + rows <= sa && rows <= n && c + cols <= sb && cols <= n
    ensures AllInside(SliceTasks(n, sb, r, rows, c, cols, k), n, sa, sb)
    decreases sb - k
  {
    if k < sb { SlicesInside(n, sa, sb, r, rows, c, cols, k + n); }
  }

  lemma {:induction false} ColumnsInside(n: nat, sa: nat, sb: nat, r: nat, rows: nat, c: nat)
    requires n > 0 && r + rows <= sa && rows <= n
    ensures AllInside(ColumnTasks(n, sb, r, rows, c), n, sa, sb)
    decreases sb - c
  {
    if c < sb {
      SlicesInside(n, sa, sb, r, rows, c, Min(n, sb - c), 0);
      ColumnsInside(n, sa, sb, r, rows, c + n);
    }
  }

  lemma {:induction false} QueueInside(n: nat, sa: nat, sb: nat, r: nat)
    requires n > 0
    ensures AllInside(RowTasks(n, sa, sb, r), n, sa, sb)
    decreases sa - r
  {
    if r < sa {
      ColumnsInside(n, sa, sb, r, Min(n, sa - r), 0);
      QueueInside(n, sa, sb, r + n);
    }
  }

  // ---- One padded tile ----

  /** A tile of `m` from (r0, c0), zero outside rows x cols. */
  ghost predicate IsTile(tile: Matrix, m: Matrix, r0: nat, c0: nat, rows: nat, cols: nat) {
    forall i: nat, j: nat :: Entry(tile, i, j) == if i < rows && j < cols then Entry(m, r0 + i, c0 + j) else 0
  }

  /** The product of two padded tiles is the slice of the inner product they stand for. */
  lemma {:induction false} TileDot(a: Matrix, b: Matrix, at: Matrix, bt: Matrix, t: TileTask, i: nat, j: nat, upto: nat)
    requires IsTile(at, a, t.rowBlk, t.kBlk, t.tileRows, t.kCols)
    requires IsTile(bt, b, t.kBlk, t.colBlk, t.kCols, t.tileCols)
    requires i < t.tileRows && j < t.tileCols
    ensures Dot(at, bt, i, j, 0, upto) ==
            Dot(a, b, t.rowBlk + i, t.colBlk + j, t.kBlk, t.kBlk + Min(upto, t.kCols))
  {
    if upto > 0 {
      TileDot(a, b, at, bt, t, i, j, upto - 1);
      var k: nat := upto - 1;
      assert Entry(at, i, k) == if k < t.kCols then Entry(a, t.rowBlk + i, t.kBlk + k) else 0;
      assert Entry(bt, k, j) == if k < t.kCols then Entry(b, t.kBlk + k, t.colBlk + j) else 0;
    }
  }
}
