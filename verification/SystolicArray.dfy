/** The accelerator: its matrices and tile buffers, the events it schedules, and the run of the
    whole tile queue. */
module SystolicArrays {
  import opened Words
  import opened MatrixMath
  import opened SystolicTile
  import opened SystolicTiling

  const SIDE := 64

  datatype Event = Preload(cycle: nat) | Propagate(cycle: nat) | Flush(cycle: nat) | Deposit
  datatype Scheduled = Scheduled(when: nat, event: Event)

  /** The k-th event of a tile launched at tick `now`. */
  function TileEvent(n: nat, now: nat, k: nat): Scheduled
    requires k < 4 * n
  {
    if k < n then Scheduled(now + 1 + k, Preload(k))
    else if k < 3 * n - 1 then Scheduled(now + 1 + k, Propagate(k - n))
    else if k < 4 * n - 1 then Scheduled(now + 1 + k, Flush(k - (3 * n - 1)))
    else Scheduled(now + 4 * n + 1, Deposit)
  }

  predicate IsTileSchedule(es: seq<Scheduled>, n: nat, now: nat) {
    |es| == 4 * n && forall k :: 0 <= k < |es| ==> es[k] == TileEvent(n, now, k)
  }

  /** The order of scheduling is the order of ticks, so events run in list order. */
  lemma TickOrder(es: seq<Scheduled>, n: nat, now: nat, i: nat, j: nat)
    requires IsTileSchedule(es, n, now) && i < j < |es|
    ensures now < es[i].when < es[j].when
  {}

  /** A buffer read as a matrix. */
  ghost function Rows(m: array2<Byte>): (rs: Matrix)
    reads m
    ensures |rs| == m.Length0
    ensures forall i :: 0 <= i < m.Length0 ==> |rs[i]| == m.Length1
    ensures forall i, j :: 0 <= i < m.Length0 && 0 <= j < m.Length1 ==> rs[i][j] == m[i, j]
  {
    seq(m.Length0, i requires 0 <= i < m.Length0 reads m =>
      seq(m.Length1, j requires 0 <= j < m.Length1 reads m => m[i, j]))
  }

  /** The same, as the run copies it. */
  method CopyRows(m: array2<Byte>) returns (rs: Matrix)
    ensures rs == Rows(m)
  {
    rs := [];
    for i := 0 to m.Length0
      invariant |rs| == i
      invariant forall x :: 0 <= x < i ==> rs[x] == Rows(m)[x]
    {
      var row: seq<Byte> := [];
      for j := 0 to m.Length1
        invariant |row| == j
        invariant forall y :: 0 <= y < j ==> row[y] == m[i, y]
      {
        row := row + [m[i, j]];
      }
      assert row == Rows(m)[i];
      rs := rs + [row];
    }
  }

  class SystolicArray {
    const n: nat
    var strideA: nat
    var strideB: nat
    const aMatrix: array2<Byte>
    const bMatrix: array2<Byte>
    const cMatrix: array2<Half>
    const aTile: array2<Byte>
    const bTile: array2<Byte>
    const tileResult: array2<Half>
    var tileQ: seq<TileTask>
    var done: bool
    var now: nat

    constructor (n: nat)
      requires n > 0
      ensures this.n == n && Shape() && fresh(Buffers()) && tileQ == [] && !done
      ensures strideA == 0 && strideB == 0
    {
      this.n := n;
      strideA, strideB, tileQ, done, now := 0, 0, [], false, 0;
      aMatrix := new Byte[SIDE, SIDE]((_, _) => 0);
      bMatrix := new Byte[SIDE, SIDE]((_, _) => 0);
      cMatrix := new Half[SIDE, SIDE]((_, _) => 0);
      aTile := new Byte[n, n]((_, _) => 0);
      bTile := new Byte[n, n]((_, _) => 0);
      tileResult := new Half[n, n]((_, _) => 0);
    }

    ghost predicate Shape()
    {
      && n > 0
      && aMatrix.Length0 == aMatrix.Length1 == bMatrix.Length0 == bMatrix.Length1 == cMatrix.Length0 ==
        cMatrix.Length1 == SIDE
      && aTile.Length0 == aTile.Length1 == bTile.Length0 == bTile.Length1 == tileResult.Length0 ==
        tileResult.Length1 == n
      && aMatrix != bMatrix && aMatrix != aTile && aMatrix != bTile && bMatrix != aTile && bMatrix != bTile
      && aTile != bTile
      && cMatrix != tileResult
      && {aMatrix as object, bMatrix, aTile, bTile} !! {cMatrix as object, tileResult}
    }

    ghost function Buffers(): set<object> {
      {aMatrix as object, bMatrix, cMatrix, aTile, bTile, tileResult}
    }

    /** Copies a block of a matrix into a tile: the valid entries, then zeros in the remaining
        columns, then zeros in the remaining rows. */
    method LoadBlock(tile: array2<Byte>, m: array2<Byte>, r0: nat, c0: nat, rows: nat, cols: nat)
      requires tile != m && tile.Length0 == tile.Length1 == n && rows <= n && cols <= n
      requires r0 + rows <= m.Length0 && c0 + cols <= m.Length1
      modifies tile
      ensures IsTile(Rows(tile), Rows(m), r0, c0, rows, cols)
    {
      for i := 0 to rows
        invariant forall x, y :: 0 <= x < i && 0 <= y < cols ==> tile[x, y] == m[r0 + x, c0 + y]
      {
        for j := 0 to cols
          invariant forall x, y :: 0 <= x < n && 0 <= y < cols && (x < i || (x == i && y < j)) ==>
                      tile[x, y] == m[r0 + x, c0 + y]
        {
          tile[i, j] := m[r0 + i, c0 + j];
        }
      }
      for i := 0 to rows
        invariant forall x, y :: 0 <= x < rows && 0 <= y < cols ==> tile[x, y] == m[r0 + x, c0 + y]
        invariant forall x, y :: 0 <= x < i && cols <= y < n ==> tile[x, y] == 0
      {
        for j := cols to n
          invariant forall x, y :: 0 <= x < rows && 0 <= y < cols ==> tile[x, y] == m[r0 + x, c0 + y]
          invariant forall x, y :: 0 <= x < n && cols <= y < n && (x < i || (x == i && y < j)) ==> tile[x, y] == 0
        {
          tile[i, j] := 0;
        }
      }
      for i := rows to n
        invariant forall x, y :: 0 <= x < rows && 0 <= y < n ==> tile[x, y] == if y < cols then m[r0 + x, c0 + y] else 0
        invariant forall x, y :: rows <= x < i && 0 <= y < n ==> tile[x, y] == 0
      {
        for j := 0 to n
          invariant forall x, y :: 0 <= x < rows && 0 <= y < n ==>
                      tile[x, y] == if y < cols then m[r0 + x, c0 + y] else 0
          invariant forall x, y :: rows <= x < n && 0 <= y < n && (x < i || (x == i && y < j)) ==> tile[x, y] == 0
        {
          tile[i, j] := 0;
        }
      }
      BlockIsTile(tile, m, r0, c0, rows, cols);
    }

    lemma BlockIsTile(tile: array2<Byte>, m: array2<Byte>, r0: nat, c0: nat, rows: nat, cols: nat)
      requires tile.Length0 == tile.Length1 == n && rows <= n && cols <= n && r0 + rows <= m.Length0
      requires c0 + cols <= m.Length1
      requires forall x, y :: 0 <= x < rows && 0 <= y < n ==> tile[x, y] == if y < cols then m[r0 + x, c0 + y] else 0
      requires forall x, y :: rows <= x < n && 0 <= y < n ==> tile[x, y] == 0
      ensures IsTile(Rows(tile), Rows(m), r0, c0, rows, cols)
    {
      hide Rows;
    }

    method LoadATile(t: TileTask)
      requires Shape() && Inside(t, n, SIDE, SIDE)
      modifies aTile
      ensures IsTile(Rows(aTile), Rows(aMatrix), t.rowBlk, t.kBlk, t.tileRows, t.kCols)
    {
      LoadBlock(aTile, aMatrix, t.rowBlk, t.kBlk, t.tileRows, t.kCols);
    }

    method LoadBTile(t: TileTask)
      requires Shape() && Inside(t, n, SIDE, SIDE)
      modifies bTile
      ensures IsTile(Rows(bTile), Rows(bMatrix), t.kBlk, t.colBlk, t.kCols, t.tileCols)
    {
      LoadBlock(bTile, bMatrix, t.kBlk, t.colBlk, t.kCols, t.tileCols);
    }

    /** Schedules one tile: n preload cycles, 2n-1 propagate cycles, n flush cycles, and the deposit
        two ticks after the last of them. */
    method ScheduleTile() returns (events: seq<Scheduled>)
      requires n > 0
      ensures IsTileSchedule(events, n, now)
    {
      events := [];
      var total := 0;
      while total < n
        invariant 0 <= total <= n && |events| == total
        invariant forall k :: 0 <= k < total ==> events[k] == TileEvent(n, now, k)
      {
        events := events + [Scheduled(now + 1 + total, Preload(total))];
        total := total + 1;
      }
      var expected := total + n * 2 - 1;
      var cycle := 0;
      while total < expected
        invariant n <= total <= expected && cycle == total - n && |events| == total
        invariant forall k :: 0 <= k < total ==> events[k] == TileEvent(n, now, k)
      {
        events := events + [Scheduled(now + 1 + total, Propagate(cycle))];
        cycle, total := cycle + 1, total + 1;
      }
      expected := total + n;
      cycle := 0;
      while total < expected
        invariant 3 * n - 1 <= total <= expected && cycle == total - (3 * n - 1) && |events| == total
        invariant forall k :: 0 <= k < total ==> events[k] == TileEvent(n, now, k)
      {
        events := events + [Scheduled(now + 1 + total, Flush(cycle))];
        cycle, total := cycle + 1, total + 1;
      }
      events := events + [Scheduled(now + expected + 2, Deposit)];
    }

    /** The tile results are the product of the grid's tiles. */
    ghost predicate Finished(grid: Grid)
      requires Shape()
      reads tileResult
    {
      forall i, j :: 0 <= i < n && 0 <= j < n ==> tileResult[i, j] == Dot(grid.a, grid.b, i, j, 0, n) % 0x1_0000
    }

    /** Handles the k-th event of a tile. */
    method Handle(grid: Grid, event: Event, outside: seq<Valid8>, ghost k: nat)
      requires Shape() && grid.Shape() && grid.n == n && grid.result != tileResult && |outside| == n
      requires k < 4 * n - 1 && grid.Progress(k) && event == TileEvent(n, 0, k).event
      modifies tileResult, grid.pe, grid.result, grid.emitRow
      ensures grid.Progress(k + 1)
      ensures k == 4 * n - 2 ==> Finished(grid)
    {
      hide Grid.Preloaded, Grid.Wavefront, Dot;
      match event {
        case Preload(cycle) => grid.PreloadWeight(cycle);
        case Propagate(cycle) => grid.PropagateAndMac(cycle);
        case Flush(cycle) =>
          grid.FlushAndEmit(cycle, outside);
          if cycle == n - 1 {
            TakeResults(grid);
          }
      }
    }

    /** Runs the scheduled events of one tile in tick order, up to its deposit. `outside` is what
        the flush cycles find left of the grid, by tick and row. */
    method RunTile(events: seq<Scheduled>, outside: (nat, nat) -> Valid8)
      requires Shape() && IsTileSchedule(events, n, now)
      modifies this`now, tileResult
      ensures now == old(now) + 4 * n + 1
      ensures forall i, j :: 0 <= i < n && 0 <= j < n ==>
                tileResult[i, j] == Dot(Rows(aTile), Rows(bTile), i, j, 0, n) % 0x1_0000
    {
      var at := CopyRows(aTile);
      var bt := CopyRows(bTile);
      var grid := new Grid(n, at, bt);
      ghost var start := now;
      hide Grid.Progress, Finished, Dot, Rows;
      assert grid.Progress(0) by { grid.StartProgress(); }
      for k := 0 to |events| - 1
        invariant grid.Shape() && fresh(grid.pe) && fresh(grid.result) && fresh(grid.emitRow)
        invariant grid.Progress(k)
        invariant k == 4 * n - 1 ==> Finished(grid)
      {
        assert events[k] == TileEvent(n, start, k);
        now := events[k].when;
        var tick := now;
        Handle(grid, events[k].event, seq(n, i requires 0 <= i => outside(tick, i)), k);
      }
      now := events[|events| - 1].when;
      assert Finished(grid) ==> forall i, j :: 0 <= i < n && 0 <= j < n ==>
        tileResult[i, j] == Dot(at, bt, i, j, 0, n) % 0x1_0000 by { FinishedMeans(grid); }
    }

    lemma FinishedMeans(grid: Grid)
      requires Shape()
      ensures Finished(grid) ==> forall i, j :: 0 <= i < n && 0 <= j < n ==>
                tileResult[i, j] == Dot(grid.a, grid.b, i, j, 0, n) % 0x1_0000
    {}

    /** The last flush cycle copies the results out. */
    method TakeResults(grid: Grid)
      requires Shape() && grid.Shape() && grid.n == n && grid.Wavefront(3 * n - 1) && grid.result != tileResult
      modifies tileResult
      ensures Finished(grid)
    {
      for i := 0 to n
        invariant forall x, y :: 0 <= x < i && 0 <= y < n ==> tileResult[x, y] == grid.result[x, y]
      {
        for j := 0 to n
          invariant forall x, y :: 0 <= x < n && 0 <= y < n && (x < i || (x == i && y < j)) ==>
                      tileResult[x, y] == grid.result[x, y]
        {
          tileResult[i, j] := grid.result[i, j];
        }
      }
      forall i, j | 0 <= i < n && 0 <= j < n
        ensures tileResult[i, j] == Dot(grid.a, grid.b, i, j, 0, n) % 0x1_0000
      {
        assert i < Emitted(n, 3 * n - 1, j);
      }
    }

    /** Adds the tile's results into C, wrapping at 16 bits. */
    method DepositTile(t: TileTask)
      requires Shape() && Inside(t, n, SIDE, SIDE)
      modifies cMatrix
      ensures forall r, c :: 0 <= r < SIDE && 0 <= c < SIDE ==>
                cMatrix[r, c] == if Covers(t, r, c)
                  then Add16(old(cMatrix[r, c]), tileResult[r - t.rowBlk, c - t.colBlk])
                                 else old(cMatrix[r, c])
    {
      for i := 0 to t.tileRows
        invariant forall r, c :: 0 <= r < SIDE && 0 <= c < SIDE ==>
                    cMatrix[r, c] == if Covers(t, r, c) && r - t.rowBlk < i
                      then Add16(old(cMatrix[r, c]), tileResult[r - t.rowBlk, c - t.colBlk])
                                     else old(cMatrix[r, c])
      {
        for j := 0 to t.tileCols
          invariant forall r, c :: 0 <= r < SIDE && 0 <= c < SIDE ==>
                      cMatrix[r, c] ==
                        if Covers(t, r, c) && (r - t.rowBlk < i || (r - t.rowBlk == i && c - t.colBlk < j))
                                       then Add16(old(cMatrix[r, c]), tileResult[r - t.rowBlk, c - t.colBlk])
                                       else old(cMatrix[r, c])
        {
          cMatrix[t.rowBlk + i, t.colBlk + j] := Add16(cMatrix[t.rowBlk + i, t.colBlk + j], tileResult[i, j]);
        }
      }
    }

    method QueueSlices(r: nat, rows: nat, c: nat, cols: nat)
      requires n > 0
      modifies this`tileQ
      ensures tileQ == old(tileQ) + SliceTasks(n, strideB, r, rows, c, cols, 0)
    {
      var k := 0;
      while k < strideB
        invariant tileQ + SliceTasks(n, strideB, r, rows, c, cols, k) ==
                    old(tileQ) + SliceTasks(n, strideB, r, rows, c, cols, 0)
        decreases strideB - k
      {
        tileQ := tileQ + [TileTask(r, c, rows, cols, k, Min(n, strideB - k))];
        k := k + n;
      }
    }

    method QueueColumns(r: nat, rows: nat)
      requires n > 0
      modifies this`tileQ
      ensures tileQ == old(tileQ) + ColumnTasks(n, strideB, r, rows, 0)
    {
      var c := 0;
      while c < strideB
        invariant tileQ + ColumnTasks(n, strideB, r, rows, c) == old(tileQ) + ColumnTasks(n, strideB, r, rows, 0)
        decreases strideB - c
      {
        QueueSlices(r, rows, c, Min(n, strideB - c));
        c := c + n;
      }
    }

    /** Queues every tile: rows of C, columns of C, slices of the inner dimension. */
    method FillQueue()
      requires n > 0
      modifies this`tileQ
      ensures tileQ == old(tileQ) + RowTasks(n, strideA, strideB, 0)
    {
      var r := 0;
      while r < strideA
        invariant tileQ + RowTasks(n, strideA, strideB, r) == old(tileQ) + RowTasks(n, strideA, strideB, 0)
        decreases strideA - r
      {
        QueueColumns(r, Min(n, strideA - r));
        r := r + n;
      }
    }

    /** C holds, wrapped to 16 bits, what the tiles `ts` have added. */
    ghost predicate Accumulated(ts: seq<TileTask>)
      requires Shape()
      reads aMatrix, bMatrix, cMatrix
    {
      forall r, c :: 0 <= r < SIDE && 0 <= c < SIDE ==>
        cMatrix[r, c] == Total(Rows(aMatrix), Rows(bMatrix), ts, r, c) % 0x1_0000
    }

    /** The tile results are the share of `t`. */
    ghost predicate Yields(t: TileTask)
      requires Shape() && Inside(t, n, SIDE, SIDE)
      reads aMatrix, bMatrix, tileResult
    {
      forall i, j :: 0 <= i < t.tileRows && 0 <= j < t.tileCols ==>
        tileResult[i, j] == Dot(Rows(aMatrix), Rows(bMatrix), t.rowBlk + i, t.colBlk + j, t.kBlk,
          t.kBlk + t.kCols) % 0x1_0000
    }

    /** Loads and runs one tile. */
    method ComputeTile(t: TileTask, outside: (nat, nat) -> Valid8)
      requires Shape() && Inside(t, n, SIDE, SIDE)
      modifies this`now, aTile, bTile, tileResult
      ensures now == old(now) + 4 * n + 1 && Yields(t)
    {
      hide Rows, Dot, IsTile, IsTileSchedule;
      LoadATile(t);
      LoadBTile(t);
      ghost var at, bt := Rows(aTile), Rows(bTile);
      var events := ScheduleTile();
      RunTile(events, outside);
      assert Rows(aTile) == at && Rows(bTile) == bt;
      YieldsFrom(t, at, bt);
    }

    lemma YieldsFrom(t: TileTask, at: Matrix, bt: Matrix)
      requires Shape() && Inside(t, n, SIDE, SIDE)
      requires IsTile(at, Rows(aMatrix), t.rowBlk, t.kBlk, t.tileRows, t.kCols)
      requires IsTile(bt, Rows(bMatrix), t.kBlk, t.colBlk, t.kCols, t.tileCols)
      requires forall i, j :: 0 <= i < n && 0 <= j < n ==> tileResult[i, j] == Dot(at, bt, i, j, 0, n) % 0x1_0000
      ensures Yields(t)
    {
      hide Rows, Dot, IsTile;
      forall i, j | 0 <= i < t.tileRows && 0 <= j < t.tileCols
        ensures tileResult[i, j] ==
                  Dot(Rows(aMatrix), Rows(bMatrix), t.rowBlk + i, t.colBlk + j, t.kBlk, t.kBlk + t.kCols) % 0x1_0000
      {
        TileDot(Rows(aMatrix), Rows(bMatrix), at, bt, t, i, j, n);
      }
    }

    /** Deposits the results of `t` on top of what the tiles `before` have added. */
    method Accrue(t: TileTask, ghost before: seq<TileTask>)
      requires Shape() && Inside(t, n, SIDE, SIDE) && Accumulated(before) && Yields(t)
      modifies cMatrix
      ensures Accumulated(before + [t])
    {
      hide Dot, Rows;
      ghost var a, b := Rows(aMatrix), Rows(bMatrix);
      label Before:
      DepositTile(t);
      assert (before + [t])[..|before|] == before;
      forall r, c | 0 <= r < SIDE && 0 <= c < SIDE
        ensures cMatrix[r, c] == Total(a, b, before + [t], r, c) % 0x1_0000
      {
        assert old@Before(cMatrix[r, c]) == Total(a, b, before, r, c) % 0x1_0000;
        if Covers(t, r, c) {
          assert tileResult[r - t.rowBlk, c - t.colBlk] == Share(a, b, t, r, c) % 0x1_0000;
          Accumulate(Total(a, b, before, r, c), Share(a, b, t, r, c));
        }
      }
    }

    /** Launches the tile at the head of the queue, runs its events and deposits its result. */
    method RunNextTile(outside: (nat, nat) -> Valid8, ghost before: seq<TileTask>)
      requires Shape() && tileQ != [] && Inside(tileQ[0], n, SIDE, SIDE) && Accumulated(before)
      modifies this`tileQ, this`now, aTile, bTile, tileResult, cMatrix
      ensures tileQ == old(tileQ)[1..] && now == old(now) + 4 * n + 1
      ensures Accumulated(before + [old(tileQ)[0]])
    {
      hide Accumulated, Yields;
      var t := tileQ[0];
      tileQ := tileQ[1..];
      ComputeTile(t, outside);
      Accrue(t, before);
    }

    /** Launches tile after tile until the queue is empty, and then raises done. */
    method RunQueue(outside: (nat, nat) -> Valid8)
      requires Shape() && AllInside(tileQ, n, SIDE, SIDE) && Accumulated([])
      modifies this`tileQ, this`now, this`done, aTile, bTile, tileResult, cMatrix
      ensures done && tileQ == [] && Accumulated(old(tileQ))
      ensures now == old(now) + Ticks(|old(tileQ)|)
    {
      hide Accumulated;
      ghost var before: seq<TileTask> := [];
      while tileQ != []
        invariant before + tileQ == old(tileQ) && Accumulated(before)
        invariant now == old(now) + Ticks(|before|)
        decreases |tileQ|
      {
        ghost var t := tileQ[0];
        assert t == old(tileQ)[|before|];
        RunNextTile(outside, before);
        before := before + [t];
      }
      assert before == old(tileQ);
      done := true;
    }

    /** The whole product. From a cleared C, for any strides up to 64 and whatever the flush cycles
        find outside the grid, C ends up with A times B over the inner dimension strideB, wrapped
        to 16 bits, in the rows below strideA and columns below strideB, and is zero elsewhere; done
        is raised 4n+1 ticks for each queued tile later. */
    method ComputeMatrix(outside: (nat, nat) -> Valid8)
      requires Shape() && strideA <= 64 && strideB <= 64 && tileQ == []
      requires forall r, c :: 0 <= r < 64 && 0 <= c < 64 ==> cMatrix[r, c] == 0
      modifies this`tileQ, this`now, this`done, aTile, bTile, tileResult, cMatrix
      ensures done && tileQ == []
      ensures now == old(now) + |RowTasks(n, strideA, strideB, 0)| * (4 * n + 1)
      ensures forall r, c :: 0 <= r < 64 && 0 <= c < 64 ==>
                cMatrix[r, c] == if r < strideA && c < strideB
                  then Dot(Rows(aMatrix), Rows(bMatrix), r, c, 0, strideB) % 0x1_0000 else 0
      ensures forall r, c :: 0 <= r < strideA && 0 <= c < strideB ==>
                var exact := Dot(Rows(aMatrix), Rows(bMatrix), r, c, 0, strideB);
                && 0 <= cMatrix[r, c] < 65536 && (exact - cMatrix[r, c]) % 65536 == 0
                && (exact <= 65535 ==> cMatrix[r, c] == exact)
    {
      hide Accumulated, RowTasks, Rows, Dot;
      FillQueue();
      assert tileQ == RowTasks(n, strideA, strideB, 0);
      QueueInside(n, strideA, strideB, 0);
      NothingAdded();
      RunQueue(outside);
      AllAdded();
      TicksAre(|RowTasks(n, strideA, strideB, 0)|);
    }

    /** Ticks taken by `k` tiles. */
    function Ticks(k: nat): nat {
      if k == 0 then 0 else Ticks(k - 1) + 4 * n + 1
    }

    lemma {:induction false} TicksAre(k: nat)
      ensures Ticks(k) == k * (4 * n + 1)
    {
      if k > 0 {
        TicksAre(k - 1);
        NextMultiple(k - 1, 4 * n + 1);
      }
    }

    lemma NextMultiple(k: nat, d: nat)
      ensures (k + 1) * d == k * d + d
    {}

    lemma NothingAdded()
      requires Shape() && forall r, c :: 0 <= r < SIDE && 0 <= c < SIDE ==> cMatrix[r, c] == 0
      ensures Accumulated([])
    {}

    lemma AllAdded()
      requires Shape() && Accumulated(RowTasks(n, strideA, strideB, 0))
      ensures forall r, c :: 0 <= r < SIDE && 0 <= c < SIDE ==>
                cMatrix[r, c] == if r < strideA && c < strideB
                  then Dot(Rows(aMatrix), Rows(bMatrix), r, c, 0, strideB) % 0x1_0000 else 0
    {
      forall r, c | 0 <= r < SIDE && 0 <= c < SIDE
        ensures cMatrix[r, c] == if r < strideA && c < strideB
                  then Dot(Rows(aMatrix), Rows(bMatrix), r, c, 0, strideB) % 0x1_0000 else 0
      {
        QueueTotal(Rows(aMatrix), Rows(bMatrix), n, strideA, strideB, 0, r, c);
      }
    }
  }

  /** The inner dimension strideB loses nothing: with B zero from row strideB on, the entry is the product over
      all 64 terms; and a sum below 65536 is not wrapped. */
  lemma ProductIsWhole(a: Matrix, b: Matrix, r: nat, c: nat, strideB: nat)
    requires strideB <= SIDE
    requires forall k: nat :: strideB <= k < SIDE ==> Entry(b, k, c) == 0
    ensures Dot(a, b, r, c, 0, strideB) == Dot(a, b, r, c, 0, SIDE)
    ensures Dot(a, b, r, c, 0, SIDE) < 0x1_0000 ==> Dot(a, b, r, c, 0, strideB) % 0x1_0000 == Dot(a, b, r, c, 0, SIDE)
  {
    DotSplits(a, b, r, c, 0, strideB, SIDE);
    DotBeyond(a, b, r, c, strideB, SIDE);
  }
}
