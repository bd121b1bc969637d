/** A tree that the strip-wise pass loses: the edge of a buffer is smoothed without the row before it, so a
    context row holds a peak that the raster does not have, and the tree gets its top there. */
module CanopyCutTree {
  import opened Wrappers
  import C = Canopy
  import opened CanopyWindow
  import opened CanopyStrips
  import opened CanopyHanded

  // ----- the raster: one column of twelve rows

  function RowHeight(r: int): real {
    if r == 3 then 100.0 else if 4 <= r <= 7 then 60.0 else 0.0
  }

  const RIDGE: int -> Line := r => [Some(RowHeight(r))]

  /** Three strips of four rows, with the margin of pixels of 4 m. */
  const RIDGE_JOB := Job(0, 12, 4, 2, RIDGE)

  const RIDGE_SCALE := Scale(1, 4.0, 5.0)

  /** The call of the last strip. */
  const LAST_CALL := Call(6, 12, RIDGE_JOB.Rows(6, 12), 4, RIDGE_JOB.Rows(4, 12))

  lemma RidgeIsRight()
    ensures RIDGE_JOB.Valid() && NeverShort(RIDGE_JOB) && RIDGE_SCALE.Valid() && RIDGE_JOB.margin == Halo(RIDGE_SCALE)
    ensures RightCall(RIDGE_JOB, LAST_CALL)
  {
  }

  /** The pass makes this call. */
  lemma LastCallIsMade()
    ensures RIDGE_JOB.Valid() && LAST_CALL in Process(RIDGE_JOB, Initial(RIDGE_JOB), 0).calls
  {
    RidgeIsRight();
    var job, s0 := RIDGE_JOB, Initial(RIDGE_JOB);
    assert job.NextEdge(0) == 4 && job.NextEdge(4) == 8 && job.NextEdge(8) == 12;
    StartsInStep(job);
    StepKeeps(job, s0, 0);
    var s1 := Step(job, s0, 0, 4);
    StepKeeps(job, s1, 4);
    var s2 := Step(job, s1, 4, 8);
    LastStrip(s2);
    hide Step, InStep;
    var s3 := Step(job, s2, 8, 12);
    assert Process(job, s2, 8) == Process(job, s3, 12) == s3;
    assert Process(job, s0, 0) == Process(job, s1, 4) == Process(job, s2, 8);
    assert s3.calls[|s3.calls| - 1] in s3.calls;
  }

  lemma LastStrip(st: State)
    requires InStep(RIDGE_JOB, st, 8)
    ensures var next := Step(RIDGE_JOB, st, 8, 12);
      |next.calls| > 0 && next.calls[|next.calls| - 1] == LAST_CALL
  {
    var job := RIDGE_JOB;
    var heights := job.Rows(4, 12);
    BufferIsRows(job, st, 8, 12);
    assert st.done == 6;
    assert !AllUnknown(heights) by {
      assert heights[0] == [Some(60.0)] && Some(60.0) in heights[0];
      assert Known(heights[0]);
    }
    RowsSlice(job, 4, 12, 6, 12);
    hide AllUnknown, Slice, InStep, Buffer;
  }

  // ----- a column smoothed

  /** The binomial mean of a column inside it: the row counts twice, each neighbour once. */
  lemma InnerSmooth(rows: int, h: Heights, i: int, mean: real)
    requires 0 < i < rows - 1 && 4.0 * mean == h(i - 1, 0) + 2.0 * h(i, 0) + h(i + 1, 0)
    ensures Smooth(rows, 1, h, i, 0) == mean
  {
    ColumnSums(rows, h, i);
    hide WeightedSum, WeightSum;
  }

  /** At its first row there is one neighbour. */
  lemma FirstSmooth(rows: int, h: Heights, mean: real)
    requires rows > 1 && 3.0 * mean == 2.0 * h(0, 0) + h(1, 0)
    ensures Smooth(rows, 1, h, 0, 0) == mean
  {
    ColumnSums(rows, h, 0);
    hide WeightedSum, WeightSum;
  }

  lemma ColumnSums(rows: int, h: Heights, i: int)
    requires 0 <= i < rows
    ensures WeightedSum(rows, 1, h, i, 0, 9)
         == (if i > 0 then 2.0 * h(i - 1, 0) else 0.0) + 4.0 * h(i, 0)
            + (if i + 1 < rows then 2.0 * h(i + 1, 0) else 0.0)
    ensures WeightSum(rows, 1, i, 0, 9) == (if i > 0 then 2 else 0) + 4 + (if i + 1 < rows then 2 else 0)
  {
    assert Weight(1) == 2 && Weight(4) == 4 && Weight(7) == 2;
    NoSums(rows, 1, h, i, 0);
    hide Weight, WeightedSum, WeightSum;
    ThreeNeighbours(rows, h, i, 0);
    ThreeNeighbours(rows, h, i, 3);
    ThreeNeighbours(rows, h, i, 6);
  }

  /** Of a row of three neighbours, only the middle one lies in the column. */
  lemma ThreeNeighbours(rows: int, h: Heights, i: int, n: nat)
    requires n % 3 == 0
    ensures WeightedSum(rows, 1, h, i, 0, n + 3)
         == WeightedSum(rows, 1, h, i, 0, n) + Weighted(rows, 1, h, i, 0, n + 1)
    ensures WeightSum(rows, 1, i, 0, n + 3)
         == WeightSum(rows, 1, i, 0, n) + if HasNeighbour(rows, 1, i, 0, n + 1) then Weight(n + 1) else 0
  {
    hide Weight, WeightedSum, WeightSum;
    SumsStep(rows, 1, h, i, 0, n);
    SumsStep(rows, 1, h, i, 0, n + 1);
    SumsStep(rows, 1, h, i, 0, n + 2);
    assert !HasNeighbour(rows, 1, i, 0, n) && !HasNeighbour(rows, 1, i, 0, n + 2);
  }

  // ----- canopies of one column

  /** Levels of at least 44 m have a crown of one pixel on each side. */
  lemma ColumnNear(c: C.Canopy, p: int, q: int)
    requires c.cols == 1 && c.pixelM == 4.0 && c.level(p, 0) >= 44.0
    ensures c.Valid() && (c.Near(p, q) <==> -1 <= q - p <= 1)
  {
    assert c.Row(p) == p && c.Row(q) == q && c.Col(p) == 0 && c.Col(q) == 0;
    assert c.CrownRadius(c.Height(p)) == 1.0;
    OneStep(q - p);
  }

  lemma OneStep(d: int)
    ensures (d * d + 0 * 0) as real <= 1.0 * 1.0 <==> -1 <= d <= 1
  {
    if d > 1 { assert d * d >= 2 * d; } else if d < -1 { assert d * d >= -2 * d; }
  }

  lemma ColumnPeak(c: C.Canopy, p: int)
    requires c.cols == 1 && c.pixelM == 4.0 && 0 <= p < c.rows && c.level(p, 0) >= 44.0 && c.topM <= 44.0
    ensures c.Valid()
    ensures c.Peak(p) <==>
            && (p > 0 ==> c.level(p - 1, 0) <= c.level(p, 0))
            && (p + 1 < c.rows ==> c.level(p + 1, 0) <= c.level(p, 0))
  {
    forall q
      ensures c.Near(p, q) <==> -1 <= q - p <= 1
      ensures c.Height(q) == c.level(q, 0)
    {
      ColumnNear(c, p, q);
    }
    hide C.Canopy.Near, C.Canopy.Height;
    assert c.Size() == c.rows;
  }

  lemma RidgeLine(r: int)
    ensures RIDGE_JOB.raster(r) == [Some(RowHeight(r))]
  {
  }

  lemma RasterHeight(r: int)
    ensures RasterHeights(RIDGE_JOB)(r, 0) == RowHeight(r)
  {
    RidgeLine(RIDGE_JOB.from + r);
    assert RasterHeights(RIDGE_JOB)(r, 0) == HeightAt(RIDGE_JOB.raster(RIDGE_JOB.from + r), 0);
  }

  lemma BufferHeight(r: int)
    requires 0 <= r < 8
    ensures BufferHeights(LAST_CALL.window)(r, 0) == RowHeight(r + 4)
  {
    RidgeLine(4 + r);
    hide RowHeight;
    assert LAST_CALL.window[r] == RIDGE_JOB.raster(4 + r);
  }

  /** The levels around row 6 in the raster. */
  lemma RasterLevels()
    ensures RIDGE_JOB.Valid()
    ensures var l := RasterCanopy(RIDGE_JOB, RIDGE_SCALE).level;
      l(4, 0) == 70.0 && l(5, 0) == 60.0 && l(6, 0) == 60.0 && l(7, 0) == 45.0
  {
    hide Smooth, RasterHeights;
    var h := RasterHeights(RIDGE_JOB);
    RasterHeight(3);
    RasterHeight(4);
    RasterHeight(5);
    RasterHeight(6);
    RasterHeight(7);
    RasterHeight(8);
    InnerSmooth(12, h, 4, 70.0);
    InnerSmooth(12, h, 5, 60.0);
    InnerSmooth(12, h, 6, 60.0);
    InnerSmooth(12, h, 7, 45.0);
  }

  /** The same rows in the buffer, which starts at row 4. */
  lemma BufferLevels()
    ensures var l := BufferCanopy(LAST_CALL, RIDGE_SCALE).level;
      l(0, 0) == 60.0 && l(1, 0) == 60.0 && l(2, 0) == 60.0 && l(3, 0) == 45.0
  {
    assert |LAST_CALL.window| == 8;
    hide Smooth, BufferHeights;
    var h := BufferHeights(LAST_CALL.window);
    BufferHeight(0);
    BufferHeight(1);
    BufferHeight(2);
    BufferHeight(3);
    BufferHeight(4);
    FirstSmooth(8, h, 60.0);
    InnerSmooth(8, h, 1, 60.0);
    InnerSmooth(8, h, 2, 60.0);
    InnerSmooth(8, h, 3, 45.0);
  }

  /** In the raster, row 6 is a tree of its own. */
  lemma TopInRaster()
    ensures RIDGE_JOB.Valid() && RIDGE_SCALE.Valid() && RasterCanopy(RIDGE_JOB, RIDGE_SCALE).Top(6)
  {
    var c := RasterCanopy(RIDGE_JOB, RIDGE_SCALE);
    RasterLevels();
    assert c.rows == 12 && c.cols == 1 && c.pixelM == 4.0 && c.topM == 5.0;
    hide RasterCanopy, C.Canopy.Peak, C.Canopy.Linked, C.Canopy.Top;
    ColumnPeak(c, 5);
    ColumnPeak(c, 6);
    forall q | c.Linked(6, q)
      ensures q == 6
    {
      OnlyItself(c, q);
    }
    AloneIsTop(c, 6);
  }

  lemma OnlyItself(c: C.Canopy, q: int)
    requires c.cols == 1 && c.pixelM == 4.0 && c.Valid() && c.Linked(6, q)
    requires c.level(6, 0) == 60.0 && c.level(7, 0) == 45.0 && !c.Peak(5)
    ensures q == 6
  {
    hide C.Canopy.Peak;
    ColumnNear(c, 6, q);
    assert c.Height(6) == c.level(6, 0) && c.Height(7) == c.level(7, 0);
    hide C.Canopy.Near, C.Canopy.Height;
  }

  /** A peak that is linked to no other is the top of its tree. */
  lemma AloneIsTop(c: C.Canopy, p: int)
    requires c.Valid() && c.Peak(p) && forall q :: c.Linked(p, q) ==> q == p
    ensures c.Top(p)
  {
    hide C.Canopy.Peak, C.Canopy.Linked;
    var f: int -> int := x => if x == p then 1 else 0;
    forall x, y | c.Linked(x, y)
      ensures f(x) == f(y)
    {
      C.LinkedIsSymmetric(c, x, y);
    }
    forall q | c.Connected(p, q)
      ensures p <= q
    {
      var path :| c.IsPath(path, p, q);
      C.SameAlongPath(c, f, path, p, q);
    }
  }

  /** In the buffer it belongs to the tree of row 5, a context row. */
  lemma NoTopInBuffer()
    ensures RIDGE_SCALE.Valid() && !BufferCanopy(LAST_CALL, RIDGE_SCALE).Top(2)
  {
    var c := BufferCanopy(LAST_CALL, RIDGE_SCALE);
    BufferLevels();
    assert c.rows == 8 && c.cols == 1 && c.pixelM == 4.0 && c.topM == 5.0;
    hide BufferCanopy, C.Canopy.Peak, C.Canopy.Near, C.Canopy.Connected;
    ColumnPeak(c, 1);
    ColumnPeak(c, 2);
    ColumnNear(c, 2, 1);
    assert c.Height(1) == c.level(1, 0) && c.Height(2) == c.level(2, 0);
    C.LinkedIsConnected(c, 2, 1);
  }

  /** The pass is right and its last call hands on row 6, yet the tree top of the raster in row 6 is none in
      the buffer of that call, so no call counts it. */
  lemma TreeIsLost()
    ensures RIDGE_JOB.Valid() && NeverShort(RIDGE_JOB) && RIDGE_SCALE.Valid() && RIDGE_JOB.margin == Halo(RIDGE_SCALE)
    ensures LAST_CALL in Process(RIDGE_JOB, Initial(RIDGE_JOB), 0).calls && LAST_CALL.from <= 6 < LAST_CALL.to
    ensures RasterCanopy(RIDGE_JOB, RIDGE_SCALE).Top(6)
    ensures InRaster(RIDGE_JOB, LAST_CALL, RIDGE_SCALE, 2) == 6 && !BufferCanopy(LAST_CALL, RIDGE_SCALE).Top(2)
  {
    RidgeIsRight();
    LastCallIsMade();
    TopInRaster();
    NoTopInBuffer();
    hide Process, RasterCanopy, BufferCanopy, NeverShort;
  }
}
