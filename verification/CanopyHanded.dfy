/** The peaks and the tree tops of the rows that the strip-wise pass hands on, in the buffer of the call
    against the whole raster. */
module CanopyHanded {
  import C = Canopy
  import opened CanopyWindow
  import opened CanopyStrips
  import CrownTops

  // ----- the canopies of a buffer and of the raster

  /** The width of the rows and the sizes that trees are measured by. */
  datatype Scale = Scale(cols: nat, pixelM: real, topM: real)
  {
    predicate Valid() {
      cols > 0 && pixelM > 0.0
    }
  }

  /** The height of a pixel of a row, 0 m for unknown. */
  function HeightAt(line: Line, j: int): real {
    if 0 <= j < |line| && line[j].Some? then line[j].value else 0.0
  }

  function BufferHeights(window: seq<Line>): Heights {
    (i, j) => if 0 <= i < |window| then HeightAt(window[i], j) else 0.0
  }

  function RasterHeights(job: Job): Heights {
    (i, j) => HeightAt(job.raster(job.from + i), j)
  }

  function Smoothed(rows: nat, h: Heights, s: Scale): C.Canopy {
    C.Canopy(rows, s.cols, (i, j) => Smooth(rows, s.cols, h, i, j), s.pixelM, s.topM)
  }

  /** What the source looks for tree tops in. */
  function BufferCanopy(c: Call, s: Scale): C.Canopy {
    Smoothed(|c.window|, BufferHeights(c.window), s)
  }

  function RasterCanopy(job: Job, s: Scale): C.Canopy
    requires job.Valid()
  {
    Smoothed(job.end - job.from, RasterHeights(job), s)
  }

  /** The margin of the source: the widest crown and one pixel of the smoothing. */
  function Halo(s: Scale): int
    requires s.Valid()
  {
    CrownTops.Widest(s.pixelM) + 1
  }

  // ----- canopies that agree on their pixels

  ghost predicate Alike(c: C.Canopy, d: C.Canopy) {
    && c.rows == d.rows && c.cols == d.cols && c.pixelM == d.pixelM && c.topM == d.topM
    && forall i, j | 0 <= i < c.rows && 0 <= j < c.cols :: c.level(i, j) == d.level(i, j)
  }

  lemma AlikeHeight(c: C.Canopy, d: C.Canopy, p: int)
    requires c.Valid() && d.Valid() && Alike(c, d) && c.Pixel(p)
    ensures c.Height(p) == d.Height(p)
  {
    RowOfPixel(c, p);
    C.IndexOfCoordinates(c, p);
  }

  lemma AlikeNear(c: C.Canopy, d: C.Canopy, p: int, q: int)
    requires c.Valid() && d.Valid() && Alike(c, d) && c.Pixel(p)
    ensures c.Near(p, q) <==> d.Near(p, q)
  {
    AlikeHeight(c, d, p);
  }

  lemma AlikePeak(c: C.Canopy, d: C.Canopy, p: int)
    requires c.Valid() && d.Valid() && Alike(c, d)
    ensures c.Peak(p) <==> d.Peak(p)
  {
    if c.Pixel(p) {
      AlikeHeight(c, d, p);
      forall q | c.Pixel(q)
        ensures (c.Near(p, q) <==> d.Near(p, q)) && c.Height(q) == d.Height(q)
      {
        AlikeHeight(c, d, q);
        AlikeNear(c, d, p, q);
      }
      hide Alike;
    }
  }

  lemma {:induction false} SameWeightedSum(rows: int, cols: int, h: Heights, g: Heights, i: int, j: int, n: nat)
    requires forall r, c | 0 <= r < rows && 0 <= c < cols :: h(r, c) == g(r, c)
    ensures WeightedSum(rows, cols, h, i, j, n) == WeightedSum(rows, cols, g, i, j, n)
  {
    if n > 0 {
      SameWeightedSum(rows, cols, h, g, i, j, n - 1);
      hide Weighted;
      assert Weighted(rows, cols, h, i, j, n - 1) == Weighted(rows, cols, g, i, j, n - 1) by {
        SameWeighted(rows, cols, h, g, i, j, n - 1);
      }
    }
  }

  lemma SameWeighted(rows: int, cols: int, h: Heights, g: Heights, i: int, j: int, k: int)
    requires forall r, c | 0 <= r < rows && 0 <= c < cols :: h(r, c) == g(r, c)
    ensures Weighted(rows, cols, h, i, j, k) == Weighted(rows, cols, g, i, j, k)
  {
    hide Weight;
    var r, c := i + k / 3 - 1, j + k % 3 - 1;
    assert HasNeighbour(rows, cols, i, j, k) ==> h(r, c) == g(r, c);
  }

  /** The rows of a right call as a window of the raster. */
  function WindowOf(job: Job, c: Call, s: Scale): Window
    requires job.Valid()
  {
    Window(job.end - job.from, s.cols, RasterHeights(job), c.first - job.from, |c.window|, s.pixelM, s.topM)
  }

  lemma WindowRow(job: Job, c: Call, i: int)
    requires RightCall(job, c) && 0 <= i < |c.window|
    ensures c.window[i] == job.raster(c.first + i)
  {
    assert job.Rows(c.first, c.first + |c.window|)[i] == job.raster(c.first + i);
  }

  lemma BufferIsWindow(job: Job, c: Call, s: Scale)
    requires job.Valid() && s.Valid() && RightCall(job, c)
    ensures var w := WindowOf(job, c, s);
      w.Valid() && w.Global() == RasterCanopy(job, s) && Alike(BufferCanopy(c, s), w.Local())
  {
    var w := WindowOf(job, c, s);
    var h, g := BufferHeights(c.window), w.WindowHeights();
    forall i, j | 0 <= i < w.rows && 0 <= j < w.cols
      ensures h(i, j) == g(i, j)
    {
      WindowRow(job, c, i);
      assert w.heights(i + w.shift, j) == HeightAt(job.raster(job.from + (i + w.shift)), j);
    }
    hide RightCall;
    forall i, j | 0 <= i < w.rows && 0 <= j < w.cols
      ensures Smooth(w.rows, w.cols, h, i, j) == Smooth(w.rows, w.cols, g, i, j)
    {
      SameWeightedSum(w.rows, w.cols, h, g, i, j, 9);
      hide WeightedSum;
    }
    hide Smooth;
  }

  // ----- peaks

  /** The pixel of the raster of a pixel of the buffer. */
  function InRaster(job: Job, c: Call, s: Scale, p: int): int {
    p + (c.first - job.from) * s.cols
  }

  /** The row of the raster of a pixel of the buffer is handed on by the call. */
  predicate HandedOn(c: Call, s: Scale, p: int)
    requires s.Valid()
  {
    c.from <= c.first + p / s.cols < c.to
  }

  lemma HandedIsCentral(job: Job, c: Call, s: Scale, p: int)
    requires job.Valid() && s.Valid() && RightCall(job, c) && job.margin == Halo(s)
    requires BufferCanopy(c, s).Pixel(p) && HandedOn(c, s, p)
    ensures var w := WindowOf(job, c, s);
      w.Valid() && w.Local().Pixel(p) && w.Central(w.Local().Row(p))
  {
    hide Smooth;
    var w := WindowOf(job, c, s);
    HandedRowIsCentral(job, c, w, c.first + p / s.cols);
  }

  /** The mask of the peaks of each row that is handed on is that of the whole raster. */
  lemma HandedPeaks(job: Job, c: Call, s: Scale, p: int)
    requires job.Valid() && s.Valid() && RightCall(job, c) && job.margin == Halo(s)
    requires BufferCanopy(c, s).Pixel(p) && HandedOn(c, s, p)
    ensures BufferCanopy(c, s).Peak(p) <==> RasterCanopy(job, s).Peak(InRaster(job, c, s, p))
  {
    var w := WindowOf(job, c, s);
    BufferIsWindow(job, c, s);
    HandedIsCentral(job, c, s, p);
    hide Smooth, RightCall, Alike, C.Canopy.Peak;
    AlikePeak(BufferCanopy(c, s), w.Local(), p);
    SamePeaks(w, p);
  }

  /** The same by row and column. */
  lemma HandedPeaksAt(job: Job, c: Call, s: Scale, r: int, j: int)
    requires job.Valid() && s.Valid() && RightCall(job, c) && job.margin == Halo(s)
    requires c.from <= r < c.to && 0 <= j < s.cols
    ensures BufferCanopy(c, s).Peak((r - c.first) * s.cols + j)
       <==> RasterCanopy(job, s).Peak((r - job.from) * s.cols + j)
  {
    hide BufferCanopy, RasterCanopy, Halo;
    CanopiesValid(job, c, s);
    HandedPixel(job, c, s, r, j);
    SumOfRows(r - c.first, c.first - job.from, s.cols);
    HandedPeaks(job, c, s, (r - c.first) * s.cols + j);
  }

  lemma HandedPixel(job: Job, c: Call, s: Scale, r: int, j: int)
    requires job.Valid() && s.Valid() && RightCall(job, c) && c.from <= r < c.to && 0 <= j < s.cols
    ensures var p := (r - c.first) * s.cols + j; BufferCanopy(c, s).Pixel(p) && HandedOn(c, s, p)
  {
    hide Smooth;
    var buffer := BufferCanopy(c, s);
    C.Coordinates(buffer, r - c.first, j);
    C.InsideIsPixel(buffer, r - c.first, j);
  }

  lemma SumOfRows(a: int, b: int, cols: int)
    ensures a * cols + b * cols == (a + b) * cols
  {
  }

  // ----- trees

  /** Links between handed rows are the same in the buffer and in the raster. */
  lemma HandedLinks(job: Job, c: Call, s: Scale, p: int, q: int)
    requires job.Valid() && s.Valid() && RightCall(job, c) && job.margin == Halo(s)
    requires BufferCanopy(c, s).Pixel(p) && HandedOn(c, s, p) && BufferCanopy(c, s).Pixel(q) && HandedOn(c, s, q)
    ensures BufferCanopy(c, s).Linked(p, q)
       <==> RasterCanopy(job, s).Linked(InRaster(job, c, s, p), InRaster(job, c, s, q))
  {
    var w, buffer := WindowOf(job, c, s), BufferCanopy(c, s);
    HandedPeaks(job, c, s, p);
    HandedPeaks(job, c, s, q);
    BufferIsWindow(job, c, s);
    HandedIsCentral(job, c, s, p);
    HandedIsCentral(job, c, s, q);
    hide Smooth, RightCall, Alike, C.Canopy.Peak, C.Canopy.Near, C.Canopy.Height;
    AlikeHeight(buffer, w.Local(), p);
    AlikeHeight(buffer, w.Local(), q);
    AlikeNear(buffer, w.Local(), p, q);
    CentralHeight(w, p);
    CentralHeight(w, q);
    SameNear(w, p, q);
  }

  /** A shift that keeps the links of a tree keeps the tree together. */
  lemma PathShifts(c: C.Canopy, d: C.Canopy, k: int, path: seq<int>, p: int, q: int)
    requires c.Valid() && d.Valid() && c.IsPath(path, p, q)
    requires forall x, y | c.Connected(p, x) && c.Linked(x, y) :: d.Linked(x + k, y + k)
    ensures d.Connected(p + k, q + k)
  {
    hide C.Canopy.Linked;
    var moved := seq(|path|, i requires 0 <= i < |path| => path[i] + k);
    forall i | 0 <= i < |path| - 1
      ensures d.Linked(moved[i], moved[i + 1])
    {
      assert c.IsPath(path[..i + 1], p, path[i]);
      assert c.Connected(p, path[i]) && c.Linked(path[i], path[i + 1]);
    }
    assert d.IsPath(moved, p + k, q + k);
  }

  /** Every peak of the tree of a pixel of the buffer lies in a row that the call hands on. */
  ghost predicate TreeInBuffer(c: Call, s: Scale, p: int)
    requires s.Valid()
  {
    forall q | BufferCanopy(c, s).Connected(p, q) :: BufferCanopy(c, s).Pixel(q) && HandedOn(c, s, q)
  }

  /** The same for the tree of a pixel of the raster. */
  ghost predicate TreeInRaster(job: Job, c: Call, s: Scale, p: int)
    requires job.Valid() && s.Valid()
  {
    forall q | RasterCanopy(job, s).Connected(p, q) :: c.from <= job.from + q / s.cols < c.to
  }

  /** A pixel of a handed row of the raster is a pixel of the buffer. */
  lemma RowIsInBuffer(job: Job, c: Call, s: Scale, q: int)
    requires job.Valid() && s.Valid() && RightCall(job, c)
    requires c.from <= job.from + InRaster(job, c, s, q) / s.cols < c.to
    ensures BufferCanopy(c, s).Pixel(q) && HandedOn(c, s, q)
  {
    hide Smooth;
    var w := WindowOf(job, c, s);
    BufferIsWindow(job, c, s);
    UpCoordinates(w, q);
    RowOfPixel(BufferCanopy(c, s), q);
  }

  lemma BufferTreeInRaster(job: Job, c: Call, s: Scale, p: int, q: int)
    requires job.Valid() && s.Valid() && RightCall(job, c) && job.margin == Halo(s) && TreeInBuffer(c, s, p)
    requires BufferCanopy(c, s).Connected(p, q)
    ensures RasterCanopy(job, s).Connected(InRaster(job, c, s, p), InRaster(job, c, s, q))
  {
    var buffer, raster, k := BufferCanopy(c, s), RasterCanopy(job, s), (c.first - job.from) * s.cols;
    hide Smooth, RightCall, C.Canopy.Linked, C.Canopy.Pixel, HandedOn;
    forall x, y | buffer.Connected(p, x) && buffer.Linked(x, y)
      ensures raster.Linked(x + k, y + k)
    {
      C.LinkedIsConnected(buffer, x, y);
      C.ConnectedIsTransitive(buffer, p, x, y);
      HandedLinks(job, c, s, x, y);
    }
    var path :| buffer.IsPath(path, p, q);
    PathShifts(buffer, raster, k, path, p, q);
  }

  lemma RasterLinkInBuffer(job: Job, c: Call, s: Scale, top: int, x: int, y: int)
    requires job.Valid() && s.Valid() && RightCall(job, c) && job.margin == Halo(s) && TreeInRaster(job, c, s, top)
    requires var raster := RasterCanopy(job, s);
      raster.Connected(top, InRaster(job, c, s, x)) && raster.Linked(InRaster(job, c, s, x), InRaster(job, c, s, y))
    ensures BufferCanopy(c, s).Linked(x, y)
  {
    var raster, far := RasterCanopy(job, s), InRaster(job, c, s, y);
    hide Smooth, RightCall, C.Canopy.Linked, C.Canopy.Pixel, C.Canopy.Connected, HandedOn, Halo;
    C.LinkedIsConnected(raster, InRaster(job, c, s, x), far);
    C.ConnectedIsTransitive(raster, top, InRaster(job, c, s, x), far);
    RowIsInBuffer(job, c, s, x);
    RowIsInBuffer(job, c, s, y);
    HandedLinks(job, c, s, x, y);
  }

  lemma CanopiesValid(job: Job, c: Call, s: Scale)
    requires job.Valid() && s.Valid()
    ensures BufferCanopy(c, s).Valid() && RasterCanopy(job, s).Valid()
  {
  }

  lemma RasterTreeInBuffer(job: Job, c: Call, s: Scale, p: int, q: int)
    requires job.Valid() && s.Valid() && RightCall(job, c) && job.margin == Halo(s)
    requires TreeInRaster(job, c, s, InRaster(job, c, s, p))
    requires RasterCanopy(job, s).Connected(InRaster(job, c, s, p), InRaster(job, c, s, q))
    ensures BufferCanopy(c, s).Connected(p, q)
  {
    var buffer, raster, k := BufferCanopy(c, s), RasterCanopy(job, s), (c.first - job.from) * s.cols;
    var top := InRaster(job, c, s, p);
    hide RasterCanopy, BufferCanopy, RightCall, C.Canopy.Linked, C.Canopy.IsPath, TreeInRaster, Halo;
    assert buffer.Valid() && raster.Valid() by { CanopiesValid(job, c, s); }
    forall x, y | raster.Connected(top, x) && raster.Linked(x, y)
      ensures buffer.Linked(x + -k, y + -k)
    {
      assert InRaster(job, c, s, x - k) == x && InRaster(job, c, s, y - k) == y;
      RasterLinkInBuffer(job, c, s, top, x - k, y - k);
    }
    var path :| raster.IsPath(path, top, q + k);
    PathShifts(raster, buffer, -k, path, top, q + k);
  }

  /** A tree whose peaks all lie in rows that the call hands on has the same top in the buffer and in the
      raster. */
  lemma SameTop(job: Job, c: Call, s: Scale, p: int)
    requires job.Valid() && s.Valid() && RightCall(job, c) && job.margin == Halo(s)
    requires TreeInBuffer(c, s, p) && TreeInRaster(job, c, s, InRaster(job, c, s, p))
    ensures BufferCanopy(c, s).Top(p) <==> RasterCanopy(job, s).Top(InRaster(job, c, s, p))
  {
    var buffer, raster, k := BufferCanopy(c, s), RasterCanopy(job, s), (c.first - job.from) * s.cols;
    C.ConnectedToSelf(buffer, p);
    hide Smooth, RightCall, C.Canopy.Peak, C.Canopy.Connected;
    HandedPeaks(job, c, s, p);
    forall q | buffer.Connected(p, q)
      ensures raster.Connected(p + k, q + k)
    {
      BufferTreeInRaster(job, c, s, p, q);
    }
    var top := p + k;
    forall q | raster.Connected(top, q)
      ensures buffer.Connected(p, q - k)
    {
      RasterTreeInBuffer(job, c, s, p, q - k);
    }
    if raster.Top(top) {
      forall q | buffer.Connected(p, q)
        ensures p <= q
      {
        assert raster.Connected(p + k, q + k);
      }
    }
  }

  /** The margin is one more than the least number of whole pixels that 4 m take. */
  lemma HaloMeans(s: Scale)
    requires s.Valid()
    ensures (Halo(s) - 2) as real < 4.0 / s.pixelM <= (Halo(s) - 1) as real
  {
  }
}
