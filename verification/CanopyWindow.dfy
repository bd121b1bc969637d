/** The binomial smoothing of a height raster, and the peaks of a window of rows against those of the whole
    raster. */
module CanopyWindow {
  import opened Powers
  import opened Canopy
  import CrownTops
  import S = CanopyStrips

  /** The heights of a raster in row and column, with 0 m for unknown. */
  type Heights = (int, int) -> real

  /** Neighbour k of nine, row by row. */
  function Weight(k: int): int {
    var di, dj := k / 3 - 1, k % 3 - 1;
    (if di == 0 then 2 else 1) * (if dj == 0 then 2 else 1)
  }

  predicate HasNeighbour(rows: int, cols: int, i: int, j: int, k: int) {
    0 <= i + k / 3 - 1 < rows && 0 <= j + k % 3 - 1 < cols
  }

  /** The weighted height of neighbour k, if it exists. */
  function Weighted(rows: int, cols: int, h: Heights, i: int, j: int, k: int): real {
    if HasNeighbour(rows, cols, i, j, k) then Weight(k) as real * h(i + k / 3 - 1, j + k % 3 - 1) else 0.0
  }

  /** The weighted heights of the first n neighbours. */
  function WeightedSum(rows: int, cols: int, h: Heights, i: int, j: int, n: nat): real {
    if n == 0 then 0.0 else WeightedSum(rows, cols, h, i, j, n - 1) + Weighted(rows, cols, h, i, j, n - 1)
  }

  function WeightSum(rows: int, cols: int, i: int, j: int, n: nat): int {
    if n == 0 then 0 else
      WeightSum(rows, cols, i, j, n - 1) + if HasNeighbour(rows, cols, i, j, n - 1) then Weight(n - 1) else 0
  }

  /** The binomial mean of a pixel. */
  function Smooth(rows: int, cols: int, h: Heights, i: int, j: int): real {
    var w := WeightSum(rows, cols, i, j, 9);
    if w <= 0 then 0.0 else WeightedSum(rows, cols, h, i, j, 9) / w as real
  }

  lemma {:induction false} WeightGrows(rows: int, cols: int, i: int, j: int, n: nat)
    requires 0 <= i < rows && 0 <= j < cols
    ensures WeightSum(rows, cols, i, j, n) >= if n >= 5 then 4 else 0
  {
    if n > 0 { WeightGrows(rows, cols, i, j, n - 1); }
  }

  /** The loop of the smoothing at one pixel. */
  method SmoothAt(rows: int, cols: int, h: Heights, i: int, j: int) returns (level: real)
    requires 0 <= i < rows && 0 <= j < cols
    ensures level == Smooth(rows, cols, h, i, j)
  {
    hide Weight, WeightedSum, WeightSum;
    var total, weight := 0.0, 0;
    NoSums(rows, cols, h, i, j);
    for k := 0 to 9
      invariant total == WeightedSum(rows, cols, h, i, j, k) && weight == WeightSum(rows, cols, i, j, k)
    {
      SumsStep(rows, cols, h, i, j, k);
      var r, c := i + k / 3 - 1, j + k % 3 - 1;
      if 0 <= r < rows && 0 <= c < cols {
        var w := Weight(k);
        total := total + w as real * h(r, c);
        weight := weight + w;
      }
    }
    WeightGrows(rows, cols, i, j, 9);
    level := total / weight as real;
  }

  lemma NoSums(rows: int, cols: int, h: Heights, i: int, j: int)
    ensures WeightedSum(rows, cols, h, i, j, 0) == 0.0 && WeightSum(rows, cols, i, j, 0) == 0
  {
  }

  lemma SumsStep(rows: int, cols: int, h: Heights, i: int, j: int, k: nat)
    ensures WeightedSum(rows, cols, h, i, j, k + 1)
         == WeightedSum(rows, cols, h, i, j, k) + Weighted(rows, cols, h, i, j, k)
    ensures WeightSum(rows, cols, i, j, k + 1)
         == WeightSum(rows, cols, i, j, k) + if HasNeighbour(rows, cols, i, j, k) then Weight(k) else 0
  {
    hide Weighted, Weight;
  }

  // ----- a window of rows

  /** Rows `shift` to `shift + rows` of a raster of `total` rows. */
  datatype Window = Window(total: int, cols: nat, heights: Heights, shift: int, rows: nat, pixelM: real, topM: real)
  {
    predicate Valid() {
      0 <= shift && shift + rows <= total && cols > 0 && pixelM > 0.0
    }

    function WindowHeights(): Heights {
      (i, j) => heights(i + shift, j)
    }

    /** The smoothed window. */
    function Local(): Canopy {
      Canopy(rows, cols, (i, j) => Smooth(rows, cols, WindowHeights(), i, j), pixelM, topM)
    }

    /** The smoothed raster. */
    function Global(): Canopy
      requires total >= 0
    {
      Canopy(total, cols, (i, j) => Smooth(total, cols, heights, i, j), pixelM, topM)
    }

    /** Row i of the window has its neighbour rows in the window wherever the raster has them. */
    predicate Covered(i: int) {
      0 <= i < rows && (i > 0 || shift == 0) && (i + 1 < rows || shift + rows == total)
    }

    /** Row i has the whole halo of crown radius and smoothing around it, wherever the raster goes on. */
    predicate Central(i: int)
      requires Valid()
    {
      var margin := CrownTops.ReachOf(Local()) + 1;
      0 <= i < rows && (i >= margin || shift == 0) && (i + margin < rows || shift + rows == total)
    }
  }

  lemma {:induction false} SameSums(w: Window, i: int, j: int, n: nat)
    requires w.Valid() && w.Covered(i) && n <= 9
    ensures WeightedSum(w.rows, w.cols, w.WindowHeights(), i, j, n)
         == WeightedSum(w.total, w.cols, w.heights, i + w.shift, j, n)
    ensures WeightSum(w.rows, w.cols, i, j, n) == WeightSum(w.total, w.cols, i + w.shift, j, n)
  {
    if n > 0 {
      hide Weighted, Weight;
      SameSums(w, i, j, n - 1);
      SameNeighbour(w, i, j, n - 1);
    }
  }

  lemma SameNeighbour(w: Window, i: int, j: int, k: int)
    requires w.Valid() && w.Covered(i) && 0 <= k < 9
    ensures HasNeighbour(w.rows, w.cols, i, j, k) == HasNeighbour(w.total, w.cols, i + w.shift, j, k)
    ensures Weighted(w.rows, w.cols, w.WindowHeights(), i, j, k)
         == Weighted(w.total, w.cols, w.heights, i + w.shift, j, k)
  {
    hide Weight;
    var r, c := i + k / 3 - 1, j + k % 3 - 1;
    assert w.WindowHeights()(r, c) == w.heights(r + w.shift, c);
    assert (i + w.shift) + k / 3 - 1 == r + w.shift;
  }

  lemma SameLevel(w: Window, i: int, j: int)
    requires w.Valid() && w.Covered(i)
    ensures w.Local().level(i, j) == w.Global().level(i + w.shift, j)
  {
    hide WeightedSum, WeightSum;
    SameSums(w, i, j, 9);
  }

  /** The pixel of the raster of a pixel of the window. */
  function Up(w: Window, p: int): int {
    p + w.shift * w.cols
  }

  lemma UpCoordinates(w: Window, p: int)
    requires w.Valid()
    ensures w.Global().Row(Up(w, p)) == w.Local().Row(p) + w.shift && w.Global().Col(Up(w, p)) == w.Local().Col(p)
  {
    var q, r := p / w.cols, p % w.cols;
    assert Up(w, p) == w.cols * (q + w.shift) + r by {
      assert w.cols * (q + w.shift) == w.cols * q + w.cols * w.shift;
      assert w.cols * w.shift == w.shift * w.cols;
    }
    DivUnique(Up(w, p), w.cols, q + w.shift, r);
  }

  lemma SameHeight(w: Window, p: int)
    requires w.Valid() && w.Covered(w.Local().Row(p))
    ensures w.Local().Height(p) == w.Global().Height(Up(w, p))
  {
    hide Smooth;
    UpCoordinates(w, p);
    SameLevel(w, w.Local().Row(p), w.Local().Col(p));
  }

  lemma RowOfPixel(c: Canopy, p: int)
    requires c.Valid()
    ensures c.Pixel(p) <==> 0 <= c.Row(p) < c.rows
  {
    IndexOfCoordinates(c, p);
    InsideIsPixel(c, c.Row(p), c.Col(p));
  }

  lemma SameNear(w: Window, p: int, q: int)
    requires w.Valid() && w.Local().Pixel(p) && w.Central(w.Local().Row(p))
    ensures w.Local().Near(p, q) <==> w.Global().Near(Up(w, p), Up(w, q))
  {
    hide Smooth, CrownTops.ReachOf;
    CentralHeight(w, p);
    UpCoordinates(w, p);
    UpCoordinates(w, q);
  }

  /** A row within reach of a central row. */
  lemma RowsWithinReach(w: Window, i: int, r: int)
    requires w.Valid() && w.Central(i) && -CrownTops.ReachOf(w.Local()) <= r - i <= CrownTops.ReachOf(w.Local())
    ensures 0 <= r < w.rows <==> 0 <= r + w.shift < w.total
    ensures 0 <= r < w.rows ==> w.Covered(r)
  {
  }

  /** The pixels near a central pixel: the same in window and raster, at the same height. */
  lemma NearInWindow(w: Window, p: int, q: int)
    requires w.Valid() && w.Local().Pixel(p) && w.Central(w.Local().Row(p))
    ensures w.Local().Pixel(q) && w.Local().Near(p, q)
       <==> w.Global().Pixel(Up(w, q)) && w.Global().Near(Up(w, p), Up(w, q))
    ensures w.Local().Pixel(q) && w.Local().Near(p, q) ==> w.Local().Height(q) == w.Global().Height(Up(w, q))
  {
    SameNear(w, p, q);
    if w.Local().Near(p, q) { NearPixel(w, p, q); }
  }

  lemma NearPixel(w: Window, p: int, q: int)
    requires w.Valid() && w.Local().Pixel(p) && w.Central(w.Local().Row(p)) && w.Local().Near(p, q)
    ensures w.Local().Pixel(q) <==> w.Global().Pixel(Up(w, q))
    ensures w.Local().Pixel(q) ==> w.Local().Height(q) == w.Global().Height(Up(w, q))
  {
    hide Smooth, CrownTops.ReachOf;
    var local := w.Local();
    var i, r := local.Row(p), local.Row(q);
    CrownTops.WithinReach(local, local.Height(p), r - i, local.Col(q) - local.Col(p));
    RowsWithinReach(w, i, r);
    UpCoordinates(w, q);
    RowOfPixel(local, q);
    RowOfPixel(w.Global(), Up(w, q));
    if w.Covered(r) { SameHeight(w, q); }
  }

  /** A pixel with its whole halo in the window is a peak of the window exactly when it is a peak of the
      raster. */
  lemma SamePeaks(w: Window, p: int)
    requires w.Valid() && w.Local().Pixel(p) && w.Central(w.Local().Row(p))
    ensures w.Local().Peak(p) <==> w.Global().Peak(Up(w, p))
  {
    hide Smooth, CrownTops.ReachOf;
    var local, global := w.Local(), w.Global();
    UpCoordinates(w, p);
    RowOfPixel(local, p);
    RowOfPixel(global, Up(w, p));
    CentralHeight(w, p);
    forall q
      ensures (local.Pixel(q) && local.Near(p, q)) <==> (global.Pixel(Up(w, q)) && global.Near(Up(w, p), Up(w, q)))
      ensures local.Pixel(q) && local.Near(p, q) ==> local.Height(q) == global.Height(Up(w, q))
    {
      NearInWindow(w, p, q);
    }
    if local.Peak(p) {
      forall x | global.Pixel(x) && global.Near(Up(w, p), x)
        ensures global.Height(x) <= global.Height(Up(w, p))
      {
        assert Up(w, x - w.shift * w.cols) == x;
      }
    }
  }

  lemma CentralHeight(w: Window, p: int)
    requires w.Valid() && w.Local().Pixel(p) && w.Central(w.Local().Row(p))
    ensures w.Local().Height(p) == w.Global().Height(Up(w, p))
  {
    hide Smooth;
    CrownTops.RadiusBounded(w.Local(), 0.0);
    SameHeight(w, p);
  }

  /** Every row that a right strip-wise pass hands on has its halo in the buffer of its call. */
  lemma HandedRowIsCentral(job: S.Job, c: S.Call, w: Window, r: int)
    requires S.RightCall(job, c) && c.from <= r < c.to && w.Valid()
    requires job.margin == CrownTops.ReachOf(w.Local()) + 1
    requires w.total == job.end - job.from && w.shift == c.first - job.from && w.rows == |c.window|
    ensures w.Central(r - c.first)
  {
    hide CrownTops.ReachOf, Smooth;
  }

  // ----- the mean in plain numbers

  /** Inside the raster: a pixel counts four times, each neighbour at a side twice, each at a corner once. */
  lemma SmoothInside(rows: int, cols: int, h: Heights, i: int, j: int)
    requires 0 < i < rows - 1 && 0 < j < cols - 1
    ensures Smooth(rows, cols, h, i, j)
         == (4.0 * h(i, j) + 2.0 * (h(i - 1, j) + h(i + 1, j) + h(i, j - 1) + h(i, j + 1))
             + (h(i - 1, j - 1) + h(i - 1, j + 1) + h(i + 1, j - 1) + h(i + 1, j + 1))) / 16.0
  {
    hide WeightedSum, WeightSum, Weighted;
    NoSums(rows, cols, h, i, j);
    SumsStep(rows, cols, h, i, j, 0);
    SumsStep(rows, cols, h, i, j, 1);
    SumsStep(rows, cols, h, i, j, 2);
    SumsStep(rows, cols, h, i, j, 3);
    SumsStep(rows, cols, h, i, j, 4);
    SumsStep(rows, cols, h, i, j, 5);
    SumsStep(rows, cols, h, i, j, 6);
    SumsStep(rows, cols, h, i, j, 7);
    SumsStep(rows, cols, h, i, j, 8);
    NineTerms(rows, cols, h, i, j);
  }

  lemma NineTerms(rows: int, cols: int, h: Heights, i: int, j: int)
    requires 0 < i < rows - 1 && 0 < j < cols - 1
    ensures Weighted(rows, cols, h, i, j, 0) == h(i - 1, j - 1)
    ensures Weighted(rows, cols, h, i, j, 1) == 2.0 * h(i - 1, j)
    ensures Weighted(rows, cols, h, i, j, 2) == h(i - 1, j + 1)
    ensures Weighted(rows, cols, h, i, j, 3) == 2.0 * h(i, j - 1)
    ensures Weighted(rows, cols, h, i, j, 4) == 4.0 * h(i, j)
    ensures Weighted(rows, cols, h, i, j, 5) == 2.0 * h(i, j + 1)
    ensures Weighted(rows, cols, h, i, j, 6) == h(i + 1, j - 1)
    ensures Weighted(rows, cols, h, i, j, 7) == 2.0 * h(i + 1, j)
    ensures Weighted(rows, cols, h, i, j, 8) == h(i + 1, j + 1)
  {
  }

  /** A plane smooths to itself. */
  lemma PlaneStays(rows: int, cols: int, h: Heights, i: int, j: int, down: real, right: real)
    requires 0 < i < rows - 1 && 0 < j < cols - 1
    requires forall r, c | 0 <= r < rows && 0 <= c < cols ::
               h(r, c) == h(i, j) + down * (r - i) as real + right * (c - j) as real
    ensures Smooth(rows, cols, h, i, j) == h(i, j)
  {
    hide Smooth;
    SmoothInside(rows, cols, h, i, j);
  }
}
