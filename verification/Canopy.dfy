/** The smoothed canopy of a raster window and its peaks. Exact reals stand for the floats. */
module Canopy {
  import opened Powers

  /** Pixels in raster order: pixel p lies in row p / cols and column p % cols. */
  datatype Canopy = Canopy(rows: nat, cols: nat, level: (int, int) -> real, pixelM: real, topM: real)
  {
    predicate Valid() {
      cols > 0 && pixelM > 0.0
    }

    function Size(): nat {
      rows * cols
    }

    predicate Inside(i: int, j: int) {
      0 <= i < rows && 0 <= j < cols
    }

    function Index(i: int, j: int): int {
      i * cols + j
    }

    function Row(p: int): int
      requires Valid()
    {
      p / cols
    }

    function Col(p: int): int
      requires Valid()
    {
      p % cols
    }

    function Height(p: int): real
      requires Valid()
    {
      level(Row(p), Col(p))
    }

    /** How many pixels a crown of a height reaches: linear in the height, but never below 1 m or above 4 m. */
    function CrownRadius(height: real): real
      requires Valid()
    {
      var metres := 0.5 + 0.08 * height;
      (if metres < 1.0 then 1.0 else if metres > 4.0 then 4.0 else metres) / pixelM
    }

    /** An offset lies within the crown of a height. */
    predicate Within(height: real, di: int, dj: int)
      requires Valid()
    {
      (di * di + dj * dj) as real <= CrownRadius(height) * CrownRadius(height)
    }

    /** Pixel q lies within the crown of pixel p. */
    predicate Near(p: int, q: int)
      requires Valid()
    {
      Within(Height(p), Row(q) - Row(p), Col(q) - Col(p))
    }

    predicate Pixel(p: int) {
      0 <= p < Size()
    }

    /** High enough, and no pixel within the crown is higher. */
    ghost predicate Peak(p: int)
      requires Valid()
    {
      Pixel(p) && Height(p) >= topM && forall q | Pixel(q) && Near(p, q) :: Height(q) <= Height(p)
    }

    /** Two peaks of one height within the crown of each other. */
    ghost predicate Linked(p: int, q: int)
      requires Valid()
    {
      Peak(p) && Peak(q) && Height(p) == Height(q) && Near(p, q)
    }

    ghost predicate IsPath(path: seq<int>, p: int, q: int)
      requires Valid()
    {
      && path != [] && path[0] == p && path[|path| - 1] == q
      && forall k | 0 <= k < |path| - 1 :: Linked(path[k], path[k + 1])
    }

    /** One tree: linked directly or through other peaks. */
    ghost predicate Connected(p: int, q: int)
      requires Valid()
    {
      exists path :: IsPath(path, p, q)
    }

    /** The top of a tree: its first peak in raster order. */
    ghost predicate Top(p: int)
      requires Valid()
    {
      Peak(p) && forall q | Connected(p, q) :: p <= q
    }
  }

  // ----- coordinates

  lemma Coordinates(c: Canopy, i: int, j: int)
    requires c.Valid() && 0 <= j < c.cols
    ensures c.Row(c.Index(i, j)) == i && c.Col(c.Index(i, j)) == j
  {
    assert c.cols * i == i * c.cols;
    DivUnique(c.Index(i, j), c.cols, i, j);
  }

  lemma IndexOfCoordinates(c: Canopy, p: int)
    requires c.Valid()
    ensures c.Index(c.Row(p), c.Col(p)) == p && 0 <= c.Col(p) < c.cols
  {
    assert c.cols * (p / c.cols) == (p / c.cols) * c.cols;
  }

  lemma InsideIsPixel(c: Canopy, i: int, j: int)
    requires c.Valid() && 0 <= j < c.cols
    ensures 0 <= i < c.rows <==> c.Pixel(c.Index(i, j))
  {
    MulBounds(i, c.rows, c.cols, j);
  }

  lemma MulBounds(i: int, rows: int, cols: int, j: int)
    requires cols > 0 && 0 <= j < cols
    ensures 0 <= i < rows <==> 0 <= i * cols + j < rows * cols
  {
    MulOrdered(i + 1, 0, cols);
    MulOrdered(0, i, cols);
    MulOrdered(i + 1, rows, cols);
    MulOrdered(rows, i, cols);
    MulNext(i, cols);
  }

  lemma MulNext(i: int, cols: int)
    ensures (i + 1) * cols == i * cols + cols
  {
  }

  lemma MulOrdered(a: int, b: int, cols: int)
    requires cols > 0
    ensures a <= b ==> a * cols <= b * cols
  {
    if a <= b { assert (b - a) * cols >= 0; }
  }

  /** Raster order is the order of rows, then of columns. */
  lemma RasterOrder(c: Canopy, i: int, j: int, r: int, s: int)
    requires c.Valid() && 0 <= j < c.cols && 0 <= s < c.cols
    ensures c.Index(r, s) < c.Index(i, j) <==> r < i || (r == i && s < j)
  {
    OrderStep(i, r, c.cols, j, s);
    OrderStep(r, i, c.cols, s, j);
  }

  lemma OrderStep(i: int, r: int, cols: int, j: int, s: int)
    requires cols > 0 && 0 <= j < cols && 0 <= s < cols
    ensures r < i ==> r * cols + s < i * cols + j
  {
    MulOrdered(r + 1, i, cols);
    MulNext(r, cols);
  }

  // ----- trees

  lemma NearIsSymmetric(c: Canopy, p: int, q: int)
    requires c.Valid() && c.Height(p) == c.Height(q) && c.Near(p, q)
    ensures c.Near(q, p)
  {
    var di, dj := c.Row(q) - c.Row(p), c.Col(q) - c.Col(p);
    assert di * di == (-di) * (-di) && dj * dj == (-dj) * (-dj);
  }

  lemma LinkedIsSymmetric(c: Canopy, p: int, q: int)
    requires c.Valid() && c.Linked(p, q)
    ensures c.Linked(q, p)
  {
    NearIsSymmetric(c, p, q);
  }

  lemma ConnectedToSelf(c: Canopy, p: int)
    requires c.Valid()
    ensures c.Connected(p, p)
  {
    assert c.IsPath([p], p, p);
  }

  lemma {:induction false} PathsReverse(c: Canopy, path: seq<int>, p: int, q: int) returns (back: seq<int>)
    requires c.Valid() && c.IsPath(path, p, q)
    ensures c.IsPath(back, q, p)
    decreases |path|
  {
    if |path| == 1 {
      back := path;
    } else {
      var rest := PathsReverse(c, path[1..], path[1], q);
      LinkedIsSymmetric(c, path[0], path[1]);
      back := rest + [p];
    }
  }

  lemma ConnectedIsSymmetric(c: Canopy, p: int, q: int)
    requires c.Valid() && c.Connected(p, q)
    ensures c.Connected(q, p)
  {
    var path :| c.IsPath(path, p, q);
    var back := PathsReverse(c, path, p, q);
  }

  lemma ConnectedIsTransitive(c: Canopy, p: int, q: int, r: int)
    requires c.Valid() && c.Connected(p, q) && c.Connected(q, r)
    ensures c.Connected(p, r)
  {
    var a :| c.IsPath(a, p, q);
    var b :| c.IsPath(b, q, r);
    PathsJoin(c, a, b, p, q, r);
  }

  lemma PathsJoin(c: Canopy, a: seq<int>, b: seq<int>, p: int, q: int, r: int)
    requires c.Valid() && c.IsPath(a, p, q) && c.IsPath(b, q, r)
    ensures c.IsPath(a + b[1..], p, r)
  {
    var ab := a + b[1..];
    forall k | 0 <= k < |ab| - 1
      ensures c.Linked(ab[k], ab[k + 1])
    {
      if k < |a| - 1 {
        assert ab[k] == a[k] && ab[k + 1] == a[k + 1];
      } else {
        var m := k - (|a| - 1);
        assert ab[k] == b[m] && ab[k + 1] == b[m + 1];
      }
    }
    assert ab[|ab| - 1] == b[|b| - 1];
  }

  lemma LinkedIsConnected(c: Canopy, p: int, q: int)
    requires c.Valid() && c.Linked(p, q)
    ensures c.Connected(p, q)
  {
    assert c.IsPath([p, q], p, q);
  }

  /** A property that links carry over holds along paths. */
  lemma {:induction false} SameAlongPath(c: Canopy, f: int -> int, path: seq<int>, p: int, q: int)
    requires c.Valid() && c.IsPath(path, p, q)
    requires forall x, y | c.Linked(x, y) :: f(x) == f(y)
    ensures f(p) == f(q)
    decreases |path|
  {
    if |path| > 1 {
      assert c.Linked(path[0], path[1]);
      SameAlongPath(c, f, path[1..], path[1], q);
    }
  }

  // ----- the crown

  /** A crown reaches 0.5 m and 0.08 of the height between 6.25 m and 43.75 m of height, 1 m for lower trees
      and 4 m for higher ones. */
  lemma CrownMeans(c: Canopy, height: real)
    requires c.Valid()
    ensures height <= 6.25 ==> c.CrownRadius(height) == 1.0 / c.pixelM
    ensures 6.25 <= height <= 43.75 ==> c.CrownRadius(height) == (0.5 + 0.08 * height) / c.pixelM
    ensures height >= 43.75 ==> c.CrownRadius(height) == 4.0 / c.pixelM
  {
  }

  /** A pixel lies within the crown exactly when its distance squared is at most the radius squared. */
  lemma NearMeans(c: Canopy, i: int, j: int, r: int, s: int)
    requires c.Valid() && 0 <= j < c.cols && 0 <= s < c.cols
    ensures c.Near(c.Index(i, j), c.Index(r, s))
       <==> ((r - i) * (r - i) + (s - j) * (s - j)) as real
            <= c.CrownRadius(c.level(i, j)) * c.CrownRadius(c.level(i, j))
  {
    Coordinates(c, i, j);
    Coordinates(c, r, s);
  }
}
