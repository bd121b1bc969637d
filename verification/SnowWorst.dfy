/** The worst case of a square of pixels in one season, and the pyramid that `worst` builds 2 x 2 at a
    time. */
module SnowWorst {
  import opened Wrappers
  import opened SnowBytes
  import opened Powers

  // ----- the rule of the source, over a list of pixels

  function MinOnset(pixels: seq<Pair>): int {
    if pixels == [] then NO_DATA else
      var rest := MinOnset(pixels[1..]);
      if pixels[0].onset <= LAST_STEP && pixels[0].onset < rest then pixels[0].onset else rest
  }

  function MaxMeltout(pixels: seq<Pair>): int {
    if pixels == [] then 0 else
      var rest := MaxMeltout(pixels[1..]);
      if pixels[0].onset <= LAST_STEP && pixels[0].meltout > rest then pixels[0].meltout else rest
  }

  function WorstOf(pixels: seq<Pair>): Pair {
    var full := exists p | p in pixels :: p.onset == FULL;
    var dated := exists p | p in pixels :: p.onset <= LAST_STEP;
    if dated && !full then Pair(MinOnset(pixels), MaxMeltout(pixels))
    else if full then Sentinel(FULL)
    else if exists p | p in pixels :: p.onset == NO_SNOW then Sentinel(NO_SNOW)
    else Sentinel(NO_DATA)
  }

  // ----- the worst case of a set of pixels

  ghost predicate AllCoherent(s: set<Pair>) {
    forall p | p in s :: Coherent(p)
  }

  /** The smallest pair of day steps around every dated pixel. */
  ghost predicate Hull(s: set<Pair>, w: Pair) {
    && Dated(w)
    && (forall p | p in s && Dated(p) :: w.onset <= p.onset && p.meltout <= w.meltout)
    && (exists p | p in s :: Dated(p) && p.onset == w.onset)
    && (exists p | p in s :: Dated(p) && p.meltout == w.meltout)
  }

  ghost predicate IsWorst(s: set<Pair>, w: Pair) {
    if Sentinel(FULL) in s then w == Sentinel(FULL)
    else if exists p | p in s :: Dated(p) then Hull(s, w)
    else if Sentinel(NO_SNOW) in s then w == Sentinel(NO_SNOW)
    else w == Sentinel(NO_DATA)
  }

  lemma WorstIsUnique(s: set<Pair>, v: Pair, w: Pair)
    requires IsWorst(s, v) && IsWorst(s, w)
    ensures v == w
  {
  }

  lemma Members(pixels: seq<Pair>)
    requires pixels != []
    ensures pixels[0] in pixels
    ensures forall p :: p in pixels <==> p == pixels[0] || p in pixels[1..]
  {
  }

  lemma {:induction false} ExtremesBound(pixels: seq<Pair>)
    requires forall p | p in pixels :: Coherent(p)
    ensures forall p | p in pixels && Dated(p) :: MinOnset(pixels) <= p.onset && p.meltout <= MaxMeltout(pixels)
  {
    if pixels != [] {
      Members(pixels);
      ExtremesBound(pixels[1..]);
    }
  }

  lemma {:induction false} ExtremesAttained(pixels: seq<Pair>, q: Pair) returns (first: Pair, last: Pair)
    requires forall p | p in pixels :: Coherent(p)
    requires q in pixels && Dated(q)
    ensures first in pixels && Dated(first) && first.onset == MinOnset(pixels)
    ensures last in pixels && Dated(last) && last.meltout == MaxMeltout(pixels)
  {
    var head, rest := pixels[0], pixels[1..];
    Members(pixels);
    NoneDated(rest);
    if exists p | p in rest :: Dated(p) {
      var p :| p in rest && Dated(p);
      first, last := ExtremesAttained(rest, p);
      if Dated(head) && head.onset < first.onset { first := head; }
      if Dated(head) && head.meltout > last.meltout { last := head; }
    } else {
      first, last := head, head;
    }
  }

  lemma {:induction false} NoneDated(pixels: seq<Pair>)
    requires forall p | p in pixels :: Coherent(p)
    ensures (forall p | p in pixels :: !Dated(p)) ==> MinOnset(pixels) == NO_DATA && MaxMeltout(pixels) == 0
  {
    if pixels != [] {
      Members(pixels);
      NoneDated(pixels[1..]);
    }
  }

  /** The rule of the source gives the worst case of its pixels. */
  lemma WorstOfIsWorst(pixels: seq<Pair>, s: set<Pair>)
    requires AllCoherent(s) && s == set p | p in pixels
    ensures IsWorst(s, WorstOf(pixels))
  {
    assert forall p | p in pixels :: p in s && Coherent(p);
    if Sentinel(FULL) in s {
      assert Sentinel(FULL) in pixels;
    } else if exists p | p in s :: Dated(p) {
      var q :| q in s && Dated(q);
      var first, last := ExtremesAttained(pixels, q);
      ExtremesBound(pixels);
      assert first in s && last in s;
      assert WorstOf(pixels) == Pair(first.onset, last.meltout);
    } else if Sentinel(NO_SNOW) in s {
      assert Sentinel(NO_SNOW) in pixels;
    }
  }

  lemma WorstIsCoherent(s: set<Pair>, w: Pair)
    requires IsWorst(s, w)
    ensures Coherent(w)
  {
  }

  /** The worst case of the worst cases of two sets is the worst case of their union. */
  lemma WorstOfUnion(s: set<Pair>, t: set<Pair>, v: Pair, w: Pair, r: Pair)
    requires AllCoherent(s) && AllCoherent(t)
    requires IsWorst(s, v) && IsWorst(t, w) && IsWorst({v, w}, r)
    ensures IsWorst(s + t, r)
  {
    if Sentinel(FULL) !in s + t && exists p | p in s + t :: Dated(p) {
      assert v in {v, w} && w in {v, w};
      assert Hull(s + t, r);
    }
  }

  // ----- the join of two pixels

  function Join(a: Pair, b: Pair): Pair {
    WorstOf([a, b])
  }

  lemma JoinIsWorst(a: Pair, b: Pair)
    requires Coherent(a) && Coherent(b)
    ensures IsWorst({a, b}, Join(a, b)) && Coherent(Join(a, b))
  {
    assert {a, b} == set p | p in [a, b];
    WorstOfIsWorst([a, b], {a, b});
  }

  /** Associative, commutative and idempotent, with 255 neutral and 254 on top. */
  lemma JoinLaws(a: Pair, b: Pair, c: Pair)
    requires Coherent(a) && Coherent(b) && Coherent(c)
    ensures Join(a, b) == Join(b, a)
    ensures Join(Join(a, b), c) == Join(a, Join(b, c))
    ensures Join(a, a) == a
    ensures Join(a, Sentinel(NO_DATA)) == a
    ensures Join(a, Sentinel(FULL)) == Sentinel(FULL)
  {
    JoinCommutes(a, b);
    JoinAssociates(a, b, c);
    JoinBounds(a);
  }

  lemma JoinBounds(a: Pair)
    requires Coherent(a)
    ensures Join(a, a) == a
    ensures Join(a, Sentinel(NO_DATA)) == a
    ensures Join(a, Sentinel(FULL)) == Sentinel(FULL)
  {
    hide Join;
    JoinIsWorst(a, a);
    JoinIsWorst(a, Sentinel(NO_DATA));
    JoinIsWorst(a, Sentinel(FULL));
  }

  lemma JoinCommutes(a: Pair, b: Pair)
    requires Coherent(a) && Coherent(b)
    ensures Join(a, b) == Join(b, a)
  {
    hide Join, IsWorst;
    JoinIsWorst(a, b);
    JoinIsWorst(b, a);
    assert {a, b} == {b, a};
    WorstIsUnique({a, b}, Join(a, b), Join(b, a));
  }

  lemma WorstOfOne(a: Pair)
    requires Coherent(a)
    ensures IsWorst({a}, a)
  {
  }

  lemma JoinAssociates(a: Pair, b: Pair, c: Pair)
    requires Coherent(a) && Coherent(b) && Coherent(c)
    ensures Join(Join(a, b), c) == Join(a, Join(b, c))
  {
    hide Join, IsWorst;
    JoinIsWorst(a, b);
    JoinIsWorst(b, c);
    WorstOfOne(a);
    WorstOfOne(c);
    JoinIsWorst(Join(a, b), c);
    JoinIsWorst(a, Join(b, c));
    WorstOfUnion({a, b}, {c}, Join(a, b), c, Join(Join(a, b), c));
    WorstOfUnion({a}, {b, c}, a, Join(b, c), Join(a, Join(b, c)));
    assert {a, b} + {c} == {a} + {b, c};
    WorstIsUnique({a, b} + {c}, Join(Join(a, b), c), Join(a, Join(b, c)));
  }

  /** The rule over four pixels is the join of two joins. */
  lemma WorstOfFour(a: Pair, b: Pair, c: Pair, d: Pair)
    requires Coherent(a) && Coherent(b) && Coherent(c) && Coherent(d)
    ensures WorstOf([a, b, c, d]) == Join(Join(a, b), Join(c, d))
  {
    hide Join, IsWorst, WorstOf;
    JoinIsWorst(a, b);
    JoinIsWorst(c, d);
    JoinIsWorst(Join(a, b), Join(c, d));
    WorstOfUnion({a, b}, {c, d}, Join(a, b), Join(c, d), Join(Join(a, b), Join(c, d)));
    assert {a, b} + {c, d} == set p | p in [a, b, c, d];
    WorstOfIsWorst([a, b, c, d], {a, b} + {c, d});
    WorstIsUnique({a, b} + {c, d}, WorstOf([a, b, c, d]), Join(Join(a, b), Join(c, d)));
  }

  // ----- the pyramid

  type Image = (int, int) -> Pair

  /** Pixel (r, c) of the image n zooms up: each zoom takes the worst case of 2 x 2 pixels. */
  function Pyramid(image: Image, n: nat, r: int, c: int): Pair {
    if n == 0 then image(r, c) else
      WorstOf([Pyramid(image, n - 1, 2 * r, 2 * c), Pyramid(image, n - 1, 2 * r, 2 * c + 1),
               Pyramid(image, n - 1, 2 * r + 1, 2 * c), Pyramid(image, n - 1, 2 * r + 1, 2 * c + 1)])
  }

  /** The pixels of a square. */
  ghost function Pixels(image: Image, top: int, left: int, size: int): set<Pair> {
    set r, c | top <= r < top + size && left <= c < left + size :: image(r, c)
  }

  ghost predicate CoherentImage(image: Image) {
    forall r, c :: Coherent(image(r, c))
  }

  lemma PixelsSplit(image: Image, top: int, left: int, h: int)
    requires h > 0
    ensures Pixels(image, top, left, 2 * h) ==
            (Pixels(image, top, left, h) + Pixels(image, top, left + h, h))
            + (Pixels(image, top + h, left, h) + Pixels(image, top + h, left + h, h))
  {
    var whole := Pixels(image, top, left, 2 * h);
    var parts := (Pixels(image, top, left, h) + Pixels(image, top, left + h, h))
                 + (Pixels(image, top + h, left, h) + Pixels(image, top + h, left + h, h));
    forall p | p in whole
      ensures p in parts
    {
      var r, c :| top <= r < top + 2 * h && left <= c < left + 2 * h && p == image(r, c);
    }
    forall p | p in parts
      ensures p in whole
    {
    }
  }

  lemma WorstOfQuarters(s1: set<Pair>, s2: set<Pair>, s3: set<Pair>, s4: set<Pair>,
                        a: Pair, b: Pair, c: Pair, d: Pair)
    requires AllCoherent(s1) && AllCoherent(s2) && AllCoherent(s3) && AllCoherent(s4)
    requires IsWorst(s1, a) && IsWorst(s2, b) && IsWorst(s3, c) && IsWorst(s4, d)
    ensures IsWorst((s1 + s2) + (s3 + s4), WorstOf([a, b, c, d]))
  {
    hide Join, IsWorst, WorstOf;
    WorstIsCoherent(s1, a);
    WorstIsCoherent(s2, b);
    WorstIsCoherent(s3, c);
    WorstIsCoherent(s4, d);
    JoinIsWorst(a, b);
    JoinIsWorst(c, d);
    WorstOfUnion(s1, s2, a, b, Join(a, b));
    WorstOfUnion(s3, s4, c, d, Join(c, d));
    JoinIsWorst(Join(a, b), Join(c, d));
    WorstOfUnion(s1 + s2, s3 + s4, Join(a, b), Join(c, d), Join(Join(a, b), Join(c, d)));
    WorstOfFour(a, b, c, d);
  }

  /** Any number of zooms: the pixel is the worst case of all 4^n pixels below it at once. */
  lemma {:induction false} PyramidIsWorst(image: Image, n: nat, r: int, c: int)
    requires CoherentImage(image)
    ensures IsWorst(Pixels(image, r * Pow2(n), c * Pow2(n), Pow2(n)), Pyramid(image, n, r, c))
  {
    hide IsWorst, WorstOf, Pixels;
    if n == 0 {
      OnePixel(image, r, c);
      assert r * Pow2(0) == r && c * Pow2(0) == c;
    } else {
      var h := Pow2(n - 1);
      PyramidIsWorst(image, n - 1, 2 * r, 2 * c);
      PyramidIsWorst(image, n - 1, 2 * r, 2 * c + 1);
      PyramidIsWorst(image, n - 1, 2 * r + 1, 2 * c);
      PyramidIsWorst(image, n - 1, 2 * r + 1, 2 * c + 1);
      Doubled(r, h);
      Doubled(c, h);
      QuartersAreWorst(image, r * Pow2(n), c * Pow2(n), h, Pyramid(image, n - 1, 2 * r, 2 * c),
                       Pyramid(image, n - 1, 2 * r, 2 * c + 1), Pyramid(image, n - 1, 2 * r + 1, 2 * c),
                       Pyramid(image, n - 1, 2 * r + 1, 2 * c + 1));
    }
  }

  lemma OnePixel(image: Image, r: int, c: int)
    requires CoherentImage(image)
    ensures IsWorst(Pixels(image, r, c, 1), image(r, c))
  {
    assert Pixels(image, r, c, 1) == {image(r, c)};
    WorstOfOne(image(r, c));
  }

  lemma QuartersAreWorst(image: Image, top: int, left: int, h: int, a: Pair, b: Pair, c: Pair, d: Pair)
    requires CoherentImage(image) && h > 0
    requires IsWorst(Pixels(image, top, left, h), a) && IsWorst(Pixels(image, top, left + h, h), b)
    requires IsWorst(Pixels(image, top + h, left, h), c) && IsWorst(Pixels(image, top + h, left + h, h), d)
    ensures IsWorst(Pixels(image, top, left, 2 * h), WorstOf([a, b, c, d]))
  {
    hide IsWorst, WorstOf;
    PixelsSplit(image, top, left, h);
    WorstOfQuarters(Pixels(image, top, left, h), Pixels(image, top, left + h, h),
                    Pixels(image, top + h, left, h), Pixels(image, top + h, left + h, h), a, b, c, d);
  }

  lemma Doubled(r: int, h: int)
    ensures 2 * r * h == r * (2 * h) && (2 * r + 1) * h == r * (2 * h) + h
  {
  }

  // ----- one tile from four

  const SEASON_TILE := 64

  predicate IsTile(tile: seq<seq<Pair>>) {
    |tile| == SEASON_TILE && forall r | 0 <= r < SEASON_TILE :: |tile[r]| == SEASON_TILE
  }

  predicate AreTiles(below: seq<Option<seq<seq<Pair>>>>) {
    |below| == 4 && forall k | 0 <= k < 4 && below[k].Some? :: IsTile(below[k].value)
  }

  /** The four tiles one zoom deeper as one image; tile (dx, dy) has index 2 dy + dx. A missing tile
      has no data. */
  function Mosaic(below: seq<Option<seq<seq<Pair>>>>, r: int, c: int): Pair
    requires AreTiles(below) && 0 <= r < 2 * SEASON_TILE && 0 <= c < 2 * SEASON_TILE
  {
    var tile := below[2 * (r / SEASON_TILE) + c / SEASON_TILE];
    if tile.None? then Sentinel(NO_DATA) else tile.value[r % SEASON_TILE][c % SEASON_TILE]
  }

  function Shrunk(below: seq<Option<seq<seq<Pair>>>>, r: int, c: int): Pair
    requires AreTiles(below) && 0 <= r < SEASON_TILE && 0 <= c < SEASON_TILE
  {
    WorstOf([Mosaic(below, 2 * r, 2 * c), Mosaic(below, 2 * r, 2 * c + 1),
             Mosaic(below, 2 * r + 1, 2 * c), Mosaic(below, 2 * r + 1, 2 * c + 1)])
  }

  /** Fills the tile quarter by quarter; each pixel is the worst case of its 2 x 2 pixels. */
  method Worst(below: seq<Option<seq<seq<Pair>>>>) returns (out: array2<Pair>)
    requires AreTiles(below)
    ensures out.Length0 == out.Length1 == SEASON_TILE
    ensures forall r, c | 0 <= r < SEASON_TILE && 0 <= c < SEASON_TILE :: out[r, c] == Shrunk(below, r, c)
  {
    out := new Pair[SEASON_TILE, SEASON_TILE]((_, _) => Sentinel(NO_DATA));
    FillQuarter(out, below, 0, 0);
    FillQuarter(out, below, 1, 0);
    FillQuarter(out, below, 0, 1);
    FillQuarter(out, below, 1, 1);
  }

  const HALF := 32

  /** One quarter; the quarter of a missing tile stays as it is, without data. */
  method FillQuarter(out: array2<Pair>, below: seq<Option<seq<seq<Pair>>>>, dx: int, dy: int)
    requires AreTiles(below) && 0 <= dx < 2 && 0 <= dy < 2
    requires out.Length0 == out.Length1 == SEASON_TILE
    requires forall r, c | HALF * dy <= r < HALF * dy + HALF && HALF * dx <= c < HALF * dx + HALF ::
               out[r, c] == Sentinel(NO_DATA)
    modifies out
    ensures forall r, c | 0 <= r < SEASON_TILE && 0 <= c < SEASON_TILE ::
              out[r, c] == if HALF * dy <= r < HALF * dy + HALF && HALF * dx <= c < HALF * dx + HALF
                           then Shrunk(below, r, c) else old(out[r, c])
  {
    hide Shrunk, WorstOf;
    var tile := below[2 * dy + dx];
    if tile.None? {
      forall r, c | HALF * dy <= r < HALF * dy + HALF && HALF * dx <= c < HALF * dx + HALF
        ensures Shrunk(below, r, c) == Sentinel(NO_DATA)
      {
        ShrunkMissing(below, dx, dy, r, c);
      }
      return;
    }
    for i := 0 to HALF
      invariant forall r, c | 0 <= r < SEASON_TILE && 0 <= c < SEASON_TILE ::
                  out[r, c] == if HALF * dy <= r < HALF * dy + i && HALF * dx <= c < HALF * dx + HALF
                               then Shrunk(below, r, c) else old(out[r, c])
    {
      FillRow(out, below, dx, dy, i);
    }
  }

  method FillRow(out: array2<Pair>, below: seq<Option<seq<seq<Pair>>>>, dx: int, dy: int, i: int)
    requires AreTiles(below) && 0 <= dx < 2 && 0 <= dy < 2 && 0 <= i < HALF && below[2 * dy + dx].Some?
    requires out.Length0 == out.Length1 == SEASON_TILE
    modifies out
    ensures forall r, c | 0 <= r < SEASON_TILE && 0 <= c < SEASON_TILE ::
              out[r, c] == if r == HALF * dy + i && HALF * dx <= c < HALF * dx + HALF
                           then Shrunk(below, r, c) else old(out[r, c])
  {
    hide Shrunk, WorstOf;
    var child := below[2 * dy + dx].value;
    for j := 0 to HALF
      invariant forall r, c | 0 <= r < SEASON_TILE && 0 <= c < SEASON_TILE ::
                  out[r, c] == if r == HALF * dy + i && HALF * dx <= c < HALF * dx + j
                               then Shrunk(below, r, c) else old(out[r, c])
    {
      var four := [child[2 * i][2 * j], child[2 * i][2 * j + 1], child[2 * i + 1][2 * j], child[2 * i + 1][2 * j + 1]];
      out[HALF * dy + i, HALF * dx + j] := WorstOf(four);
      ShrunkPresent(below, dx, dy, i, j);
    }
  }

  lemma ShrunkMissing(below: seq<Option<seq<seq<Pair>>>>, dx: int, dy: int, r: int, c: int)
    requires AreTiles(below) && 0 <= dx < 2 && 0 <= dy < 2 && below[2 * dy + dx].None?
    requires HALF * dy <= r < HALF * dy + HALF && HALF * dx <= c < HALF * dx + HALF
    ensures Shrunk(below, r, c) == Sentinel(NO_DATA)
  {
    assert 2 * r / SEASON_TILE == dy && (2 * r + 1) / SEASON_TILE == dy;
    assert 2 * c / SEASON_TILE == dx && (2 * c + 1) / SEASON_TILE == dx;
  }

  lemma ShrunkPresent(below: seq<Option<seq<seq<Pair>>>>, dx: int, dy: int, i: int, j: int)
    requires AreTiles(below) && 0 <= dx < 2 && 0 <= dy < 2 && below[2 * dy + dx].Some?
    requires 0 <= i < HALF && 0 <= j < HALF
    ensures var child := below[2 * dy + dx].value;
      Shrunk(below, HALF * dy + i, HALF * dx + j) ==
      WorstOf([child[2 * i][2 * j], child[2 * i][2 * j + 1], child[2 * i + 1][2 * j], child[2 * i + 1][2 * j + 1]])
  {
    hide WorstOf;
    TilePlace(dy, i);
    TilePlace(dx, j);
  }

  lemma TilePlace(d: int, i: int)
    requires 0 <= d < 2 && 0 <= i < HALF
    ensures var r := 2 * (HALF * d + i);
      && r / SEASON_TILE == d && (r + 1) / SEASON_TILE == d
      && r % SEASON_TILE == 2 * i && (r + 1) % SEASON_TILE == 2 * i + 1
  {
  }

  // ----- the tiles of a pyramid, built by repeated calls

  type Tile = seq<seq<Pair>>

  function PixelOf(tile: Option<Tile>, r: int, c: int): Pair {
    if tile.Some? && 0 <= r < |tile.value| && 0 <= c < |tile.value[r]| then tile.value[r][c] else Sentinel(NO_DATA)
  }

  /** A tile shows its part of the image n zooms up; a missing tile shows no data. */
  ghost predicate Shows(tile: Option<Tile>, image: Image, n: nat, ty: int, tx: int) {
    && (tile.Some? ==> IsTile(tile.value))
    && forall r, c | 0 <= r < SEASON_TILE && 0 <= c < SEASON_TILE ::
         PixelOf(tile, r, c) == Pyramid(image, n, SEASON_TILE * ty + r, SEASON_TILE * tx + c)
  }

  ghost predicate AllShow(below: seq<Option<Tile>>, image: Image, n: nat, ty: int, tx: int) {
    && |below| == 4
    && Shows(below[0], image, n, 2 * ty, 2 * tx) && Shows(below[1], image, n, 2 * ty, 2 * tx + 1)
    && Shows(below[2], image, n, 2 * ty + 1, 2 * tx) && Shows(below[3], image, n, 2 * ty + 1, 2 * tx + 1)
  }

  lemma ShownAreTiles(below: seq<Option<Tile>>, image: Image, n: nat, ty: int, tx: int)
    requires AllShow(below, image, n, ty, tx)
    ensures AreTiles(below)
  {
    hide IsTile;
  }

  lemma QuarterShows(below: seq<Option<Tile>>, image: Image, n: nat, ty: int, tx: int, dy: int, dx: int, r: int, c: int)
    requires AllShow(below, image, n, ty, tx) && 0 <= dy < 2 && 0 <= dx < 2
    requires 0 <= r < SEASON_TILE && 0 <= c < SEASON_TILE
    ensures PixelOf(below[2 * dy + dx], r, c)
         == Pyramid(image, n, SEASON_TILE * (2 * ty + dy) + r, SEASON_TILE * (2 * tx + dx) + c)
  {
    hide Pyramid, PixelOf;
    assert Shows(below[2 * dy + dx], image, n, 2 * ty + dy, 2 * tx + dx);
  }

  lemma MosaicShows(below: seq<Option<Tile>>, image: Image, n: nat, ty: int, tx: int, r: int, c: int)
    requires AllShow(below, image, n, ty, tx) && 0 <= r < 2 * SEASON_TILE && 0 <= c < 2 * SEASON_TILE
    ensures AreTiles(below)
    ensures Mosaic(below, r, c) == Pyramid(image, n, 2 * SEASON_TILE * ty + r, 2 * SEASON_TILE * tx + c)
  {
    hide AllShow, AreTiles, Mosaic, PixelOf, Pyramid;
    ShownAreTiles(below, image, n, ty, tx);
    MosaicPixel(below, r, c);
    var dy, dx := r / SEASON_TILE, c / SEASON_TILE;
    QuarterShows(below, image, n, ty, tx, dy, dx, r % SEASON_TILE, c % SEASON_TILE);
    Unrolled(ty, dy, r);
    Unrolled(tx, dx, c);
  }

  lemma MosaicPixel(below: seq<Option<Tile>>, r: int, c: int)
    requires AreTiles(below) && 0 <= r < 2 * SEASON_TILE && 0 <= c < 2 * SEASON_TILE
    ensures Mosaic(below, r, c)
         == PixelOf(below[2 * (r / SEASON_TILE) + c / SEASON_TILE], r % SEASON_TILE, c % SEASON_TILE)
  {
    var tile := below[2 * (r / SEASON_TILE) + c / SEASON_TILE];
    if tile.Some? { assert IsTile(tile.value) && |tile.value[r % SEASON_TILE]| == SEASON_TILE; }
  }

  lemma Unrolled(t: int, d: int, r: int)
    requires d == r / SEASON_TILE
    ensures SEASON_TILE * (2 * t + d) + r % SEASON_TILE == 2 * SEASON_TILE * t + r
  {
  }

  /** One call of the source goes one zoom up. */
  lemma ShrunkShows(below: seq<Option<Tile>>, image: Image, n: nat, ty: int, tx: int, r: int, c: int)
    requires AllShow(below, image, n, ty, tx) && 0 <= r < SEASON_TILE && 0 <= c < SEASON_TILE
    ensures AreTiles(below)
    ensures Shrunk(below, r, c) == Pyramid(image, n + 1, SEASON_TILE * ty + r, SEASON_TILE * tx + c)
  {
    hide AllShow, Mosaic, WorstOf;
    MosaicShows(below, image, n, ty, tx, 2 * r, 2 * c);
    MosaicShows(below, image, n, ty, tx, 2 * r, 2 * c + 1);
    MosaicShows(below, image, n, ty, tx, 2 * r + 1, 2 * c);
    MosaicShows(below, image, n, ty, tx, 2 * r + 1, 2 * c + 1);
    assert 2 * (SEASON_TILE * ty + r) == 2 * SEASON_TILE * ty + 2 * r;
    assert 2 * (SEASON_TILE * tx + c) == 2 * SEASON_TILE * tx + 2 * c;
  }

  /** The tile n zooms up: of the leaves, or of the four tiles below; none when they are all missing. */
  function Built(leaves: (int, int) -> Option<Tile>, n: nat, ty: int, tx: int): Option<Tile>
    decreases n, 1
  {
    if n == 0 then (if leaves(ty, tx).Some? && IsTile(leaves(ty, tx).value) then leaves(ty, tx) else None) else
      var below := Below(leaves, n - 1, ty, tx);
      if (forall k | 0 <= k < 4 :: below[k].None?) || !AreTiles(below) then None
      else Some(seq(SEASON_TILE, r requires 0 <= r < SEASON_TILE =>
             seq(SEASON_TILE, c requires 0 <= c < SEASON_TILE => Shrunk(below, r, c))))
  }

  function Below(leaves: (int, int) -> Option<Tile>, n: nat, ty: int, tx: int): (r: seq<Option<Tile>>)
    ensures |r| == 4
    decreases n, 2
  {
    [Built(leaves, n, 2 * ty, 2 * tx), Built(leaves, n, 2 * ty, 2 * tx + 1),
     Built(leaves, n, 2 * ty + 1, 2 * tx), Built(leaves, n, 2 * ty + 1, 2 * tx + 1)]
  }

  /** The leaves as one image. */
  function ImageOf(leaves: (int, int) -> Option<Tile>): Image {
    (r, c) => PixelOf(Built(leaves, 0, r / SEASON_TILE, c / SEASON_TILE), r % SEASON_TILE, c % SEASON_TILE)
  }

  /** Repeated calls give the pyramid, over any number of zooms and with any tiles missing. */
  lemma {:induction false} BuiltShows(leaves: (int, int) -> Option<Tile>, n: nat, ty: int, tx: int)
    ensures Shows(Built(leaves, n, ty, tx), ImageOf(leaves), n, ty, tx)
  {
    var image := ImageOf(leaves);
    hide Shows, Built;
    if n == 0 {
      LeafShows(leaves, ty, tx);
    } else {
      var below := Below(leaves, n - 1, ty, tx);
      BuiltShows(leaves, n - 1, 2 * ty, 2 * tx);
      BuiltShows(leaves, n - 1, 2 * ty, 2 * tx + 1);
      BuiltShows(leaves, n - 1, 2 * ty + 1, 2 * tx);
      BuiltShows(leaves, n - 1, 2 * ty + 1, 2 * tx + 1);
      BuiltFrom(leaves, n, ty, tx, below, image);
    }
  }

  lemma LeafShows(leaves: (int, int) -> Option<Tile>, ty: int, tx: int)
    ensures Shows(Built(leaves, 0, ty, tx), ImageOf(leaves), 0, ty, tx)
  {
    var tile := Built(leaves, 0, ty, tx);
    forall r, c | 0 <= r < SEASON_TILE && 0 <= c < SEASON_TILE
      ensures PixelOf(tile, r, c) == Pyramid(ImageOf(leaves), 0, SEASON_TILE * ty + r, SEASON_TILE * tx + c)
    {
      assert (SEASON_TILE * ty + r) / SEASON_TILE == ty && (SEASON_TILE * ty + r) % SEASON_TILE == r;
      assert (SEASON_TILE * tx + c) / SEASON_TILE == tx && (SEASON_TILE * tx + c) % SEASON_TILE == c;
    }
  }

  lemma BuiltFrom(leaves: (int, int) -> Option<Tile>, n: nat, ty: int, tx: int, below: seq<Option<Tile>>, image: Image)
    requires n > 0 && below == Below(leaves, n - 1, ty, tx) && AllShow(below, image, n - 1, ty, tx)
    ensures Shows(Built(leaves, n, ty, tx), image, n, ty, tx)
  {
    ShownAreTiles(below, image, n - 1, ty, tx);
    var tile := Built(leaves, n, ty, tx);
    forall r, c | 0 <= r < SEASON_TILE && 0 <= c < SEASON_TILE
      ensures PixelOf(tile, r, c) == Pyramid(image, n, SEASON_TILE * ty + r, SEASON_TILE * tx + c)
    {
      ShrunkShows(below, image, n - 1, ty, tx, r, c);
      if forall k | 0 <= k < 4 :: below[k].None? { NothingBelow(below, r, c); }
      hide Pyramid, Shrunk, AllShow, AreTiles, Below;
    }
    hide Pyramid, Shrunk, AllShow, Below;
  }

  lemma NothingBelow(below: seq<Option<Tile>>, r: int, c: int)
    requires AreTiles(below) && 0 <= r < SEASON_TILE && 0 <= c < SEASON_TILE
    requires forall k | 0 <= k < 4 :: below[k].None?
    ensures Shrunk(below, r, c) == Sentinel(NO_DATA)
  {
  }

  /** So a pixel of a built tile is the worst case of all 4^n pixels of the leaves below it. */
  lemma BuiltIsWorst(leaves: (int, int) -> Option<Tile>, n: nat, ty: int, tx: int, r: int, c: int)
    requires CoherentImage(ImageOf(leaves)) && 0 <= r < SEASON_TILE && 0 <= c < SEASON_TILE
    ensures var y, x, size := SEASON_TILE * ty + r, SEASON_TILE * tx + c, Pow2(n);
      IsWorst(Pixels(ImageOf(leaves), y * size, x * size, size), PixelOf(Built(leaves, n, ty, tx), r, c))
  {
    hide IsWorst, Pixels, Built, Pyramid, ImageOf;
    BuiltShows(leaves, n, ty, tx);
    PyramidIsWorst(ImageOf(leaves), n, SEASON_TILE * ty + r, SEASON_TILE * tx + c);
  }
}
