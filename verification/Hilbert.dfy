/** The PMTiles tile numbering: a Hilbert curve over the tiles of each zoom, the zooms one after
    another. `TileId` is the loop of the reader; `Position` and `Tile` are a recursive curve and its
    inverse over the tiles of one zoom. */
module Hilbert {
  import opened Powers

  datatype Point = Point(x: int, y: int)

  predicate InZoom(z: nat, p: Point) {
    0 <= p.x < Pow2(z) && 0 <= p.y < Pow2(z)
  }

  /** The place on the curve of the quadrant of a tile, in a square of side 2s. */
  function Quadrant(s: int, p: Point): (d: int)
    ensures 0 <= d < 4
  {
    if p.y < s then (if p.x < s then 0 else 3) else (if p.x < s then 1 else 2)
  }

  /** The tile inside its quadrant, turned as the curve of the quadrant turns. */
  function Enter(s: int, p: Point): Point {
    if p.y < s then
      if p.x < s then Point(p.y, p.x) else Point(s - 1 - p.y, 2 * s - 1 - p.x)
    else Point(if p.x < s then p.x else p.x - s, p.y - s)
  }

  /** The inverse of `Enter` for quadrant d. */
  function Leave(s: int, d: int, t: Point): Point {
    if d == 0 then Point(t.y, t.x)
    else if d == 1 then Point(t.x, t.y + s)
    else if d == 2 then Point(t.x + s, t.y + s)
    else Point(2 * s - 1 - t.y, s - 1 - t.x)
  }

  /** The d quarters of size q that come before quadrant d. */
  function Skip(q: int, d: int): int {
    if d == 0 then 0 else if d == 1 then q else if d == 2 then 2 * q else 3 * q
  }

  function Quarter(q: int, h: int): (d: int)
    ensures 0 <= d < 4
  {
    if h < q then 0 else if h < 2 * q then 1 else if h < 3 * q then 2 else 3
  }

  /** The position of a tile on the curve of its zoom. */
  function Position(z: nat, p: Point): (h: nat)
    requires InZoom(z, p)
    ensures h < Pow4(z)
  {
    if z == 0 then 0 else
      var s := Pow2(z - 1);
      Skip(Pow4(z - 1), Quadrant(s, p)) + Position(z - 1, Enter(s, p))
  }

  /** The tile at a position of the curve. */
  function Tile(z: nat, h: nat): (p: Point)
    requires h < Pow4(z)
    ensures InZoom(z, p)
  {
    if z == 0 then Point(0, 0) else
      var q := Pow4(z - 1);
      Leave(Pow2(z - 1), Quarter(q, h), Tile(z - 1, h - Skip(q, Quarter(q, h))))
  }

  lemma {:induction false} TileOfPosition(z: nat, p: Point)
    requires InZoom(z, p)
    ensures Tile(z, Position(z, p)) == p
  {
    hide Position, Tile, Quarter, Skip, Leave, Enter, Quadrant, Pow4, Pow2;
    if z == 0 {
      FirstTile(p);
    } else {
      var s, q := Pow2(z - 1), Pow4(z - 1);
      var inner, d := Enter(s, p), Quadrant(s, p);
      PositionSteps(z, p);
      TileOfPosition(z - 1, inner);
      QuarterOfSkip(q, d, Position(z - 1, inner));
      LeaveOfEnter(s, p);
      TileSteps(z, Position(z, p));
    }
  }

  lemma FirstTile(p: Point)
    requires InZoom(0, p)
    ensures Tile(0, Position(0, p)) == p
  {
  }

  lemma PositionSteps(z: nat, p: Point)
    requires z > 0 && InZoom(z, p)
    ensures var s := Pow2(z - 1);
      && InZoom(z - 1, Enter(s, p))
      && Position(z, p) == Skip(Pow4(z - 1), Quadrant(s, p)) + Position(z - 1, Enter(s, p))
  {
    hide Skip;
  }

  lemma QuarterOfSkip(q: int, d: int, r: int)
    requires 0 <= d < 4 && 0 <= r < q
    ensures Quarter(q, Skip(q, d) + r) == d
  {
  }

  lemma LeaveOfEnter(s: int, p: Point)
    ensures Leave(s, Quadrant(s, p), Enter(s, p)) == p
  {
  }

  lemma {:induction false} PositionOfTile(z: nat, h: nat)
    requires h < Pow4(z)
    ensures Position(z, Tile(z, h)) == h
  {
    hide Position, Tile, Quarter, Skip, Leave, Pow4;
    if z == 0 {
      FirstPosition(h);
    } else {
      var q := Pow4(z - 1);
      var d := Quarter(q, h);
      TileSteps(z, h);
      PositionOfTile(z - 1, h - Skip(q, d));
      PositionOfLeave(z, d, Tile(z - 1, h - Skip(q, d)));
    }
  }

  lemma FirstPosition(h: nat)
    requires h < Pow4(0)
    ensures Position(0, Tile(0, h)) == h
  {
  }

  lemma QuarterRange(z: nat, h: nat)
    requires z > 0 && h < Pow4(z)
    ensures var q := Pow4(z - 1); 0 <= h - Skip(q, Quarter(q, h)) < q
  {
  }

  lemma TileSteps(z: nat, h: nat)
    requires z > 0 && h < Pow4(z)
    ensures var q := Pow4(z - 1); var d := Quarter(q, h);
      0 <= h - Skip(q, d) < q && Tile(z, h) == Leave(Pow2(z - 1), d, Tile(z - 1, h - Skip(q, d)))
  {
    QuarterRange(z, h);
    hide Leave, Quarter, Skip;
  }

  lemma PositionOfLeave(z: nat, d: int, t: Point)
    requires z > 0 && 0 <= d < 4 && InZoom(z - 1, t)
    ensures InZoom(z, Leave(Pow2(z - 1), d, t))
    ensures Position(z, Leave(Pow2(z - 1), d, t)) == Skip(Pow4(z - 1), d) + Position(z - 1, t)
  {
    EnterOfLeave(Pow2(z - 1), d, t);
  }

  lemma EnterOfLeave(s: int, d: int, t: Point)
    requires 0 <= d < 4 && 0 <= t.x < s && 0 <= t.y < s
    ensures Quadrant(s, Leave(s, d, t)) == d
    ensures Enter(s, Leave(s, d, t)) == t
  {
  }

  // ----- neighbours on the curve

  lemma {:induction false} Ends(z: nat)
    ensures Tile(z, 0) == Point(0, 0)
    ensures Tile(z, Pow4(z) - 1) == Point(Pow2(z) - 1, 0)
  {
    if z > 0 { Ends(z - 1); }
  }

  predicate Adjacent(p: Point, q: Point) {
    || (p.x == q.x && (p.y == q.y + 1 || q.y == p.y + 1))
    || (p.y == q.y && (p.x == q.x + 1 || q.x == p.x + 1))
  }

  /** Consecutive positions of a zoom are tiles that share an edge. */
  lemma {:induction false} Continuous(z: nat, h: nat)
    requires h + 1 < Pow4(z)
    ensures Adjacent(Tile(z, h), Tile(z, h + 1))
  {
    hide Tile, Leave, Adjacent;
    var q := Pow4(z - 1);
    var d := Quarter(q, h);
    if Quarter(q, h + 1) == d {
      TileSteps(z, h);
      TileSteps(z, h + 1);
      hide Quarter, Skip, Pow4;
      Continuous(z - 1, h - Skip(q, d));
      LeaveKeepsAdjacent(Pow2(z - 1), d, Tile(z - 1, h - Skip(q, d)), Tile(z - 1, h + 1 - Skip(q, d)));
    } else {
      ContinuousAcross(z, h);
    }
  }

  lemma ContinuousAcross(z: nat, h: nat)
    requires z > 0 && h + 1 < Pow4(z)
    requires Quarter(Pow4(z - 1), h) != Quarter(Pow4(z - 1), h + 1)
    ensures Adjacent(Tile(z, h), Tile(z, h + 1))
  {
    var q := Pow4(z - 1);
    var d := Quarter(q, h);
    assert h - Skip(q, d) == q - 1 && h + 1 - Skip(q, d + 1) == 0;
    Ends(z - 1);
    Crossing(Pow2(z - 1), d);
  }

  lemma LeaveKeepsAdjacent(s: int, d: int, t: Point, u: Point)
    requires Adjacent(t, u)
    ensures Adjacent(Leave(s, d, t), Leave(s, d, u))
  {
  }

  /** The end of one quadrant touches the start of the next. */
  lemma Crossing(s: int, d: int)
    requires 0 <= d < 3
    ensures Adjacent(Leave(s, d, Point(s - 1, 0)), Leave(s, d + 1, Point(0, 0)))
  {
  }

  // ----- the tile pyramid

  function Ancestor(k: nat, p: Point): Point {
    Point(p.x / Pow2(k), p.y / Pow2(k))
  }

  /** The position of a tile, divided by 4, is the position of its parent. */
  lemma {:induction false} ParentPosition(z: nat, p: Point)
    requires InZoom(z + 1, p)
    ensures InZoom(z, Point(p.x / 2, p.y / 2))
    ensures Position(z + 1, p) / 4 == Position(z, Point(p.x / 2, p.y / 2))
  {
    if z > 0 {
      var s, t := Pow2(z), Enter(Pow2(z), p);
      ParentPosition(z - 1, t);
      EnterOfParent(Pow2(z - 1), p);
      SkipQuarters(Pow4(z - 1), Quadrant(s, p), Position(z, t));
    }
  }

  lemma EnterOfParent(s: int, p: Point)
    requires 0 <= p.x < 4 * s && 0 <= p.y < 4 * s
    ensures var up := Point(p.x / 2, p.y / 2); var t := Enter(2 * s, p);
      Quadrant(2 * s, p) == Quadrant(s, up) && Point(t.x / 2, t.y / 2) == Enter(s, up)
  {
  }

  lemma SkipQuarters(q: int, d: int, h: int)
    requires 0 <= d < 4
    ensures (Skip(4 * q, d) + h) / 4 == Skip(q, d) + h / 4
  {
  }

  /** k zooms up, the position is divided by 4^k. */
  lemma {:induction false} AncestorPosition(z: nat, k: nat, p: Point)
    requires InZoom(z + k, p)
    ensures InZoom(z, Ancestor(k, p))
    ensures Position(z + k, p) / Pow4(k) == Position(z, Ancestor(k, p))
    decreases k
  {
    hide Ancestor, InZoom, Position, Pow4;
    if k == 0 {
      AncestorOfNone(p);
      assert Pow4(0) == 1 by { FirstPow4(); }
    } else {
      var up := Point(p.x / 2, p.y / 2);
      AncestorSteps(k, p);
      ParentPosition(z + (k - 1), p);
      AncestorPosition(z, k - 1, up);
      QuotientSteps(Position(z + k, p), Position(z + (k - 1), up), k);
    }
  }

  lemma FirstPow4()
    ensures Pow4(0) == 1
  {
  }

  lemma QuotientSteps(h: int, up: int, k: nat)
    requires k > 0 && h / 4 == up
    ensures h / Pow4(k) == up / Pow4(k - 1)
  {
    DivBySteps(h, 4, Pow4(k - 1));
  }

  lemma AncestorOfNone(p: Point)
    ensures Ancestor(0, p) == p
  {
  }

  lemma AncestorSteps(k: nat, p: Point)
    requires k > 0
    ensures Ancestor(k, p) == Ancestor(k - 1, Point(p.x / 2, p.y / 2))
  {
    DivBySteps(p.x, 2, Pow2(k - 1));
    DivBySteps(p.y, 2, Pow2(k - 1));
  }

  lemma DivBySteps(x: int, a: int, b: int)
    requires a > 0 && b > 0
    ensures x / (a * b) == (x / a) / b
  {
    var q, r := x / a, x % a;
    var q2, r2 := q / b, q % b;
    calc {
      x;
      a * (b * q2 + r2) + r;
      a * (b * q2) + a * r2 + r;
      (a * b) * q2 + (a * r2 + r);
    }
    RemainderFits(a, b, r2, r);
    DivUnique(x, a * b, q2, a * r2 + r);
  }

  lemma RemainderFits(a: int, b: int, r2: int, r: int)
    requires a > 0 && 0 <= r < a && 0 <= r2 < b
    ensures 0 <= a * r2 + r < a * b
  {
    assert a * b == a * (b - 1 - r2) + a * r2 + a;
    assert a * (b - 1 - r2) >= 0;
    assert a * r2 >= 0;
  }

  /** The tiles below one tile, k zooms deeper, are exactly one block of 4^k consecutive positions. */
  lemma DescendantsAreOneBlock(z: nat, k: nat, p: Point, d: Point)
    requires InZoom(z, p) && InZoom(z + k, d)
    ensures Ancestor(k, d) == p
       <==> Position(z, p) * Pow4(k) <= Position(z + k, d) < (Position(z, p) + 1) * Pow4(k)
  {
    AncestorPosition(z, k, d);
    var h, b := Position(z + k, d), Pow4(k);
    if Position(z, Ancestor(k, d)) == Position(z, p) {
      TileOfPosition(z, p);
      TileOfPosition(z, Ancestor(k, d));
    }
    QuotientRange(h, b, Position(z, p));
  }

  lemma QuotientRange(h: int, b: int, q: int)
    requires b > 0
    ensures h / b == q <==> q * b <= h < (q + 1) * b
  {
    if q * b <= h < (q + 1) * b { DivUnique(h, b, q, h - q * b) by { assert b * q == q * b; } }
    assert h == b * (h / b) + h % b;
  }

  // ----- numbers across zooms

  /** The number of tiles of the zooms above zoom z: the first tile number of zoom z. */
  function Base(z: nat): (b: nat)
    ensures 3 * b + 1 == Pow4(z)
  {
    if z == 0 then 0 else Base(z - 1) + Pow4(z - 1)
  }

  function Id(z: nat, p: Point): (id: nat)
    requires InZoom(z, p)
    ensures Base(z) <= id < Base(z + 1)
  {
    Base(z) + Position(z, p)
  }

  lemma {:induction false} BaseGrows(a: nat, b: nat)
    ensures a < b ==> Base(a + 1) <= Base(b)
    decreases b
  {
    if a + 1 < b { BaseGrows(a, b - 1); }
  }

  /** No two tiles of any zooms share a number. */
  lemma IdsNeverCollide(z: nat, p: Point, z': nat, p': Point)
    requires InZoom(z, p) && InZoom(z', p')
    requires Id(z, p) == Id(z', p')
    ensures z == z' && p == p'
  {
    BaseGrows(z, z');
    BaseGrows(z', z);
    assert z == z';
    TileOfPosition(z, p);
    TileOfPosition(z', p');
  }

  datatype Located = Located(z: nat, p: Point)

  /** The tile of a number, from the deepest zoom that starts at or before it. */
  function LocateFrom(z: nat, id: nat): (t: Located)
    requires Base(z) <= id
    decreases id - Base(z)
    ensures InZoom(t.z, t.p) && Id(t.z, t.p) == id
  {
    if id < Base(z + 1) then
      PositionOfTile(z, id - Base(z));
      Located(z, Tile(z, id - Base(z)))
    else LocateFrom(z + 1, id)
  }

  /** The inverse numbering: every number is the number of one tile. */
  function Locate(id: nat): (t: Located)
    ensures InZoom(t.z, t.p) && Id(t.z, t.p) == id
  {
    LocateFrom(0, id)
  }

  lemma LocateOfId(z: nat, p: Point)
    requires InZoom(z, p)
    ensures Locate(Id(z, p)) == Located(z, p)
  {
    var t := Locate(Id(z, p));
    IdsNeverCollide(z, p, t.z, t.p);
  }

  /** The numbers from Base(z) up to Base(z + 1) are all taken, each by a tile of zoom z. */
  lemma EveryIdIsATile(z: nat, id: nat)
    requires Base(z) <= id < Base(z + 1)
    ensures Locate(id).z == z
    ensures InZoom(z, Locate(id).p) && Id(z, Locate(id).p) == id
  {
    PositionOfTile(z, id - Base(z));
    LocateOfId(z, Tile(z, id - Base(z)));
  }

  /** The first number of a zoom is that of tile 0, 0. */
  lemma FirstOfZoom(z: nat)
    ensures InZoom(z, Point(0, 0)) && Id(z, Point(0, 0)) == Base(z)
  {
    Ends(z);
    PositionOfTile(z, 0);
    hide Position, Tile, Base;
  }

  /** The reader admits zooms 0 to 22, whose numbers fit a signed 64-bit integer. */
  lemma IdFitsInt64(z: nat, p: Point)
    requires z <= 22 && InZoom(z, p)
    ensures Id(z, p) < 0x8000_0000_0000_0000
  {
    BaseGrows(z, 23);
    Pow4Of23();
  }

  lemma Pow4Of23()
    ensures Pow4(23) == 0x4000_0000_0000
  {
    assert Pow4(5) == 1024 && Pow4(3) == 64;
    Pow4Add(5, 5);
    Pow4Add(10, 10);
    Pow4Add(20, 3);
  }

  // ----- the loop of the reader

  function Residue(a: nat, x: int, y: int): Point {
    Point(x % Pow2(a), y % Pow2(a))
  }

  /** What the steps below bit a still add: the position of the residues. */
  function Rest(a: nat, x: int, y: int): nat {
    Position(a, Residue(a, x, y))
  }

  lemma RestAtStart(z: nat, x: int, y: int)
    requires InZoom(z, Point(x, y))
    ensures (Pow2(z * 2) - 1) / 3 + Rest(z, x, y) == Id(z, Point(x, y))
  {
    Pow2OfDouble(z);
    DivUnique(x, Pow2(z), 0, x);
    DivUnique(y, Pow2(z), 0, y);
    assert Pow2(z * 2) == 3 * Base(z) + 1;
  }

  /** The coordinates after one step of the loop, from the two bits of the step. */
  function Swapped(s: int, x: int, y: int, rx: int, ry: int): Point {
    if ry != 0 then Point(x, y) else if rx != 0 then Point(s - 1 - y, s - 1 - x) else Point(y, x)
  }

  /** The bit and the residue of one coordinate. */
  lemma Axis(a: nat, x: int)
    ensures var s, r := Pow2(a), x % Pow2(a + 1);
      && 0 <= r < 2 * s
      && BitAnd(s, x) == (if r >= s then s else 0)
      && x % s == (if r >= s then r - s else r)
      && (s - 1 - x) % s == s - 1 - x % s
  {
    var s := Pow2(a);
    ModSplit(x, s);
    FlipMod(x, s);
    BitAndPow2(a, x);
    OneBit(x / s % 2, s);
    hide BitAnd;
  }

  lemma OneBit(b: int, s: int)
    requires b == 0 || b == 1
    ensures b * s == s * b == if b == 0 then 0 else s
  {
  }

  /** One step of the loop. The coordinates keep their higher bits and can be negative; only their
      residues modulo the size matter. */
  lemma LoopStep(a: nat, x: int, y: int) returns (next: Point)
    ensures next == Swapped(Pow2(a), x, y, BitAnd(Pow2(a), x), BitAnd(Pow2(a), y))
    ensures Rest(a + 1, x, y)
         == BitXor(3 * BitAnd(Pow2(a), x), BitAnd(Pow2(a), y)) * Pow2(a) + Rest(a, next.x, next.y)
  {
    next := Swapped(Pow2(a), x, y, BitAnd(Pow2(a), x), BitAnd(Pow2(a), y));
    LoopTerm(a, x, y);
    ResidueEnters(a, x, y);
  }

  lemma ResidueEnters(a: nat, x: int, y: int)
    ensures var s, r := Pow2(a), Residue(a + 1, x, y);
      var next := Swapped(s, x, y, BitAnd(s, x), BitAnd(s, y));
      InZoom(a + 1, r) && Residue(a, next.x, next.y) == Enter(s, r)
  {
    Axis(a, x);
    Axis(a, y);
    hide BitAnd, Pow2;
    assert Pow2(a + 1) == 2 * Pow2(a) by { DoublePow2(a); }
  }

  lemma DoublePow2(a: nat)
    ensures Pow2(a + 1) == 2 * Pow2(a)
  {
  }

  /** The term that the loop adds, in the bit operators of the source. */
  lemma LoopTerm(a: nat, x: int, y: int)
    ensures var s, r := Pow2(a), Residue(a + 1, x, y);
      BitXor(3 * BitAnd(s, x), BitAnd(s, y)) * Pow2(a) == Skip(Pow4(a), Quadrant(s, r))
  {
    Axis(a, x);
    Axis(a, y);
    var s := Pow2(a);
    var u, v := if BitAnd(s, x) == 0 then 0 else 3, if BitAnd(s, y) == 0 then 0 else 1;
    assert s * u == 3 * BitAnd(s, x) && s * v == BitAnd(s, y);
    BitXorShift(a, u, v);
    SmallXor();
    Pow4IsSquare(a);
    ScaledSquare(s, BitXor(u, v));
  }

  lemma ScaledSquare(s: int, d: int)
    requires 0 <= d < 4
    ensures s * d * s == Skip(s * s, d)
  {
  }

  lemma SmallXor()
    ensures BitXor(0, 0) == 0 && BitXor(3, 0) == 3 && BitXor(0, 1) == 1 && BitXor(3, 1) == 2
  {
    assert BitXor(1, 0) == 1;
  }

  method TileId(z: nat, tileX: int, tileY: int) returns (result: int)
    requires InZoom(z, Point(tileX, tileY))
    ensures result == Id(z, Point(tileX, tileY))
  {
    RestAtStart(z, tileX, tileY);
    result := (Pow2(z * 2) - 1) / 3;
    var x, y := tileX, tileY;
    var a := z;
    while a > 0
      invariant 0 <= a <= z
      invariant result + Rest(a, x, y) == Id(z, Point(tileX, tileY))
    {
      a := a - 1;
      ghost var next := LoopStep(a, x, y);
      var size := Pow2(a);
      var rx, ry := BitAnd(size, x), BitAnd(size, y);
      result := result + BitXor(3 * rx, ry) * Pow2(a);
      if ry == 0 {
        if rx != 0 {
          x := size - 1 - x;
          y := size - 1 - y;
        }
        x, y := y, x;
      }
      assert next == Point(x, y);
    }
  }
}
