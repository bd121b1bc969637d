/** The map packs: staging the tiles of an archive by square, splitting the packs that are too large,
    and the reader's search for the pack of a tile. */
module MapPacks {
  import opened Wrappers
  import opened Powers
  import H = Hilbert

  const PACK_BYTES := 15 * 1024 * 1024
  const FINE_ZOOM := 13

  type Data = seq<int>

  /** A staged tile: its number and its bytes. */
  datatype Record = Record(id: nat, data: Data)

  /** A pack or its staging file: the square of zoom `level` that holds its tiles. `fine` is the folder
      of the terrain from zoom 13 up. */
  datatype Name = Name(fine: bool, level: nat, p: H.Point)

  type Files = map<Name, seq<Record>>

  function Zoom(r: Record): nat {
    H.Locate(r.id).z
  }

  function Place(r: Record): H.Point {
    H.Locate(r.id).p
  }

  /** The deepest of the base levels 0, 7 and 9 that is not deeper than the zoom. */
  function BaseLevel(zoom: nat): (level: nat)
    ensures level <= zoom
  {
    if zoom < 7 then 0 else if zoom < 9 then 7 else 9
  }

  predicate Fine(terrain: bool, r: Record) {
    terrain && Zoom(r) >= FINE_ZOOM
  }

  /** The square of a tile at a level. */
  function Square(terrain: bool, r: Record, level: nat): Name
    requires level <= Zoom(r)
  {
    Name(Fine(terrain, r), level, H.Ancestor(Zoom(r) - level, Place(r)))
  }

  /** A pack may hold a tile: it is the tile's square at a level from its base level to its zoom. */
  predicate Covers(terrain: bool, n: Name, r: Record) {
    BaseLevel(Zoom(r)) <= n.level <= Zoom(r) && n == Square(terrain, r, n.level)
  }

  /** Square m lies inside square n, deeper in the same level range. */
  predicate Above(n: Name, m: Name) {
    && n.fine == m.fine && n.level < m.level && BaseLevel(n.level) == BaseLevel(m.level)
    && H.Ancestor(m.level - n.level, m.p) == n.p
  }

  predicate Ascending(records: seq<Record>) {
    forall i, j | 0 <= i < j < |records| :: records[i].id < records[j].id
  }

  // ----- squares

  lemma AncestorOfAncestor(j: nat, k: nat, p: H.Point)
    ensures H.Ancestor(j, H.Ancestor(k, p)) == H.Ancestor(j + k, p)
  {
    ShiftShift(p.x, j, k);
    ShiftShift(p.y, j, k);
  }

  lemma ShiftShift(x: int, j: nat, k: nat)
    ensures x / Pow2(k) / Pow2(j) == x / Pow2(j + k)
  {
    Pow2Add(k, j);
    hide Pow2;
    H.DivBySteps(x, Pow2(k), Pow2(j));
  }

  /** Two squares of one tile are nested. */
  lemma CoveringSquaresNest(terrain: bool, n: Name, m: Name, r: Record)
    requires Covers(terrain, n, r) && Covers(terrain, m, r)
    ensures n.level == m.level ==> n == m
    ensures n.level < m.level ==> Above(n, m)
  {
    hide Zoom, Place, H.Ancestor;
    if n.level < m.level {
      AncestorOfAncestor(m.level - n.level, Zoom(r) - m.level, Place(r));
    }
  }

  lemma SameSquare(terrain: bool, n: Name, r: Record, s: Record)
    requires Covers(terrain, n, r) && Covers(terrain, n, s) && Zoom(r) == n.level == Zoom(s)
    ensures r.id == s.id
  {
    H.AncestorOfNone(Place(r));
    H.AncestorOfNone(Place(s));
    SamePlace(r, s);
  }

  lemma SamePlace(r: Record, s: Record)
    requires Zoom(r) == Zoom(s) && Place(r) == Place(s)
    ensures r.id == s.id
  {
    assert H.Id(Zoom(r), Place(r)) == r.id && H.Id(Zoom(s), Place(s)) == s.id;
  }

  // ----- what staging, splitting and writing keep

  /** Every tile lies in a square of its own, in ascending order. */
  ghost predicate Placed(terrain: bool, files: Files) {
    forall n | n in files ::
      && files[n] != [] && Ascending(files[n])
      && forall r | r in files[n] :: Covers(terrain, n, r)
  }

  ghost predicate OwnOnly(n: Name, records: seq<Record>) {
    forall r | r in records :: Zoom(r) == n.level
  }

  /** A pack above another pack holds nothing deeper than its own zoom. */
  ghost predicate Layered(files: Files) {
    forall n, m | n in files && m in files && Above(n, m) :: OwnOnly(n, files[n])
  }

  ghost predicate Holds(files: Files, r: Record) {
    exists n | n in files :: r in files[n]
  }

  /** No tile is lost or made up. */
  ghost predicate Conserves(files: Files, tiles: set<Record>) {
    forall r :: r in tiles <==> Holds(files, r)
  }

  ghost predicate Consistent(terrain: bool, files: Files, tiles: set<Record>) {
    Placed(terrain, files) && Layered(files) && Conserves(files, tiles)
  }

  /** Each tile lies in exactly one pack. */
  lemma OnePack(terrain: bool, files: Files, tiles: set<Record>, r: Record, n: Name, m: Name)
    requires Consistent(terrain, files, tiles)
    requires n in files && m in files && r in files[n] && r in files[m]
    ensures n == m
  {
    hide Zoom, Square, Above;
    assert Covers(terrain, n, r) && Covers(terrain, m, r);
    CoveringSquaresNest(terrain, n, m, r);
    CoveringSquaresNest(terrain, m, n, r);
    if n.level < m.level {
      NothingDeeper(files, n, m, r);
    } else if m.level < n.level {
      NothingDeeper(files, m, n, r);
    }
  }

  lemma NothingDeeper(files: Files, n: Name, m: Name, r: Record)
    requires Layered(files) && n in files && m in files && Above(n, m) && r in files[n]
    ensures Zoom(r) == n.level
  {
    assert OwnOnly(n, files[n]);
  }

  // ----- the reader

  /** The deepest pack from level l back to the base level of the zoom. */
  function DeepestFrom(names: set<Name>, fine: bool, z: nat, p: H.Point, l: nat): Option<Name>
    requires BaseLevel(z) <= l <= z
    decreases l
  {
    var n := Name(fine, l, H.Ancestor(z - l, p));
    if n in names then Some(n)
    else if l == BaseLevel(z) then None
    else DeepestFrom(names, fine, z, p, l - 1)
  }

  /** The search stays in the folder that it is asked for. */
  lemma {:induction false} DeepestStays(names: set<Name>, fine: bool, z: nat, p: H.Point, l: nat)
    requires BaseLevel(z) <= l <= z
    ensures var n := DeepestFrom(names, fine, z, p, l); n.Some? ==> n.value.fine == fine && n.value in names
    decreases l
  {
    hide H.Ancestor;
    if l > BaseLevel(z) { DeepestStays(names, fine, z, p, l - 1); }
  }

  /** `offlinePack`: at the smaller of the zoom and `mapZoom`, or without one the deepest pack. */
  function OfflinePack(names: set<Name>, fine: bool, z: nat, p: H.Point, mapZoom: Option<nat>): Option<Name> {
    if mapZoom.Some? then
      var l := if z < mapZoom.value then z else mapZoom.value;
      var n := Name(fine, l, H.Ancestor(z - l, p));
      if n in names then Some(n) else None
    else DeepestFrom(names, fine, z, p, z)
  }

  lemma {:induction false} DeepestFinds(terrain: bool, files: Files, tiles: set<Record>, r: Record, n: Name, l: nat)
    requires Consistent(terrain, files, tiles) && n in files && r in files[n]
    requires n.level <= l <= Zoom(r)
    ensures Covers(terrain, n, r)
    ensures DeepestFrom(files.Keys, Fine(terrain, r), Zoom(r), Place(r), l) == Some(n)
    decreases l
  {
    hide Zoom, Place, H.Ancestor, Above, Fine;
    assert Covers(terrain, n, r);
    var m := Square(terrain, r, l);
    if l > n.level {
      assert Covers(terrain, m, r);
      CoveringSquaresNest(terrain, n, m, r);
      if m in files { NothingDeeper(files, n, m, r); }
      DeepestFinds(terrain, files, tiles, r, n, l - 1);
    }
  }

  /** Asked in the folder of the tile, the search finds exactly the pack that holds the tile. */
  lemma ReaderFindsPack(terrain: bool, files: Files, tiles: set<Record>, r: Record, n: Name)
    requires Consistent(terrain, files, tiles) && n in files && r in files[n]
    ensures OfflinePack(files.Keys, Fine(terrain, r), Zoom(r), Place(r), None) == Some(n)
  {
    hide Zoom, Place, H.Ancestor, Above, Fine;
    assert Covers(terrain, n, r);
    DeepestFinds(terrain, files, tiles, r, n, Zoom(r));
  }

  /** The folder that the app asks: that of the kind, never the one of the fine terrain below it. */
  function AppPack(names: set<Name>, z: nat, p: H.Point): Option<Name> {
    OfflinePack(names, false, z, p, None)
  }

  /** The app finds the pack that holds a tile exactly when the tile is not fine terrain. */
  lemma AppFindsPackIff(terrain: bool, files: Files, tiles: set<Record>, r: Record, n: Name)
    requires Consistent(terrain, files, tiles) && n in files && r in files[n]
    ensures AppPack(files.Keys, Zoom(r), Place(r)) == Some(n) <==> !Fine(terrain, r)
  {
    hide Zoom, Place, H.Ancestor, Above;
    assert Covers(terrain, n, r);
    ReaderFindsPack(terrain, files, tiles, r, n);
    DeepestStays(files.Keys, false, Zoom(r), Place(r), Zoom(r));
  }

  /** The number of tile 0, 0 of zoom 13. */
  const FINE_ID: nat := (0x400_0000 - 1) / 3

  lemma Pow4Of13()
    ensures Pow4(13) == 0x400_0000
  {
    assert Pow4(3) == 64;
    Pow4Add(3, 3);
    Pow4Add(6, 6);
    assert Pow4(13) == 4 * Pow4(12);
  }

  lemma FirstFineTile(r: Record)
    requires r.id == FINE_ID
    ensures Zoom(r) == 13 && Place(r) == H.Point(0, 0)
  {
    hide H.Base, Pow4, Zoom, Place;
    Pow4Of13();
    assert 3 * H.Base(13) + 1 == Pow4(13);
    FirstTile(13, r);
  }

  lemma FirstTile(z: nat, r: Record)
    requires r.id == H.Base(z)
    ensures Zoom(r) == z && Place(r) == H.Point(0, 0)
  {
    hide H.Base, H.Id, H.InZoom, H.Locate;
    H.FirstOfZoom(z);
    H.LocateOfId(z, H.Point(0, 0));
  }

  lemma OneTile(terrain: bool, n: Name, r: Record)
    requires Zoom(r) == 13 && Place(r) == H.Point(0, 0) && n == Name(terrain, 9, H.Point(0, 0))
    ensures Consistent(terrain, map[n := [r]], {r}) && Covers(terrain, n, r)
  {
    hide Zoom, Place;
    assert H.Ancestor(4, H.Point(0, 0)) == H.Point(0, 0);
    hide H.Ancestor;
    var files := map[n := [r]];
    assert files[n] == [r] && Placed(terrain, files) && Layered(files);
    assert Holds(files, r);
  }

  /** An archive of one terrain tile, at zoom 13: the app finds no pack for it. */
  lemma FineTerrainIsMissed(r: Record)
    requires r.id == FINE_ID
    ensures var files := map[Name(true, 9, H.Point(0, 0)) := [r]];
      Consistent(true, files, {r}) && AppPack(files.Keys, Zoom(r), Place(r)) == None
  {
    hide Zoom, Place, Consistent, DeepestFrom, H.Ancestor;
    FirstFineTile(r);
    var n := Name(true, 9, H.Point(0, 0));
    OneTile(true, n, r);
    DeepestStays(map[n := [r]].Keys, false, 13, H.Point(0, 0), 13);
  }

  /** The same tile in an archive of any other kind is found. */
  lemma OtherKindIsFound(r: Record)
    requires r.id == FINE_ID
    ensures var n := Name(false, 9, H.Point(0, 0));
      Consistent(false, map[n := [r]], {r}) && AppPack(map[n := [r]].Keys, Zoom(r), Place(r)) == Some(n)
  {
    hide Zoom, Place, Consistent, AppPack, H.Ancestor;
    FirstFineTile(r);
    var n := Name(false, 9, H.Point(0, 0));
    OneTile(false, n, r);
    AppFindsPackIff(false, map[n := [r]], {r}, r, n);
  }

  /** Every tile lies in exactly one pack; the search in its folder finds that pack, and so does the app, which
      asks the folder of the kind, exactly when the tile is not fine terrain. */
  lemma EveryTileFound(terrain: bool, packs: Files, tiles: set<Record>, r: Record)
    requires Consistent(terrain, packs, tiles) && r in tiles
    ensures exists n | n in packs ::
              && r in packs[n]
              && (forall m | m in packs && r in packs[m] :: m == n)
              && OfflinePack(packs.Keys, Fine(terrain, r), Zoom(r), Place(r), None) == Some(n)
              && (AppPack(packs.Keys, Zoom(r), Place(r)) == Some(n) <==> !Fine(terrain, r))
  {
    hide Placed, Layered, OfflinePack, Fine, AppPack;
    assert Holds(packs, r);
    var n :| n in packs && r in packs[n];
    forall m | m in packs && r in packs[m]
      ensures m == n
    {
      OnePack(terrain, packs, tiles, r, m, n);
    }
    ReaderFindsPack(terrain, packs, tiles, r, n);
    AppFindsPackIff(terrain, packs, tiles, r, n);
  }

  // ----- squares and searches in plain numbers

  /** A square may hold a tile exactly when it is in the tile's folder, at a level from the tile's base level
      0, 7 or 9 to its zoom, and the tile's coordinates shifted to that level are its own. */
  lemma CoversMeans(terrain: bool, n: Name, r: Record, z: nat, x: int, y: int)
    requires H.InZoom(z, H.Point(x, y)) && r.id == H.Id(z, H.Point(x, y))
    ensures Covers(terrain, n, r)
       <==> && n.fine == (terrain && z >= 13)
            && (if z < 7 then 0 else if z < 9 then 7 else 9) <= n.level <= z
            && n.p == H.Point(x / Pow2(z - n.level), y / Pow2(z - n.level))
  {
    hide H.Id, H.InZoom, Pow2, H.Locate;
    H.LocateOfId(z, H.Point(x, y));
  }

  /** With a map zoom, the pack is the square of the tile at the smaller of the two zooms, if it exists. */
  lemma MapZoomPack(names: set<Name>, fine: bool, z: nat, x: int, y: int, mapZoom: nat)
    ensures var level := if z <= mapZoom then z else mapZoom;
      var n := Name(fine, level, H.Point(x / Pow2(z - level), y / Pow2(z - level)));
      OfflinePack(names, fine, z, H.Point(x, y), Some(mapZoom)) == if n in names then Some(n) else None
  {
    hide Pow2;
  }

  /** Without one, no existing square of the tile, from the zoom back to 0, 7 or 9, is deeper. */
  lemma {:induction false} DeepestIsDeepest(names: set<Name>, fine: bool, z: nat, p: H.Point, l: nat, k: nat)
    requires (if z < 7 then 0 else if z < 9 then 7 else 9) <= k <= l <= z
    ensures var n := Name(fine, k, H.Point(p.x / Pow2(z - k), p.y / Pow2(z - k)));
      var found := DeepestFrom(names, fine, z, p, l);
      n in names ==> found.Some? && k <= found.value.level
    decreases l
  {
    hide Pow2;
    if k < l { DeepestIsDeepest(names, fine, z, p, l - 1, k); }
  }
}
