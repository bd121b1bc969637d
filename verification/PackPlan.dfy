/** Which packs there are: a pack of a square holds all its tiles, unless they are too large together; then
    the squares above are too large as well, and the pack keeps only the tile of its own zoom. */
module PackPlan {
  import opened Seqs
  import opened MapPacks
  import opened PackSplit
  import opened Powers
  import H = Hilbert

  /** The size of the pack file of a list of tiles. */
  type Size = seq<Record> -> nat

  /** The tiles of the list that a square may hold, in their order. */
  function Within(terrain: bool, tiles: seq<Record>, n: Name): seq<Record> {
    if tiles == [] then [] else
      var k := |tiles| - 1;
      var before := Within(terrain, tiles[..k], n);
      if Covers(terrain, n, tiles[k]) then before + [tiles[k]] else before
  }

  lemma WithinSnoc(terrain: bool, done: seq<Record>, r: Record, n: Name)
    ensures Within(terrain, done + [r], n)
         == if Covers(terrain, n, r) then Within(terrain, done, n) + [r] else Within(terrain, done, n)
  {
    hide Covers;
    TakeAppended(done, r);
  }

  lemma {:induction false} WithinMembers(terrain: bool, tiles: seq<Record>, n: Name)
    ensures forall r :: r in Within(terrain, tiles, n) <==> r in tiles && Covers(terrain, n, r)
  {
    hide Covers;
    if tiles != [] {
      var k := |tiles| - 1;
      WithinMembers(terrain, tiles[..k], n);
      Snoc(tiles, k + 1);
      Whole(tiles);
    }
  }

  ghost predicate TooBig(terrain: bool, tiles: seq<Record>, size: Size, n: Name) {
    size(Within(terrain, tiles, n)) > 15 * 1024 * 1024
  }

  /** Every square above it in its level range is too large. */
  ghost predicate Strained(terrain: bool, tiles: seq<Record>, size: Size, n: Name) {
    forall m: Name | Above(m, n) :: TooBig(terrain, tiles, size, m)
  }

  /** A file of a square: all of its tiles, or, when these are too large, the tile of its own zoom. */
  ghost predicate RightFile(terrain: bool, tiles: seq<Record>, size: Size, n: Name, records: seq<Record>) {
    && Strained(terrain, tiles, size, n)
    && (records == Within(terrain, tiles, n)
        || (TooBig(terrain, tiles, size, n) && records == Kept(n, Within(terrain, tiles, n))))
  }

  ghost predicate RightFiles(terrain: bool, tiles: seq<Record>, size: Size, files: Files) {
    forall n | n in files :: RightFile(terrain, tiles, size, n, files[n])
  }

  // ----- staging

  /** The files of base squares hold all of their tiles. */
  ghost predicate WholeFiles(terrain: bool, done: seq<Record>, files: Files) {
    && (forall n | n in files :: files[n] == Within(terrain, done, n))
    && (forall n: Name, r | r in done && n.level == BaseLevel(n.level) && Covers(terrain, n, r) :: n in files)
  }

  /** A base square covers a tile exactly when it is the square that the tile is staged in. */
  lemma BaseIsOnly(terrain: bool, n: Name, m: Name, r: Record)
    requires n.level == BaseLevel(n.level) && m.level == BaseLevel(m.level)
    requires Covers(terrain, n, r)
    ensures Covers(terrain, m, r) <==> m == n
  {
    hide Zoom, Place, H.Ancestor;
  }

  lemma NoneWithin(terrain: bool, done: seq<Record>, n: Name)
    requires forall r | r in done :: !Covers(terrain, n, r)
    ensures Within(terrain, done, n) == []
  {
    WithinMembers(terrain, done, n);
    hide Covers, Within;
    var w := Within(terrain, done, n);
    if w != [] { FirstIsMember(w); }
  }

  lemma FirstIsMember(records: seq<Record>)
    requires records != []
    ensures exists r :: r in records
  {
    assert records[0] in records;
  }

  /** A tile staged in its base square. */
  lemma StageWhole(terrain: bool, done: seq<Record>, r: Record, files: Files, files': Files, n: Name)
    requires WholeFiles(terrain, done, files) && forall m | m in files :: m.level == BaseLevel(m.level)
    requires n.level == BaseLevel(n.level) && Covers(terrain, n, r)
    requires files' == files[n := (if n in files then files[n] else []) + [r]]
    ensures WholeFiles(terrain, done + [r], files')
  {
    hide Covers, Within;
    forall m | m in files'
      ensures files'[m] == Within(terrain, done + [r], m)
    {
      WithinSnoc(terrain, done, r, m);
      BaseIsOnly(terrain, n, m, r);
      if m == n && n !in files { NoneWithin(terrain, done, n); }
    }
    forall m: Name, s | s in done + [r] && m.level == BaseLevel(m.level) && Covers(terrain, m, s)
      ensures m in files'
    {
      if s == r { BaseIsOnly(terrain, n, m, r); }
    }
  }

  /** No square lies above a base square. */
  lemma BaseIsRight(terrain: bool, tiles: seq<Record>, size: Size, files: Files)
    requires WholeFiles(terrain, tiles, files) && forall n | n in files :: n.level == BaseLevel(n.level)
    ensures RightFiles(terrain, tiles, size, files)
  {
    hide Within, TooBig, H.Ancestor;
  }

  // ----- splitting

  /** A child covers the deeper tiles of its parent that it is the square of. */
  lemma ChildCovers(terrain: bool, n: Name, c: Name, r: Record)
    requires IsChild(n, c)
    ensures Covers(terrain, c, r) <==> Covers(terrain, n, r) && Deeper(n, r) && Child(n, r) == c
  {
    hide Zoom, Place, H.Ancestor;
    if Covers(terrain, n, r) && Deeper(n, r) { ChildIsSquare(terrain, n, r); }
    if Covers(terrain, c, r) { AncestorOfAncestor(1, Zoom(r) - c.level, Place(r)); }
  }

  lemma {:induction false} MovedIsWithin(terrain: bool, tiles: seq<Record>, n: Name, c: Name)
    requires IsChild(n, c)
    ensures Moved(n, c, Within(terrain, tiles, n)) == Within(terrain, tiles, c)
  {
    hide Covers, Deeper, Child, IsChild;
    if tiles != [] {
      var k := |tiles| - 1;
      MovedIsWithin(terrain, tiles[..k], n, c);
      ChildCovers(terrain, n, c, tiles[k]);
      MovedSnoc(n, c, Within(terrain, tiles[..k], n), tiles[k]);
    }
  }

  lemma ChildIsStrained(terrain: bool, tiles: seq<Record>, size: Size, n: Name, c: Name)
    requires IsChild(n, c) && Strained(terrain, tiles, size, n) && TooBig(terrain, tiles, size, n)
    ensures Strained(terrain, tiles, size, c)
  {
    hide TooBig;
    forall m: Name | Above(m, c)
      ensures TooBig(terrain, tiles, size, m)
    {
      if m != n { AboveChildOf(m, n, c); }
    }
  }

  /** A file that is too large and can be split holds all tiles of its square. */
  lemma SplitIsWhole(terrain: bool, tiles: seq<Record>, size: Size, n: Name, records: seq<Record>)
    requires Ascending(tiles) && RightFile(terrain, tiles, size, n, records)
    requires records != [] && |records| != 1 && size(records) > 15 * 1024 * 1024
    ensures records == Within(terrain, tiles, n) && TooBig(terrain, tiles, size, n)
  {
    var all := Within(terrain, tiles, n);
    WithinAscending(terrain, tiles, n);
    WithinMembers(terrain, tiles, n);
    hide Within, Covers, Kept;
    KeptIsOne(terrain, n, all);
  }

  lemma {:induction false} WithinAscending(terrain: bool, tiles: seq<Record>, n: Name)
    requires Ascending(tiles)
    ensures Ascending(Within(terrain, tiles, n))
  {
    hide Covers;
    if tiles != [] {
      var k := |tiles| - 1;
      Snoc(tiles, k + 1);
      Whole(tiles);
      assert Ascending(tiles[..k]);
      WithinAscending(terrain, tiles[..k], n);
      WithinMembers(terrain, tiles[..k], n);
      AscendingSnoc(Within(terrain, tiles[..k], n), tiles[k], tiles[..k]);
    }
  }

  /** Splitting a file that is too large keeps the files right. */
  lemma SplitKeepsRight(terrain: bool, tiles: seq<Record>, size: Size, files: Files, n: Name, files': Files)
    requires Ascending(tiles) && RightFiles(terrain, tiles, size, files) && n in files
    requires files[n] != [] && |files[n]| != 1 && size(files[n]) > 15 * 1024 * 1024
    requires IsSplit(files, n, files[n], files')
    ensures RightFiles(terrain, tiles, size, files')
  {
    SplitIsWhole(terrain, tiles, size, n, files[n]);
    hide Strained, TooBig, Within, Kept, Moved, IsChild, Deeper, Child, Ascending;
    forall m | m in files'
      ensures RightFile(terrain, tiles, size, m, files'[m])
    {
      if !(m in files && m != n) {
        assert IsPart(files, n, files[n], files'[m], m);
        if m != n {
          MovedIsWithin(terrain, tiles, n, m);
          ChildIsStrained(terrain, tiles, size, n, m);
        }
      }
    }
  }

  // ----- the packs of an archive

  /** What the pack of a square holds. */
  ghost function Plan(terrain: bool, tiles: seq<Record>, size: Size, n: Name): seq<Record> {
    var all := Within(terrain, tiles, n);
    if size(all) <= 15 * 1024 * 1024 then all else Kept(n, all)
  }

  lemma PackIsPlanned(terrain: bool, tiles: seq<Record>, size: Size, packs: Files, n: Name)
    requires Consistent(terrain, packs, set r | r in tiles) && RightFiles(terrain, tiles, size, packs)
    requires forall m | m in packs :: size(packs[m]) <= 15 * 1024 * 1024
    requires n in packs
    ensures Strained(terrain, tiles, size, n) && packs[n] == Plan(terrain, tiles, size, n) != []
  {
    assert RightFile(terrain, tiles, size, n, packs[n]);
    hide Within, Kept, Strained, Covers;
  }

  /** A tile of the plan of a strained square has its pack there. */
  lemma PlannedIsPack(terrain: bool, tiles: seq<Record>, size: Size, packs: Files, n: Name)
    requires Consistent(terrain, packs, set r | r in tiles) && RightFiles(terrain, tiles, size, packs)
    requires forall m | m in packs :: size(packs[m]) <= 15 * 1024 * 1024
    requires Strained(terrain, tiles, size, n) && Plan(terrain, tiles, size, n) != []
    ensures n in packs
  {
    var plan, all := Plan(terrain, tiles, size, n), Within(terrain, tiles, n);
    WithinMembers(terrain, tiles, n);
    KeptMembers(n, all);
    var r := plan[0];
    assert r in plan && r in all;
    assert Holds(packs, r);
    var m :| m in packs && r in packs[m];
    assert Covers(terrain, m, r) && Covers(terrain, n, r);
    PackIsPlanned(terrain, tiles, size, packs, m);
    CoveringSquaresNest(terrain, n, m, r);
    CoveringSquaresNest(terrain, m, n, r);
    WithinMembers(terrain, tiles, m);
    KeptMembers(m, Within(terrain, tiles, m));
    PlansMeet(terrain, tiles, size, n, m, r);
  }

  /** Two squares of one tile whose plans hold it, and above which all are too large, are the same. */
  lemma PlansMeet(terrain: bool, tiles: seq<Record>, size: Size, n: Name, m: Name, r: Record)
    requires Strained(terrain, tiles, size, n) && Strained(terrain, tiles, size, m)
    requires Covers(terrain, n, r) && Covers(terrain, m, r)
    requires r in Plan(terrain, tiles, size, n) && r in Plan(terrain, tiles, size, m)
    ensures m == n
  {
    CoveringSquaresNest(terrain, n, m, r);
    CoveringSquaresNest(terrain, m, n, r);
    KeptMembers(n, Within(terrain, tiles, n));
    KeptMembers(m, Within(terrain, tiles, m));
    hide Within, Kept, Zoom, Square, Above;
  }

  /** The packs are exactly these: a square has a pack when all squares above it in its level range are too
      large and it has a tile to hold; the pack holds all tiles of the square if they fit, and else the one of
      its own zoom. */
  lemma PacksArePlanned(terrain: bool, tiles: seq<Record>, size: Size, packs: Files, n: Name)
    requires Consistent(terrain, packs, set r | r in tiles) && RightFiles(terrain, tiles, size, packs)
    requires forall m | m in packs :: size(packs[m]) <= 15 * 1024 * 1024
    ensures n in packs <==> Strained(terrain, tiles, size, n) && Plan(terrain, tiles, size, n) != []
    ensures n in packs ==> packs[n] == Plan(terrain, tiles, size, n)
  {
    hide Strained, Plan, RightFiles, Consistent;
    if n in packs { PackIsPlanned(terrain, tiles, size, packs, n); }
    if Strained(terrain, tiles, size, n) && Plan(terrain, tiles, size, n) != [] {
      PlannedIsPack(terrain, tiles, size, packs, n);
    }
  }

  /** A pack deeper than its base level is there only because all tiles of the square one zoom up are too
      large together. */
  lemma DeeperIsNeeded(terrain: bool, tiles: seq<Record>, size: Size, n: Name)
    requires Strained(terrain, tiles, size, n) && n.level > BaseLevel(n.level)
    ensures var up := Name(n.fine, n.level - 1, H.Point(n.p.x / 2, n.p.y / 2));
      size(Within(terrain, tiles, up)) > 15 * 1024 * 1024
  {
    var up := Name(n.fine, n.level - 1, H.Point(n.p.x / 2, n.p.y / 2));
    assert Pow2(1) == 2 && Above(up, n);
    hide Above, Within;
  }

  /** A square whose tiles fit together, below squares whose tiles do not, is one pack of exactly its tiles. */
  lemma FittingIsWhole(terrain: bool, tiles: seq<Record>, size: Size, n: Name, packs: Files)
    requires Consistent(terrain, packs, set r | r in tiles) && RightFiles(terrain, tiles, size, packs)
    requires forall m | m in packs :: size(packs[m]) <= 15 * 1024 * 1024
    requires Within(terrain, tiles, n) != [] && size(Within(terrain, tiles, n)) <= 15 * 1024 * 1024
    requires forall m: Name | Above(m, n) :: size(Within(terrain, tiles, m)) > 15 * 1024 * 1024
    ensures n in packs && packs[n] == Within(terrain, tiles, n)
  {
    hide Within, Consistent, RightFiles, Above;
    PacksArePlanned(terrain, tiles, size, packs, n);
  }
}
