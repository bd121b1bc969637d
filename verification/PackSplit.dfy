/** What `split` makes of a pack: the tiles that stay, those that move into the four squares below, and why
    the packs stay consistent. */
module PackSplit {
  import opened Seqs
  import opened MapPacks

  // ----- the parts of a split

  predicate Deeper(n: Name, r: Record) {
    Zoom(r) > n.level
  }

  /** The square one zoom deeper that a tile of pack n moves to. */
  function Child(n: Name, r: Record): Name {
    if Deeper(n, r) then Name(n.fine, n.level + 1, H.Ancestor(Zoom(r) - n.level - 1, Place(r))) else n
  }

  /** The tiles at the zoom of the pack. */
  function Kept(n: Name, records: seq<Record>): seq<Record> {
    if records == [] then [] else
      var k := |records| - 1;
      var before := Kept(n, records[..k]);
      if Deeper(n, records[k]) then before else before + [records[k]]
  }

  /** The deeper tiles inside square c. */
  function Moved(n: Name, c: Name, records: seq<Record>): seq<Record> {
    if records == [] then [] else
      var k := |records| - 1;
      var r, before := records[k], Moved(n, c, records[..k]);
      if Deeper(n, r) && Child(n, r) == c then before + [r] else before
  }

  lemma KeptSnoc(n: Name, done: seq<Record>, r: Record)
    ensures Kept(n, done + [r]) == if Deeper(n, r) then Kept(n, done) else Kept(n, done) + [r]
  {
    hide Deeper;
    TakeAppended(done, r);
  }

  lemma MovedSnoc(n: Name, c: Name, done: seq<Record>, r: Record)
    ensures Moved(n, c, done + [r]) ==
            if Deeper(n, r) && Child(n, r) == c then Moved(n, c, done) + [r] else Moved(n, c, done)
  {
    hide Deeper, Child;
    TakeAppended(done, r);
  }

  lemma {:induction false} KeptMembers(n: Name, records: seq<Record>)
    ensures forall r :: r in Kept(n, records) <==> r in records && !Deeper(n, r)
  {
    hide Deeper;
    if records != [] {
      var k := |records| - 1;
      KeptMembers(n, records[..k]);
      Snoc(records, k + 1);
      Whole(records);
    }
  }

  lemma {:induction false} MovedMembers(n: Name, c: Name, records: seq<Record>)
    ensures forall r :: r in Moved(n, c, records) <==> r in records && Deeper(n, r) && Child(n, r) == c
  {
    hide Deeper, Child;
    if records != [] {
      var k := |records| - 1;
      MovedMembers(n, c, records[..k]);
      Snoc(records, k + 1);
      Whole(records);
    }
  }

  lemma AscendingSnoc(a: seq<Record>, r: Record, records: seq<Record>)
    requires Ascending(a) && Ascending(records + [r]) && forall s | s in a :: s in records
    ensures Ascending(a + [r])
  {
    forall i | 0 <= i < |a|
      ensures a[i].id < r.id
    {
      assert a[i] in records;
      var j :| 0 <= j < |records| && records[j] == a[i];
      assert (records + [r])[j].id < (records + [r])[|records|].id;
    }
  }

  lemma {:induction false} KeptAscending(n: Name, records: seq<Record>)
    requires Ascending(records)
    ensures Ascending(Kept(n, records))
  {
    if records != [] {
      hide Deeper;
      var k := |records| - 1;
      Snoc(records, k + 1);
      Whole(records);
      assert Ascending(records[..k]);
      KeptAscending(n, records[..k]);
      KeptMembers(n, records[..k]);
      AscendingSnoc(Kept(n, records[..k]), records[k], records[..k]);
    }
  }

  lemma {:induction false} MovedAscending(n: Name, c: Name, records: seq<Record>)
    requires Ascending(records)
    ensures Ascending(Moved(n, c, records))
  {
    if records != [] {
      hide Deeper, Child;
      var k := |records| - 1;
      Snoc(records, k + 1);
      Whole(records);
      assert Ascending(records[..k]);
      MovedAscending(n, c, records[..k]);
      MovedMembers(n, c, records[..k]);
      AscendingSnoc(Moved(n, c, records[..k]), records[k], records[..k]);
    }
  }

  /** Every tile of the list may lie in pack n. */
  ghost predicate AllCovered(terrain: bool, n: Name, records: seq<Record>) {
    forall r | r in records :: Covers(terrain, n, r)
  }

  /** At most one tile of a pack has the pack's own zoom. */
  lemma KeptIsOne(terrain: bool, n: Name, records: seq<Record>)
    requires Ascending(records) && AllCovered(terrain, n, records)
    ensures |Kept(n, records)| <= 1
  {
    var kept := Kept(n, records);
    KeptMembers(n, records);
    KeptAscending(n, records);
    hide Kept;
    if |kept| > 1 {
      var a, b := kept[0], kept[1];
      assert a in kept && b in kept;
      SameSquare(terrain, n, a, b);
    }
  }

  // ----- a split keeps the packs consistent

  predicate IsChild(n: Name, c: Name) {
    c.fine == n.fine && c.level == n.level + 1 && BaseLevel(c.level) == BaseLevel(n.level) && H.Ancestor(1, c.p) == n.p
  }

  lemma ChildIsSquare(terrain: bool, n: Name, r: Record)
    requires Covers(terrain, n, r) && Deeper(n, r)
    ensures Covers(terrain, Child(n, r), r) && IsChild(n, Child(n, r))
  {
    hide Zoom, Place, H.Ancestor;
    AncestorOfAncestor(1, Zoom(r) - n.level - 1, Place(r));
  }

  /** The files after pack n with `records` is split. */
  ghost predicate IsSplit(files: Files, n: Name, records: seq<Record>, files': Files) {
    && (forall m | m in files && m != n :: m in files' && files'[m] == files[m])
    && (forall m | m in files' :: (m in files && m != n) || IsPart(files, n, records, files'[m], m))
    && (forall r | r in records :: if Deeper(n, r) then Child(n, r) in files' && Child(n, r) !in files else n in files')
  }

  /** A file that the split of n writes. */
  ghost predicate IsPart(files: Files, n: Name, records: seq<Record>, part: seq<Record>, m: Name) {
    && part != []
    && if m == n then part == Kept(n, records) else m !in files && IsChild(n, m) && part == Moved(n, m, records)
  }

  lemma SplitPlaced(terrain: bool, files: Files, n: Name, files': Files)
    requires Placed(terrain, files) && n in files && IsSplit(files, n, files[n], files')
    ensures Placed(terrain, files')
  {
    hide Zoom, Place, Square, IsChild, Deeper, Child;
    forall m | m in files'
      ensures files'[m] != [] && Ascending(files'[m]) && forall r | r in files'[m] :: Covers(terrain, m, r)
    {
      if !(m in files && m != n) { PartPlaced(terrain, files, n, files[n], files'[m], m); }
    }
  }

  lemma PartPlaced(terrain: bool, files: Files, n: Name, records: seq<Record>, part: seq<Record>, m: Name)
    requires Ascending(records) && AllCovered(terrain, n, records) && IsPart(files, n, records, part, m)
    ensures Ascending(part) && AllCovered(terrain, m, part)
  {
    hide Covers, IsChild, Deeper, Child;
    if m == n {
      KeptAscending(n, records);
      KeptMembers(n, records);
    } else {
      MovedAscending(n, m, records);
      MovedMembers(n, m, records);
      forall r | r in part
        ensures Covers(terrain, m, r)
      {
        ChildIsSquare(terrain, n, r);
      }
    }
  }

  lemma AboveChildOf(a: Name, n: Name, c: Name)
    requires IsChild(n, c) && Above(a, c) && a != n
    ensures Above(a, n)
  {
    hide H.Ancestor;
    if a.level < n.level { AncestorOfAncestor(n.level - a.level, 1, c.p); }
  }

  lemma ChildAbove(n: Name, c: Name, b: Name)
    requires IsChild(n, c) && Above(c, b)
    ensures Above(n, b)
  {
    hide H.Ancestor;
    AncestorOfAncestor(1, b.level - c.level, b.p);
  }

  lemma ChildrenApart(n: Name, c: Name, d: Name)
    requires (c == n || IsChild(n, c)) && (d == n || IsChild(n, d)) && Above(c, d)
    ensures c == n
  {
  }

  lemma SplitLayered(terrain: bool, files: Files, n: Name, files': Files)
    requires Placed(terrain, files) && Layered(files) && n in files && IsSplit(files, n, files[n], files')
    ensures Layered(files')
  {
    hide IsChild, Above, Deeper, Child;
    forall a, b | a in files' && b in files' && Above(a, b)
      ensures OwnOnly(a, files'[a])
    {
      SplitLayeredPair(terrain, files, n, files', a, b);
    }
  }

  lemma SplitLayeredPair(terrain: bool, files: Files, n: Name, files': Files, a: Name, b: Name)
    requires Placed(terrain, files) && Layered(files) && n in files && IsSplit(files, n, files[n], files')
    requires a in files' && b in files' && Above(a, b)
    ensures OwnOnly(a, files'[a])
  {
    hide IsChild, Above, Deeper, Child;
    var oldA, oldB := a in files && a != n, b in files && b != n;
    if a == n {
      KeptOwnOnly(terrain, n, files[n]);
    } else if oldA {
      if !oldB && b != n { AboveChildOf(a, n, b); }
      assert OwnOnly(a, files[a]);
    } else if oldB {
      ChildAbove(n, a, b);
      NoneMoved(n, a, files[n]);
    } else {
      ChildrenApart(n, a, b);
    }
  }

  lemma KeptOwnOnly(terrain: bool, n: Name, records: seq<Record>)
    requires AllCovered(terrain, n, records)
    ensures OwnOnly(n, Kept(n, records))
  {
    KeptMembers(n, records);
  }

  lemma {:induction false} NoneMoved(n: Name, a: Name, records: seq<Record>)
    requires OwnOnly(n, records)
    ensures Moved(n, a, records) == []
  {
    if records != [] {
      var k := |records| - 1;
      assert records[k] in records;
      NoneMoved(n, a, records[..k]);
    }
  }

  lemma SplitConserves(files: Files, tiles: set<Record>, n: Name, files': Files)
    requires Conserves(files, tiles) && n in files && IsSplit(files, n, files[n], files')
    ensures Conserves(files', tiles)
  {
    hide IsChild, IsSplit;
    forall r
      ensures r in tiles <==> Holds(files', r)
    {
      SplitHolds(files, n, files', r);
    }
  }

  lemma SplitHolds(files: Files, n: Name, files': Files, r: Record)
    requires n in files && IsSplit(files, n, files[n], files')
    ensures Holds(files, r) <==> Holds(files', r)
  {
    hide IsChild, Deeper, Child;
    KeptMembers(n, files[n]);
    if r in files[n] {
      var m := if Deeper(n, r) then Child(n, r) else n;
      MovedMembers(n, m, files[n]);
      assert m in files' && IsPart(files, n, files[n], files'[m], m);
    }
    if Holds(files', r) {
      var m :| m in files' && r in files'[m];
      MovedMembers(n, m, files[n]);
    }
  }

  lemma SplitConsistent(terrain: bool, files: Files, tiles: set<Record>, n: Name, files': Files)
    requires Consistent(terrain, files, tiles) && n in files && IsSplit(files, n, files[n], files')
    ensures Consistent(terrain, files', tiles)
  {
    hide Placed, Layered, Conserves, IsSplit;
    SplitPlaced(terrain, files, n, files');
    SplitLayered(terrain, files, n, files');
    SplitConserves(files, tiles, n, files');
  }

  /** The files of the children are new: a pack with deeper tiles has no pack below it. */
  lemma ChildIsNew(terrain: bool, files: Files, n: Name, r: Record)
    requires Placed(terrain, files) && Layered(files) && n in files && r in files[n] && Deeper(n, r)
    ensures Child(n, r) !in files
  {
    var c := Child(n, r);
    ChildIsSquare(terrain, n, r);
    hide Zoom, Place, Square, Child;
    CoveringSquaresNest(terrain, n, c, r);
    if c in files { NothingDeeper(files, n, c, r); }
  }
}
