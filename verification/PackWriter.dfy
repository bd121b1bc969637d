/** `split` and the pack loop of `map_tiles`. The size of a pack file is a parameter: it stands for the
    PMTiles writer. */
module PackWriter {
  import opened Wrappers
  import opened Seqs
  import opened MapPacks
  import opened PackSplit
  import opened PackPlan

  // ----- the work that is left

  /** The zooms that the tiles can still move down, plus one each. */
  function Work(level: nat, records: seq<Record>): int {
    if records == [] then 0 else
      var k := |records| - 1;
      Work(level, records[..k]) + 1 + Zoom(records[k]) - level
  }

  function WorkOf(n: Name, files: Files): int {
    if n in files then Work(n.level, files[n]) else 0
  }

  function Total(names: seq<Name>, files: Files): int {
    if names == [] then 0 else
      var k := |names| - 1;
      Total(names[..k], files) + WorkOf(names[k], files)
  }

  ghost predicate NoRepeats(names: seq<Name>) {
    forall i, j | 0 <= i < j < |names| :: names[i] != names[j]
  }

  lemma WorkSnoc(level: nat, records: seq<Record>, r: Record)
    ensures Work(level, records + [r]) == Work(level, records) + 1 + Zoom(r) - level
  {
    hide Zoom;
    TakeAppended(records, r);
  }

  lemma {:induction false} WorkPositive(terrain: bool, n: Name, records: seq<Record>)
    requires AllCovered(terrain, n, records)
    ensures Work(n.level, records) >= |records|
  {
    if records != [] {
      var k := |records| - 1;
      assert records[k] in records;
      WorkPositive(terrain, n, records[..k]);
    }
  }

  lemma {:induction false} TotalSame(names: seq<Name>, f: Files, g: Files)
    requires forall n | n in names :: n in f && n in g && f[n] == g[n]
    ensures Total(names, f) == Total(names, g)
  {
    if names != [] {
      var k := |names| - 1;
      assert names[k] in names;
      TotalSame(names[..k], f, g);
    }
  }

  lemma TotalSnoc(names: seq<Name>, n: Name, f: Files)
    ensures Total(names + [n], f) == Total(names, f) + WorkOf(n, f)
  {
    TakeAppended(names, n);
  }

  lemma {:induction false} TotalConcat(a: seq<Name>, b: seq<Name>, f: Files)
    ensures Total(a + b, f) == Total(a, f) + Total(b, f)
  {
    hide WorkOf;
    if b == [] {
      assert a + b == a;
    } else {
      var k := |b| - 1;
      var front, last := b[..k], b[k];
      Snoc(b, k + 1);
      Whole(b);
      assert a + b == (a + front) + [last];
      TotalConcat(a, front, f);
      TotalSnoc(a + front, last, f);
    }
  }

  /** One more record in one of the files. */
  lemma {:induction false} TotalBump(names: seq<Name>, f: Files, g: Files, c: Name, r: Record)
    requires NoRepeats(names) && c in names && forall n | n in names :: n in f && n in g
    requires g[c] == f[c] + [r] && forall n | n in names && n != c :: g[n] == f[n]
    ensures Total(names, g) == Total(names, f) + 1 + Zoom(r) - c.level
  {
    hide Zoom;
    var k := |names| - 1;
    var front, last := names[..k], names[k];
    Snoc(names, k + 1);
    Whole(names);
    assert last in names;
    assert forall n | n in front :: n in names;
    if last == c {
      assert forall i | 0 <= i < k :: names[i] != names[k];
      TotalSame(front, f, g);
      WorkSnoc(c.level, f[c], r);
    } else {
      assert c in front;
      TotalBump(front, f, g, c, r);
    }
  }

  // ----- the loop of a split

  function DeeperCount(n: Name, records: seq<Record>): nat {
    if records == [] then 0 else
      var k := |records| - 1;
      DeeperCount(n, records[..k]) + if Deeper(n, records[k]) then 1 else 0
  }

  lemma {:induction false} KeptOrDeeper(n: Name, records: seq<Record>)
    ensures |Kept(n, records)| + DeeperCount(n, records) == |records|
  {
    if records != [] { KeptOrDeeper(n, records[..|records| - 1]); }
  }

  function Last(records: seq<Record>): Option<Record> {
    if records == [] then None else Some(records[|records| - 1])
  }

  /** The files that the split has opened so far are new and hold something. */
  ghost predicate Opened(files: Files, files': Files, children: seq<Name>) {
    && NoRepeats(children)
    && (forall c | c in children :: c !in files && c in files' && files'[c] != [])
    && (forall m | m in files' :: m in files || m in children)
    && (forall m | m in files :: m in files' && files'[m] == files[m])
  }

  /** Each of them holds the deeper records of its square. */
  ghost predicate Filled(n: Name, done: seq<Record>, files': Files, children: seq<Name>) {
    && (forall c | c in children :: c in files' && files'[c] == Moved(n, c, done))
    && (forall r | r in done && Deeper(n, r) :: Child(n, r) in children)
  }

  /** Each deeper record has lost one zoom of work. */
  ghost predicate Counted(n: Name, done: seq<Record>, files': Files, children: seq<Name>) {
    Total(children, files') + DeeperCount(n, done) + |Kept(n, done)| == Work(n.level, done)
  }

  /** What the loop has done after the records `done`. */
  ghost predicate Sorting(files: Files, n: Name, done: seq<Record>, files': Files, children: seq<Name>,
                          own: Option<Record>)
  {
    && Opened(files, files', children)
    && Filled(n, done, files', children)
    && Counted(n, done, files', children)
    && own == Last(Kept(n, done))
  }

  /** The files and the children after a deeper record is staged. */
  function Staged(files: Files, c: Name, r: Record): Files {
    files[c := (if c in files then files[c] else []) + [r]]
  }

  function WithChild(children: seq<Name>, c: Name): seq<Name> {
    if c in children then children else children + [c]
  }

  lemma {:induction false} NotYetMoved(n: Name, c: Name, records: seq<Record>, children: seq<Name>)
    requires c !in children && forall r | r in records && Deeper(n, r) :: Child(n, r) in children
    ensures Moved(n, c, records) == []
  {
    if records != [] {
      var k := |records| - 1;
      assert records[k] in records;
      assert forall r | r in records[..k] :: r in records;
      NotYetMoved(n, c, records[..k], children);
    }
  }

  lemma SortingStart(files: Files, n: Name)
    ensures Sorting(files, n, [], files, [], None)
  {
  }

  lemma FilledOwn(n: Name, done: seq<Record>, r: Record, files': Files, children: seq<Name>)
    requires !Deeper(n, r) && Filled(n, done, files', children)
    ensures Filled(n, done + [r], files', children)
  {
    hide Child, Deeper, Moved;
    forall c | c in children
      ensures c in files' && files'[c] == Moved(n, c, done + [r])
    {
      MovedSnoc(n, c, done, r);
    }
  }

  lemma CountedOwn(n: Name, done: seq<Record>, r: Record, files': Files, children: seq<Name>)
    requires Zoom(r) == n.level && Counted(n, done, files', children)
    ensures Counted(n, done + [r], files', children)
  {
    KeptSnoc(n, done, r);
    WorkSnoc(n.level, done, r);
    TakeAppended(done, r);
    hide Zoom, Total, Work;
  }

  lemma SortOwn(files: Files, n: Name, done: seq<Record>, r: Record, files': Files, children: seq<Name>,
                own: Option<Record>)
    requires Sorting(files, n, done, files', children, own) && Zoom(r) == n.level
    ensures Sorting(files, n, done + [r], files', children, Some(r))
  {
    hide Opened, Filled, Counted, Kept, Zoom;
    FilledOwn(n, done, r, files', children);
    CountedOwn(n, done, r, files', children);
    KeptSnoc(n, done, r);
  }

  lemma OpenedChild(files: Files, files': Files, children: seq<Name>, c: Name, r: Record)
    requires Opened(files, files', children) && c !in files
    ensures Opened(files, Staged(files', c, r), WithChild(children, c))
  {
  }

  lemma FilledChild(n: Name, done: seq<Record>, r: Record, files': Files, children: seq<Name>, c: Name)
    requires Deeper(n, r) && c == Child(n, r) && (c in files' <==> c in children)
    requires Filled(n, done, files', children)
    ensures Filled(n, done + [r], Staged(files', c, r), WithChild(children, c))
  {
    hide Child, Deeper;
    var all, more := WithChild(children, c), Staged(files', c, r);
    forall d | d in all
      ensures d in more && more[d] == Moved(n, d, done + [r])
    {
      MovedSnoc(n, d, done, r);
      if d !in children { NotYetMoved(n, d, done, children); }
    }
  }

  lemma TotalStaged(files: Files, children: seq<Name>, c: Name, r: Record)
    requires NoRepeats(children) && (forall n | n in children :: n in files) && (c in files <==> c in children)
    ensures Total(WithChild(children, c), Staged(files, c, r)) == Total(children, files) + 1 + Zoom(r) - c.level
  {
    hide Zoom;
    var files' := Staged(files, c, r);
    if c in children {
      TotalBump(children, files, files', c, r);
    } else {
      TotalSame(children, files, files');
      TotalSnoc(children, c, files');
      WorkSnoc(c.level, [], r);
      assert [] + [r] == [r];
    }
  }

  lemma CountedChild(n: Name, done: seq<Record>, r: Record, files': Files, children: seq<Name>, c: Name)
    requires Deeper(n, r) && c.level == n.level + 1 && Counted(n, done, files', children)
    requires NoRepeats(children) && (forall m | m in children :: m in files') && (c in files' <==> c in children)
    ensures Counted(n, done + [r], Staged(files', c, r), WithChild(children, c))
  {
    TotalStaged(files', children, c, r);
    KeptSnoc(n, done, r);
    WorkSnoc(n.level, done, r);
    TakeAppended(done, r);
    hide Zoom, Total, Work, Staged, WithChild, Kept;
  }

  lemma SortChild(files: Files, n: Name, done: seq<Record>, r: Record, files': Files, children: seq<Name>,
                  own: Option<Record>)
    requires Sorting(files, n, done, files', children, own) && Deeper(n, r) && Child(n, r) !in files
    ensures Sorting(files, n, done + [r], Staged(files', Child(n, r), r), WithChild(children, Child(n, r)), own)
  {
    hide Filled, Counted, Kept, Staged, WithChild;
    var c := Child(n, r);
    OpenedChild(files, files', children, c, r);
    FilledChild(n, done, r, files', children, c);
    CountedChild(n, done, r, files', children, c);
    KeptSnoc(n, done, r);
  }

  /** One record of the loop: kept, or staged one zoom deeper. */
  lemma SortStep(terrain: bool, files: Files, n: Name, done: seq<Record>, r: Record, files': Files,
                 children: seq<Name>, own: Option<Record>)
    requires Placed(terrain, files) && Layered(files) && n in files && r in files[n]
    requires Sorting(files, n, done, files', children, own)
    ensures if Zoom(r) == n.level then Sorting(files, n, done + [r], files', children, Some(r))
            else Deeper(n, r)
                 && Sorting(files, n, done + [r], Staged(files', Child(n, r), r), WithChild(children, Child(n, r)), own)
  {
    assert Covers(terrain, n, r);
    hide Sorting, Placed, Layered, Zoom;
    if Zoom(r) == n.level {
      SortOwn(files, n, done, r, files', children, own);
    } else {
      ChildIsNew(terrain, files, n, r);
      SortChild(files, n, done, r, files', children, own);
    }
  }

  /** The files after the split, and the names to write next. */
  function Finished(files: Files, n: Name, own: Option<Record>): Files {
    if own.Some? then (files - {n})[n := [own.value]] else files - {n}
  }

  function Made(n: Name, children: seq<Name>, own: Option<Record>): seq<Name> {
    if own.Some? then [n] + children else children
  }

  lemma ChildPart(terrain: bool, n: Name, m: Name, records: seq<Record>)
    requires AllCovered(terrain, n, records) && Moved(n, m, records) != []
    ensures IsChild(n, m)
  {
    hide IsChild;
    MovedMembers(n, m, records);
    var r := Moved(n, m, records)[0];
    assert r in Moved(n, m, records);
    ChildIsSquare(terrain, n, r);
  }

  lemma LastIsAll(records: seq<Record>)
    requires |records| <= 1
    ensures Last(records).None? ==> records == []
    ensures Last(records).Some? ==> records == [Last(records).value]
  {
  }

  /** The children and the pack itself are the parts of the split. */
  lemma PartsOfSplit(terrain: bool, files: Files, n: Name, records: seq<Record>, files': Files, children: seq<Name>,
                     own: Option<Record>, m: Name)
    requires Ascending(records) && AllCovered(terrain, n, records) && n in files
    requires Sorting(files, n, records, files', children, own) && m in Made(n, children, own)
    ensures m in Finished(files', n, own) && IsPart(files, n, records, Finished(files', n, own)[m], m)
  {
    hide IsChild, Covers, Counted, Kept, Moved;
    KeptIsOne(terrain, n, records);
    LastIsAll(Kept(n, records));
    if m != n { ChildPart(terrain, n, m, records); }
  }

  lemma SortingDone(terrain: bool, files: Files, n: Name, records: seq<Record>, files': Files, children: seq<Name>,
                    own: Option<Record>)
    requires Ascending(records) && AllCovered(terrain, n, records) && n in files
    requires Sorting(files, n, records, files', children, own)
    requires forall r | r in records && Deeper(n, r) :: Child(n, r) !in files
    ensures IsSplit(files, n, records, Finished(files', n, own))
  {
    hide IsPart, Covers, Counted, Deeper, Child, Kept, Moved;
    var result := Finished(files', n, own);
    forall m | m in result && !(m in files && m != n)
      ensures IsPart(files, n, records, result[m], m)
    {
      PartsOfSplit(terrain, files, n, records, files', children, own, m);
    }
    forall r | r in records && !Deeper(n, r)
      ensures own.Some?
    {
      KeptMembers(n, records);
      assert r in Kept(n, records);
    }
  }

  lemma MadeWork(terrain: bool, files: Files, n: Name, records: seq<Record>, files': Files, children: seq<Name>,
                 own: Option<Record>)
    requires Ascending(records) && AllCovered(terrain, n, records) && n in files && |records| > 1
    requires Sorting(files, n, records, files', children, own)
    ensures Total(Made(n, children, own), Finished(files', n, own)) < Work(n.level, records)
  {
    var result := Finished(files', n, own);
    KeptIsOne(terrain, n, records);
    LastIsAll(Kept(n, records));
    KeptOrDeeper(n, records);
    TotalSame(children, files', result);
    if own.Some? { OwnWork(terrain, n, records, own.value, children, result); }
    hide Total, Work, Kept;
  }

  /** A pack of its own tile has one unit of work. */
  lemma OwnWork(terrain: bool, n: Name, records: seq<Record>, r: Record, children: seq<Name>, files: Files)
    requires AllCovered(terrain, n, records) && Kept(n, records) == [r] && n in files && files[n] == [r]
    ensures Total([n] + children, files) == Total(children, files) + 1
  {
    KeptMembers(n, records);
    assert r in Kept(n, records);
    assert Zoom(r) == n.level;
    hide Zoom, Kept;
    TotalConcat([n], children, files);
    TotalSnoc([], n, files);
    WorkSnoc(n.level, [], r);
    assert [] + [n] == [n] && [] + [r] == [r];
  }

  lemma MadeNames(files: Files, n: Name, done: seq<Record>, files': Files, children: seq<Name>, own: Option<Record>)
    requires n in files && Sorting(files, n, done, files', children, own)
    ensures NoRepeats(Made(n, children, own))
    ensures forall m | m in Finished(files', n, own) :: (m in files && m != n) || m in Made(n, children, own)
    ensures forall m | m in Made(n, children, own) :: m in Finished(files', n, own) && (m == n || m !in files)
  {
    hide Filled, Counted, Kept;
  }

  lemma ChildrenAreNew(terrain: bool, files: Files, n: Name)
    requires Placed(terrain, files) && Layered(files) && n in files
    ensures forall r | r in files[n] && Deeper(n, r) :: Child(n, r) !in files
  {
    hide Placed, Layered, Deeper, Child;
    forall r | r in files[n] && Deeper(n, r)
      ensures Child(n, r) !in files
    {
      ChildIsNew(terrain, files, n, r);
    }
  }

  /** The result of a split: the files, and the packs to write next. */
  datatype Parts = TooLarge | Parts(files: Files, made: seq<Name>)

  ghost predicate SplitsInto(files: Files, n: Name, parts: Parts)
    requires n in files
  {
    if |files[n]| == 1 then parts == TooLarge else
      && parts.Parts?
      && IsSplit(files, n, files[n], parts.files)
      && NoRepeats(parts.made)
      && (forall m | m in parts.files :: (m in files && m != n) || m in parts.made)
      && (forall m | m in parts.made :: m in parts.files && (m == n || m !in files))
      && Total(parts.made, parts.files) < Work(n.level, files[n])
  }

  lemma SplitResult(terrain: bool, files: Files, n: Name, files': Files, children: seq<Name>, own: Option<Record>)
    requires Placed(terrain, files) && Layered(files) && n in files && |files[n]| != 1
    requires Sorting(files, n, files[n], files', children, own)
    ensures SplitsInto(files, n, Parts(Finished(files', n, own), Made(n, children, own)))
  {
    ChildrenAreNew(terrain, files, n);
    assert Ascending(files[n]) && AllCovered(terrain, n, files[n]) && |files[n]| > 1;
    hide Placed, Layered, Ascending, AllCovered, Sorting, IsSplit, Total, Work, NoRepeats, Finished, Made;
    SortingDone(terrain, files, n, files[n], files', children, own);
    MadeWork(terrain, files, n, files[n], files', children, own);
    MadeNames(files, n, files[n], files', children, own);
  }

  /** Moves the deeper tiles into the files of the four squares below and keeps the pack's own tile; a pack
      of one tile is too large to split. */
  method Split(ghost terrain: bool, files: Files, n: Name) returns (parts: Parts)
    requires Placed(terrain, files) && Layered(files) && n in files
    ensures SplitsInto(files, n, parts)
  {
    hide Placed, Layered, SplitsInto, Sorting, Zoom, Place, Child, Deeper;
    var records := files[n];
    var own: Option<Record>, children: seq<Name>, files' := None, [], files;
    SortingStart(files, n);
    assert records[..0] == [];
    for i := 0 to |records|
      invariant Sorting(files, n, records[..i], files', children, own)
    {
      var record := records[i];
      Snoc(records, i + 1);
      SortStep(terrain, files, n, records[..i], record, files', children, own);
      if Zoom(record) == n.level {
        own := Some(record);
      } else {
        var c := Child(n, record);
        children := WithChild(children, c);
        files' := Staged(files', c, record);
      }
    }
    Whole(records);
    if |records| == 1 {
      TooLargeResult(files, n);
      return TooLarge;
    }
    SplitResult(terrain, files, n, files', children, own);
    return Parts(Finished(files', n, own), Made(n, children, own));
  }

  lemma TooLargeResult(files: Files, n: Name)
    requires n in files && |files[n]| == 1
    ensures SplitsInto(files, n, TooLarge)
  {
  }

  // ----- the pack loop

  datatype Outcome = Failed(record: Record) | Packed(packs: Files)

  /** The staging file of a tile: its square at its base level. */
  function BaseName(terrain: bool, r: Record): Name {
    Square(terrain, r, BaseLevel(Zoom(r)))
  }

  /** The staging files after the tiles `done`: each tile in its base square, in order. */
  ghost predicate AtBase(files: Files) {
    forall n | n in files :: n.level == BaseLevel(n.level)
  }

  lemma BaseIsLayered(files: Files)
    requires AtBase(files)
    ensures Layered(files)
  {
  }

  lemma BaseCovers(terrain: bool, r: Record)
    ensures Covers(terrain, BaseName(terrain, r), r)
    ensures BaseName(terrain, r).level == BaseLevel(BaseName(terrain, r).level)
  {
  }

  ghost function Tiles(tiles: seq<Record>): set<Record> {
    set r | r in tiles
  }

  lemma StagePlaced(terrain: bool, files: Files, done: seq<Record>, r: Record)
    requires Placed(terrain, files) && Conserves(files, Tiles(done)) && Ascending(done + [r])
    ensures Placed(terrain, Staged(files, BaseName(terrain, r), r))
  {
    BaseCovers(terrain, r);
    hide BaseName, Covers;
    var n := BaseName(terrain, r);
    var files' := Staged(files, n, r);
    if n in files {
      forall s | s in files[n]
        ensures s in done
      {
        assert Holds(files, s);
        assert s in Tiles(done);
      }
      AscendingSnoc(files[n], r, done);
      assert files'[n] == files[n] + [r];
    } else {
      assert files'[n] == [r];
    }
  }

  lemma StageConserves(files: Files, done: seq<Record>, r: Record, n: Name)
    requires Conserves(files, Tiles(done))
    ensures Conserves(Staged(files, n, r), Tiles(done + [r]))
  {
    var files' := Staged(files, n, r);
    forall s
      ensures s in Tiles(done + [r]) <==> Holds(files', s)
    {
      StageHolds(files, n, r, s);
      assert s in Tiles(done + [r]) <==> s in Tiles(done) || s == r;
    }
  }

  lemma StageHolds(files: Files, n: Name, r: Record, s: Record)
    ensures Holds(Staged(files, n, r), s) <==> Holds(files, s) || s == r
  {
    var files' := Staged(files, n, r);
    if Holds(files, s) {
      var m :| m in files && s in files[m];
      assert s in files'[m];
    }
    assert r in files'[n];
    if Holds(files', s) {
      var m :| m in files' && s in files'[m];
      assert m != n ==> m in files && s in files[m];
    }
  }

  /** Stages the tiles of an archive, in ascending order, in the files of their base squares. */
  method Stage(terrain: bool, tiles: seq<Record>) returns (files: Files)
    requires Ascending(tiles)
    ensures Consistent(terrain, files, Tiles(tiles))
    ensures WholeFiles(terrain, tiles, files) && AtBase(files)
  {
    hide Placed, Conserves, BaseName, Ascending, Tiles, WholeFiles, Covers;
    files := map[];
    assert tiles[..0] == [];
    StageStart(terrain);
    for i := 0 to |tiles|
      invariant Placed(terrain, files) && AtBase(files) && Conserves(files, Tiles(tiles[..i]))
      invariant WholeFiles(terrain, tiles[..i], files)
    {
      var r := tiles[i];
      Snoc(tiles, i + 1);
      AscendingPrefix(tiles, i + 1);
      var name := BaseName(terrain, r);
      BaseCovers(terrain, r);
      StagePlaced(terrain, files, tiles[..i], r);
      StageConserves(files, tiles[..i], r, name);
      StageWhole(terrain, tiles[..i], r, files, Staged(files, name, r), name);
      files := Staged(files, name, r);
    }
    Whole(tiles);
    BaseIsLayered(files);
  }

  lemma StageStart(terrain: bool)
    ensures Placed(terrain, map[]) && Conserves(map[], Tiles([])) && WholeFiles(terrain, [], map[])
  {
  }

  lemma AscendingPrefix(tiles: seq<Record>, i: nat)
    requires Ascending(tiles) && i <= |tiles|
    ensures Ascending(tiles[..i])
  {
  }

  /** The staging files and the written packs are apart, and the pending names are the staging files. */
  ghost predicate Apart(staging: Files, packs: Files, pending: seq<Name>) {
    && NoRepeats(pending)
    && (forall n | n in pending :: n in staging)
    && (forall n | n in staging :: n in pending && n !in packs)
  }

  ghost predicate Fit(size: Size, packs: Files) {
    forall n | n in packs :: size(packs[n]) <= PACK_BYTES
  }

  /** Splitting a staging file splits the pack among all packs. */
  lemma SplitAmongAll(terrain: bool, staging: Files, packs: Files, n: Name, staging': Files)
    requires Placed(terrain, staging + packs) && Layered(staging + packs) && n in staging && n !in packs
    requires forall m | m in staging :: m !in packs
    requires IsSplit(staging, n, staging[n], staging')
    ensures IsSplit(staging + packs, n, staging[n], staging' + packs)
    ensures forall m | m in staging' :: m !in packs
  {
    ChildrenAreNew(terrain, staging + packs, n);
    hide Placed, Layered, Deeper, Child, IsChild, Kept, Moved;
    forall m | m in staging'
      ensures m !in packs && (m in staging || m !in staging + packs)
    {
      if m !in staging { PartIsNew(staging, staging + packs, n, staging', m); }
    }
  }

  /** A file that the split opens has no pack of its name yet. */
  lemma PartIsNew(staging: Files, all: Files, n: Name, staging': Files, m: Name)
    requires n in staging && IsSplit(staging, n, staging[n], staging') && m in staging' && m !in staging
    requires forall r | r in staging[n] && Deeper(n, r) :: Child(n, r) !in all
    ensures m !in all
  {
    hide Deeper, Child, IsChild, Kept;
    MovedMembers(n, m, staging[n]);
    var r := staging'[m][0];
    assert r in Moved(n, m, staging[n]);
  }

  lemma PlacedPart(terrain: bool, staging: Files, packs: Files)
    requires Placed(terrain, staging + packs) && Layered(staging + packs)
    requires forall m | m in staging :: m !in packs
    ensures Placed(terrain, staging) && Layered(staging)
  {
    hide Covers, Above, OwnOnly;
    forall m | m in staging
      ensures m in staging + packs && (staging + packs)[m] == staging[m]
    {
    }
  }

  /** The state of the loop. */
  ghost predicate Working(terrain: bool, tiles: seq<Record>, size: Size, staging: Files, packs: Files,
                          pending: seq<Name>)
  {
    && Consistent(terrain, staging + packs, Tiles(tiles)) && Apart(staging, packs, pending) && Fit(size, packs)
    && RightFiles(terrain, tiles, size, staging + packs)
  }

  lemma PoppedName(pending: seq<Name>, n: Name)
    requires NoRepeats(pending + [n])
    ensures n !in pending && NoRepeats(pending)
  {
    var all := pending + [n];
    assert all[|pending|] == n;
    assert forall i | 0 <= i < |pending| :: all[i] == pending[i];
  }

  lemma PoppedTotal(staging: Files, packs: Files, pending: seq<Name>, n: Name)
    requires Apart(staging, packs, pending + [n])
    ensures n in staging && n !in packs && n !in pending && NoRepeats(pending)
    ensures Total(pending + [n], staging) == Total(pending, staging) + Work(n.level, staging[n])
  {
    hide Work, NoRepeats;
    PoppedName(pending, n);
    assert n in pending + [n];
    TotalSnoc(pending, n, staging);
  }

  lemma WrittenApart(staging: Files, packs: Files, pending: seq<Name>, n: Name)
    requires Apart(staging, packs, pending + [n])
    ensures n in staging && Apart(staging - {n}, packs[n := staging[n]], pending)
    ensures (staging - {n}) + packs[n := staging[n]] == staging + packs
  {
    PoppedTotal(staging, packs, pending, n);
    hide NoRepeats;
    assert forall m :: m in pending + [n] <==> m in pending || m == n;
    SameFiles(staging, packs, n);
  }

  lemma SameFiles(staging: Files, packs: Files, n: Name)
    requires n in staging && n !in packs
    ensures (staging - {n}) + packs[n := staging[n]] == staging + packs
  {
  }

  /** A pack that fits is written. */
  lemma Written(terrain: bool, tiles: seq<Record>, size: Size, staging: Files, packs: Files, pending: seq<Name>,
                n: Name)
    requires Working(terrain, tiles, size, staging, packs, pending + [n])
    requires n in staging && size(staging[n]) <= PACK_BYTES
    ensures Working(terrain, tiles, size, staging - {n}, packs[n := staging[n]], pending)
    ensures Total(pending, staging - {n}) < Total(pending + [n], staging)
  {
    hide Consistent, Apart, Total, Work, Tiles, RightFiles;
    WrittenApart(staging, packs, pending, n);
    PoppedTotal(staging, packs, pending, n);
    RestTotal(staging, packs, pending, n, staging - {n});
    HasWork(terrain, staging, packs, n, Tiles(tiles));
  }

  lemma RestTotal(staging: Files, packs: Files, pending: seq<Name>, n: Name, staging': Files)
    requires Apart(staging, packs, pending + [n])
    requires forall m | m in staging && m != n :: m in staging' && staging'[m] == staging[m]
    ensures Total(pending, staging') == Total(pending, staging)
  {
    PoppedTotal(staging, packs, pending, n);
    assert forall m | m in pending :: m in pending + [n];
    TotalSame(pending, staging, staging');
  }

  lemma HasWork(terrain: bool, staging: Files, packs: Files, n: Name, tiles: set<Record>)
    requires Consistent(terrain, staging + packs, tiles) && n in staging && n !in packs
    ensures Work(n.level, staging[n]) > 0
  {
    assert (staging + packs)[n] == staging[n];
    hide Work, Covers;
    WorkPositive(terrain, n, staging[n]);
  }

  lemma SplitApart(staging: Files, packs: Files, pending: seq<Name>, n: Name, parts: Parts)
    requires Apart(staging, packs, pending + [n]) && n in staging
    requires SplitsInto(staging, n, parts) && parts.Parts? && forall m | m in parts.files :: m !in packs
    ensures Apart(parts.files, packs, pending + parts.made)
  {
    PoppedTotal(staging, packs, pending, n);
    hide Total, Work, IsPart;
    assert forall m | m in pending :: m in pending + [n];
    assert forall m | m in staging && m != n :: m in pending;
    AppendedNames(pending, parts.made);
  }

  lemma AppendedNames(a: seq<Name>, b: seq<Name>)
    requires NoRepeats(a) && NoRepeats(b) && forall n | n in b :: n !in a
    ensures NoRepeats(a + b)
  {
    var all := a + b;
    forall i, j | 0 <= i < j < |all|
      ensures all[i] != all[j]
    {
      assert all[i] == if i < |a| then a[i] else b[i - |a|];
      assert all[j] == if j < |a| then a[j] else b[j - |a|];
      assert i < |a| ==> all[i] in a;
      assert j >= |a| ==> all[j] in b;
    }
  }

  /** A pack that is too large is split. */
  lemma Divided(terrain: bool, tiles: seq<Record>, size: Size, staging: Files, packs: Files, pending: seq<Name>,
                n: Name, parts: Parts)
    requires Working(terrain, tiles, size, staging, packs, pending + [n])
    requires n in staging && SplitsInto(staging, n, parts) && parts.Parts?
    requires Ascending(tiles) && size(staging[n]) > PACK_BYTES
    ensures Working(terrain, tiles, size, parts.files, packs, pending + parts.made)
    ensures Total(pending + parts.made, parts.files) < Total(pending + [n], staging)
  {
    assert n in pending + [n] && n !in packs && forall m | m in staging :: m !in packs;
    assert (staging + packs)[n] == staging[n];
    PoppedTotal(staging, packs, pending, n);
    RestTotal(staging, packs, pending, n, parts.files);
    TotalConcat(pending, parts.made, parts.files);
    assert staging[n] != [];
    hide Apart, Total, Work, Tiles, Placed, Layered, Conserves, IsSplit, RightFiles, Ascending;
    SplitAmongAll(terrain, staging, packs, n, parts.files);
    SplitApart(staging, packs, pending, n, parts);
    SplitConsistent(terrain, staging + packs, Tiles(tiles), n, parts.files + packs);
    SplitKeepsRight(terrain, tiles, size, staging + packs, n, parts.files + packs);
  }

  lemma TooLargeTile(terrain: bool, tiles: seq<Record>, size: Size, staging: Files, packs: Files, pending: seq<Name>,
                     n: Name)
    requires Working(terrain, tiles, size, staging, packs, pending) && n in pending
    requires n in staging && SplitsInto(staging, n, TooLarge)
    ensures |staging[n]| == 1 && staging[n][0] in tiles && staging[n] == [staging[n][0]]
    ensures RightFile(terrain, tiles, size, n, staging[n])
  {
    hide RightFile;
    var r := staging[n][0];
    assert (staging + packs)[n] == staging[n] && r in staging[n];
    assert Holds(staging + packs, r);
  }

  lemma {:induction false} TotalBounded(terrain: bool, names: seq<Name>, files: Files)
    requires Placed(terrain, files) && forall n | n in names :: n in files
    ensures Total(names, files) >= 0
  {
    if names != [] {
      var k := |names| - 1;
      assert names[k] in names;
      TotalBounded(terrain, names[..k], files);
      WorkPositive(terrain, names[k], files[names[k]]);
    }
  }

  /** What the loop knows of the last pending pack. */
  lemma Pending(terrain: bool, tiles: seq<Record>, size: Size, staging: Files, packs: Files, pending: seq<Name>,
                n: Name)
    requires Working(terrain, tiles, size, staging, packs, pending) && n in pending
    ensures n in staging && n !in packs && Placed(terrain, staging) && Layered(staging)
    ensures Total(pending, staging) >= 0
  {
    hide Total, Placed, Layered;
    PlacedPart(terrain, staging, packs);
    TotalBounded(terrain, pending, staging);
  }

  /** All the staging files, in any order. */
  method Listing(files: Files) returns (names: seq<Name>)
    ensures Apart(files, map[], names)
  {
    names := [];
    var left := files.Keys;
    while left != {}
      invariant NoRepeats(names)
      invariant forall n | n in names :: n in files && n !in left
      invariant forall n | n in files :: n in names || n in left
      decreases left
    {
      var n :| n in left;
      AppendedNames(names, [n]);
      names, left := names + [n], left - {n};
    }
  }

  lemma Started(terrain: bool, tiles: seq<Record>, size: Size, staging: Files, pending: seq<Name>)
    requires Consistent(terrain, staging, Tiles(tiles)) && Apart(staging, map[], pending)
    requires WholeFiles(terrain, tiles, staging) && AtBase(staging)
    ensures Working(terrain, tiles, size, staging, map[], pending)
  {
    assert staging + map[] == staging;
    BaseIsRight(terrain, tiles, size, staging);
    hide RightFiles, WholeFiles, Consistent, Apart, AtBase;
  }

  lemma AllWritten(terrain: bool, tiles: seq<Record>, size: Size, staging: Files, packs: Files)
    requires Working(terrain, tiles, size, staging, packs, [])
    ensures Consistent(terrain, packs, Tiles(tiles)) && Fit(size, packs)
    ensures RightFiles(terrain, tiles, size, packs)
  {
    assert staging + packs == packs;
  }

  /** Stages the tiles, then writes and splits packs until each fits. */
  method MapTiles(terrain: bool, tiles: seq<Record>, size: Size) returns (out: Outcome)
    requires Ascending(tiles)
    ensures out.Packed? ==> Consistent(terrain, out.packs, Tiles(tiles)) && Fit(size, out.packs)
    ensures out.Packed? ==>
              forall n ::
                && (n in out.packs <==> Strained(terrain, tiles, size, n) && Plan(terrain, tiles, size, n) != [])
                && (n in out.packs ==> out.packs[n] == Plan(terrain, tiles, size, n))
    ensures out.Failed? ==> out.record in tiles && size([out.record]) > PACK_BYTES
    ensures out.Failed? ==> exists n :: RightFile(terrain, tiles, size, n, [out.record])
  {
    hide Consistent, Apart, Fit, Working, Total, SplitsInto, Tiles, Placed, Layered, Ascending;
    hide RightFiles, RightFile, Strained, Plan, WholeFiles;
    var staging := Stage(terrain, tiles);
    var packs: Files := map[];
    var pending := Listing(staging);
    Started(terrain, tiles, size, staging, pending);
    while pending != []
      invariant Working(terrain, tiles, size, staging, packs, pending)
      decreases Total(pending, staging)
    {
      var rest, n := pending[..|pending| - 1], pending[|pending| - 1];
      Snoc(pending, |pending|);
      Whole(pending);
      Pending(terrain, tiles, size, staging, packs, pending, n);
      if size(staging[n]) > PACK_BYTES {
        var parts := Split(terrain, staging, n);
        if parts == TooLarge {
          TooLargeTile(terrain, tiles, size, staging, packs, pending, n);
          return Failed(staging[n][0]);
        }
        Divided(terrain, tiles, size, staging, packs, rest, n, parts);
        staging, pending := parts.files, rest + parts.made;
      } else {
        Written(terrain, tiles, size, staging, packs, rest, n);
        packs := packs[n := staging[n]];
        staging, pending := staging - {n}, rest;
      }
    }
    AllWritten(terrain, tiles, size, staging, packs);
    AllPlanned(terrain, tiles, size, packs);
    return Packed(packs);
  }

  lemma AllPlanned(terrain: bool, tiles: seq<Record>, size: Size, packs: Files)
    requires Consistent(terrain, packs, Tiles(tiles)) && Fit(size, packs) && RightFiles(terrain, tiles, size, packs)
    ensures forall n ::
              && (n in packs <==> Strained(terrain, tiles, size, n) && Plan(terrain, tiles, size, n) != [])
              && (n in packs ==> packs[n] == Plan(terrain, tiles, size, n))
  {
    hide Consistent, RightFiles, Strained, Plan;
    forall n
      ensures n in packs <==> Strained(terrain, tiles, size, n) && Plan(terrain, tiles, size, n) != []
      ensures n in packs ==> packs[n] == Plan(terrain, tiles, size, n)
    {
      PacksArePlanned(terrain, tiles, size, packs, n);
    }
  }

  /** Where a pack is at least as large as each of its tiles alone, packing fails exactly when a tile alone
      is too large. */
  lemma PackedMeansSmall(terrain: bool, packs: Files, tiles: seq<Record>, size: Size, r: Record)
    requires Consistent(terrain, packs, Tiles(tiles)) && Fit(size, packs) && r in tiles
    requires forall records, s | s in records :: size([s]) <= size(records)
    ensures size([r]) <= PACK_BYTES
  {
    hide Placed, Layered;
    assert r in Tiles(tiles) && Holds(packs, r);
    var n :| n in packs && r in packs[n];
  }
}
