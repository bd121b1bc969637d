/** The tile lookup of an archive: binary search through the root and the leaf directories, behind the
    cache of decoded leaves, against an uncached linear search of the directory tree. */
module PMTilesArchive {
  import opened Wrappers
  import opened Powers
  import opened Varints
  import opened PMTilesDirectory
  import opened LeafCache
  import H = Hilbert

  const MAX_SLICE := 32 * 1024 * 1024

  datatype Answer = Found(data: seq<byte>) | Missing | Failure(error: Error)

  datatype Looked = Looked(answer: Answer, cache: Cache)

  // ----- opening a file

  const HEADER_BYTES := 127
  const ROOT_END := 16384

  /** The letters PMTiles and the version. */
  const MAGIC: seq<byte> := [80, 77, 84, 105, 108, 101, 115, 3]

  function LittleEndian(bytes: seq<byte>): nat {
    if bytes == [] then 0 else bytes[0] + 256 * LittleEndian(bytes[1..])
  }

  /** The 64-bit number at a place of the header. */
  function HeaderNumber(file: seq<byte>, offset: nat): nat {
    if offset + 8 <= |file| then LittleEndian(file[offset..offset + 8]) else 0
  }

  predicate InFile(file: seq<byte>, offset: nat, length: nat) {
    offset <= |file| && length <= |file| - offset
  }

  predicate HeaderAccepted(file: seq<byte>) {
    && |file| >= HEADER_BYTES && file[..8] == MAGIC
    && (file[97] == 1 || file[97] == 2) && (file[98] == 1 || file[98] == 2)
    && InFile(file, HeaderNumber(file, 8), HeaderNumber(file, 16))
    && InFile(file, HeaderNumber(file, 40), HeaderNumber(file, 48))
    && InFile(file, HeaderNumber(file, 56), HeaderNumber(file, 64))
    && HeaderNumber(file, 8) >= HEADER_BYTES && HeaderNumber(file, 8) + HeaderNumber(file, 16) <= ROOT_END
  }

  /** The archive of a file, but for its root directory. */
  function Header(file: seq<byte>, inflate: Inflate): Archive
    requires HeaderAccepted(file)
  {
    Archive(file, file[97], file[98], HeaderNumber(file, 40), HeaderNumber(file, 48),
            HeaderNumber(file, 56), HeaderNumber(file, 64), [], inflate)
  }

  /** `init`: the guards on the header, then the root directory. */
  function Open(file: seq<byte>, inflate: Inflate): Result<Archive> {
    if !HeaderAccepted(file) then Err(CannotParse) else
      var a := Header(file, inflate);
      var root := a.DirectoryAt(HeaderNumber(file, 8), HeaderNumber(file, 16));
      if root.Err? then Err(root.error) else Ok(a.(root := root.value))
  }

  /** An opened archive has its leaves and tiles inside the file and a sorted root directory. */
  lemma OpenedIsSound(file: seq<byte>, inflate: Inflate)
    ensures var r := Open(file, inflate);
      r.Ok? ==>
        && r.value.Checked() && r.value.file == file && |file| >= HEADER_BYTES
        && r.value.leafOffset + r.value.leafLength <= |file| && r.value.tileOffset + r.value.tileLength <= |file|
        && Sorted(r.value.root)
        && file[..8] == [80, 77, 84, 105, 108, 101, 115, 3]
        && file[97] == r.value.internalCompression && (file[97] == 1 || file[97] == 2)
        && file[98] == r.value.tileCompression && (file[98] == 1 || file[98] == 2)
        && 127 <= HeaderNumber(file, 8) && HeaderNumber(file, 8) + HeaderNumber(file, 16) <= 16384
  {
    hide Parse, Sorted, HeaderNumber;
    var r := Open(file, inflate);
    if r.Ok? {
      var a := Header(file, inflate);
      DirectoryIsSorted(a, HeaderNumber(file, 8), HeaderNumber(file, 16));
    }
  }

  lemma DirectoryIsSorted(archive: Archive, offset: nat, length: nat)
    requires archive.DirectoryAt(offset, length).Ok?
    ensures Sorted(archive.DirectoryAt(offset, length).value)
  {
    hide Parse, Sorted;
    var raw := archive.Slice(offset, length);
    ParsedIsEncodable(archive.Inflated(archive.internalCompression, raw.value).value);
  }

  type Inflate = seq<byte> -> Result<seq<byte>>

  /** What `init` reads and checks. `inflate` stands for zlib. */
  datatype Archive = Archive(
    file: seq<byte>, internalCompression: int, tileCompression: int, leafOffset: nat, leafLength: nat,
    tileOffset: nat, tileLength: nat, root: seq<Entry>, inflate: Inflate)
  {
    /** What `init` accepts. */
    ghost predicate Checked() {
      Open(file, inflate) == Ok(this)
    }

    function Slice(offset: nat, length: nat): Result<seq<byte>> {
      if offset <= |file| && length <= |file| - offset && length <= MAX_SLICE then Ok(file[offset..offset + length])
      else Err(TooLong)
    }

    function Inflated(compression: int, data: seq<byte>): Result<seq<byte>> {
      if compression == 2 then inflate(data) else Ok(data)
    }

    function DirectoryAt(offset: nat, length: nat): Result<seq<Entry>> {
      var raw := Slice(offset, length);
      if raw.Err? then Err(raw.error) else
      var data := Inflated(internalCompression, raw.value);
      if data.Err? then Err(data.error)
      else if Parse(data.value).None? then Err(CannotParse) else Ok(Parse(data.value).value)
    }

    function LeafAt(offset: int, length: int): Result<seq<Entry>> {
      if offset < 0 || length < 0 then Err(CannotParse) else DirectoryAt(leafOffset + offset, length)
    }

    function Leaves(): Leaf {
      (offset, length) => LeafAt(offset, length)
    }

    /** The bytes of a tile entry. */
    function TileAt(e: Entry): Answer {
      if !(0 <= e.offset <= tileLength && 0 <= e.length <= tileLength - e.offset) then Failure(CannotParse) else
      var raw := Slice(tileOffset + e.offset, e.length);
      if raw.Err? then Failure(raw.error) else
      var data := Inflated(tileCompression, raw.value);
      if data.Err? then Failure(data.error) else Found(data.value)
    }

    predicate InLeaves(e: Entry) {
      0 <= e.offset <= leafLength && 0 <= e.length <= leafLength - e.offset
    }

    /** The uncached search: a linear scan for the last entry at or before the id, at most `depth`
        directories deep. */
    function Search(directory: seq<Entry>, wanted: int, depth: nat): Answer
      decreases depth
    {
      if depth == 0 then Failure(CannotParse) else
      var e := LastAtMost(directory, wanted);
      if e.None? then Missing
      else if e.value.run > 0 then (if wanted - e.value.id < e.value.run then TileAt(e.value) else Missing)
      else if !InLeaves(e.value) then Failure(CannotParse)
      else
        var leaf := LeafAt(e.value.offset, e.value.length);
        if leaf.Err? then Failure(leaf.error) else Search(leaf.value, wanted, depth - 1)
    }

    /** The search behind a cache of leaves: its answer, and the cache after it. */
    function Lookup(cache: Cache, directory: seq<Entry>, wanted: int, depth: nat): Looked
      decreases depth, 1
    {
      if depth == 0 then Looked(Failure(CannotParse), cache)
      else LookupAt(cache, LastAtMost(directory, wanted), wanted, depth)
    }

    /** What the last entry at or before the id leads to. */
    function LookupAt(cache: Cache, e: Option<Entry>, wanted: int, depth: nat): Looked
      requires depth > 0
      decreases depth, 0
    {
      if e.None? then Looked(Missing, cache)
      else if e.value.run > 0 then
        Looked(if wanted - e.value.id < e.value.run then TileAt(e.value) else Missing, cache)
      else if !InLeaves(e.value) then Looked(Failure(CannotParse), cache)
      else
        var p := Pointer(e.value.offset, e.value.length);
        var leaf, next := Served(cache, Leaves(), p), LeafCache.Next(cache, Leaves(), p);
        if leaf.Err? then Looked(Failure(leaf.error), next) else Lookup(next, leaf.value, wanted, depth - 1)
    }

    /** The leaf pointers of a directory. */
    ghost predicate Points(directory: seq<Entry>, pointers: iset<Pointer>) {
      forall i | 0 <= i < |directory| && directory[i].run <= 0 && InLeaves(directory[i]) ::
        Pointer(directory[i].offset, directory[i].length) in pointers
    }

    /** The pointers hold every leaf that a search from the root can reach. */
    ghost predicate Reaches(pointers: iset<Pointer>) {
      && Points(root, pointers)
      && forall p | p in pointers && LeafAt(p.offset, p.length).Ok? ::
           Points(LeafAt(p.offset, p.length).value, pointers)
    }
  }

  function LastAtMost(directory: seq<Entry>, wanted: int): (e: Option<Entry>) {
    if directory == [] then None else
      var n := |directory| - 1;
      if directory[n].id <= wanted then Some(directory[n]) else LastAtMost(directory[..n], wanted)
  }

  /** The boundary of the binary search is the end of the linear one. */
  lemma {:induction false} BoundaryIsLast(directory: seq<Entry>, wanted: int, low: nat)
    requires low <= |directory|
    requires forall i | 0 <= i < low :: directory[i].id <= wanted
    requires forall i | low <= i < |directory| :: wanted < directory[i].id
    ensures LastAtMost(directory, wanted) == if low == 0 then None else Some(directory[low - 1])
  {
    if directory != [] && directory[|directory| - 1].id > wanted {
      BoundaryIsLast(directory[..|directory| - 1], wanted, low);
    }
  }

  method BinarySearch(directory: seq<Entry>, wanted: int) returns (low: nat)
    requires Sorted(directory)
    ensures low <= |directory|
    ensures LastAtMost(directory, wanted) == if low == 0 then None else Some(directory[low - 1])
  {
    low := 0;
    var high := |directory|;
    while low < high
      invariant 0 <= low <= high <= |directory|
      invariant forall i | 0 <= i < low :: directory[i].id <= wanted
      invariant forall i | high <= i < |directory| :: wanted < directory[i].id
    {
      var middle := (low + high) / 2;
      if directory[middle].id <= wanted { low := middle + 1; } else { high := middle; }
    }
    BoundaryIsLast(directory, wanted, low);
  }

  /** Whatever a cache holds is the decode of some pointer with its offset. */
  ghost predicate Genuine(cache: Cache, leaf: Leaf) {
    && |cache| <= CAPACITY && Distinct(cache)
    && forall i | 0 <= i < |cache| :: IsDecode(cache[i], leaf)
  }

  ghost predicate IsDecode(item: Item, leaf: Leaf) {
    exists length :: leaf(item.offset, length) == Ok(item.entries)
  }

  lemma NextIsGenuine(cache: Cache, leaf: Leaf, p: Pointer)
    requires Genuine(cache, leaf)
    ensures Genuine(LeafCache.Next(cache, leaf, p), leaf)
    ensures Served(cache, leaf, p).Ok? ==> IsDecode(Item(p.offset, Served(cache, leaf, p).value), leaf)
  {
    hide IsDecode;
    var i, d := Find(cache, p.offset), leaf(p.offset, p.length);
    if i >= |cache| && d.Ok? { OwnDecode(leaf, p); }
  }

  lemma OwnDecode(leaf: Leaf, p: Pointer)
    requires leaf(p.offset, p.length).Ok?
    ensures IsDecode(Item(p.offset, leaf(p.offset, p.length).value), leaf)
  {
  }

  class PMTilesArchive {
    const archive: Archive
    var leaves: Cache

    ghost predicate Valid()
      reads this
    {
      archive.Checked() && Genuine(leaves, archive.Leaves())
    }

    constructor (archive: Archive)
      requires archive.Checked()
      ensures Valid() && this.archive == archive && leaves == []
    {
      this.archive := archive;
      leaves := [];
    }

    /** A leaf directory, from the cache or decoded. */
    method Fetch(p: Pointer) returns (directory: Result<seq<Entry>>)
      modifies this`leaves
      ensures directory == Served(old(leaves), archive.Leaves(), p)
      ensures leaves == LeafCache.Next(old(leaves), archive.Leaves(), p)
    {
      var index := Find(leaves, p.offset);
      if index < |leaves| {
        var cached := leaves[index];
        leaves := leaves[..index] + leaves[index + 1..];
        leaves := leaves + [cached];
        directory := Ok(cached.entries);
      } else {
        directory := archive.LeafAt(p.offset, p.length);
        if directory.Ok? {
          leaves := leaves + [Item(p.offset, directory.value)];
          if |leaves| > CAPACITY { leaves := leaves[1..]; }
        }
      }
    }

    /** The tile, as the search behind the cache finds it. */
    method Tile(z: int, x: int, y: int) returns (answer: Answer)
      requires Valid()
      modifies this`leaves
      ensures Valid()
      ensures Looked(answer, leaves) == TileLookup(archive, old(leaves), Request(z, x, y))
    {
      if !(0 <= z <= 22 && 0 <= x < Pow2(z) && 0 <= y < Pow2(z)) { return Failure(BadUrl); }
      var wanted := H.TileId(z, x, y);
      answer := Descend(wanted);
    }

    lemma ValidIsSorted()
      requires Valid()
      ensures Sorted(archive.root)
    {
      RootIsSorted(archive);
    }

    method Descend(wanted: int) returns (answer: Answer)
      requires Valid()
      modifies this`leaves
      ensures Valid() && Looked(answer, leaves) == archive.Lookup(old(leaves), archive.root, wanted, 4)
    {
      hide Sorted, Archive.Lookup, Valid;
      var directory := archive.root;
      ValidIsSorted();
      for round := 0 to 4
        invariant Valid() && Sorted(directory)
        invariant archive.Lookup(old(leaves), archive.root, wanted, 4)
               == archive.Lookup(leaves, directory, wanted, 4 - round)
      {
        var found, next := Round(directory, wanted, 4 - round);
        if found.Some? { return found.value; }
        directory := next;
      }
      LookupEnds(archive, leaves, directory, wanted);
      return Failure(CannotParse);
    }

    /** One directory: an answer, or the leaf directory to go on with. */
    method Round(directory: seq<Entry>, wanted: int, ghost depth: nat)
      returns (found: Option<Answer>, next: seq<Entry>)
      requires Valid() && Sorted(directory) && depth > 0
      modifies this`leaves
      ensures Valid()
      ensures found.Some? ==>
                Looked(found.value, leaves) == archive.Lookup(old(leaves), directory, wanted, depth)
      ensures found.None? ==>
                && Sorted(next)
                && archive.Lookup(old(leaves), directory, wanted, depth)
                   == archive.Lookup(leaves, next, wanted, depth - 1)
    {
      hide Sorted, Served, LeafCache.Next, Genuine, LastAtMost;
      hide Archive.Lookup, Archive.InLeaves, Archive.TileAt, Archive.Checked;
      LookupSteps(archive, leaves, directory, wanted, depth);
      next := [];
      var low := BinarySearch(directory, wanted);
      if low == 0 { return Some(Missing), next; }
      var entry := directory[low - 1];
      if entry.run > 0 {
        if !(wanted - entry.id < entry.run) { return Some(Missing), next; }
        return Some(archive.TileAt(entry)), next;
      }
      if !archive.InLeaves(entry) { return Some(Failure(CannotParse)), next; }
      var p := Pointer(entry.offset, entry.length);
      NextIsGenuine(leaves, archive.Leaves(), p);
      var leaf := Fetch(p);
      if leaf.Err? { return Some(Failure(leaf.error)), next; }
      DecodeIsSorted(archive, Item(p.offset, leaf.value));
      return None, leaf.value;
    }
  }

  lemma RootIsSorted(archive: Archive)
    requires archive.Checked()
    ensures Sorted(archive.root)
  {
    hide Open, Sorted;
    OpenedIsSound(archive.file, archive.inflate);
  }

  lemma LookupSteps(archive: Archive, cache: Cache, directory: seq<Entry>, wanted: int, depth: nat)
    requires depth > 0
    ensures archive.Lookup(cache, directory, wanted, depth)
         == archive.LookupAt(cache, LastAtMost(directory, wanted), wanted, depth)
  {
  }

  lemma LookupEnds(archive: Archive, cache: Cache, directory: seq<Entry>, wanted: int)
    ensures archive.Lookup(cache, directory, wanted, 0) == Looked(Failure(CannotParse), cache)
  {
  }

  lemma DecodeIsSorted(archive: Archive, item: Item)
    requires IsDecode(item, archive.Leaves())
    ensures Sorted(item.entries)
  {
    hide Parse, Sorted;
    var length :| archive.Leaves()(item.offset, length) == Ok(item.entries);
    LeafIsSorted(archive, Pointer(item.offset, length));
  }

  lemma LeafIsSorted(archive: Archive, p: Pointer)
    requires archive.LeafAt(p.offset, p.length).Ok?
    ensures Sorted(archive.LeafAt(p.offset, p.length).value)
  {
    hide Sorted, Archive.DirectoryAt;
    DirectoryIsSorted(archive, archive.leafOffset + p.offset, p.length);
  }

  // ----- what is refused

  /** The bytes of an entry that leaves the tile section, or that are too many, are an error; all others are
      those of the section. */
  lemma TileIsInside(a: Archive, e: Entry)
    requires a.tileOffset + a.tileLength <= |a.file| && 0 <= e.offset && 0 <= e.length
    ensures e.offset + e.length > a.tileLength ==> a.TileAt(e) == Failure(CannotParse)
    ensures e.offset + e.length <= a.tileLength && e.length > 32 * 1024 * 1024 ==> a.TileAt(e) == Failure(TooLong)
    ensures e.offset + e.length <= a.tileLength && e.length <= 32 * 1024 * 1024 && a.tileCompression != 2 ==>
              a.TileAt(e) == Found(a.file[a.tileOffset + e.offset..a.tileOffset + e.offset + e.length])
  {
  }

  /** A pointer that leaves the leaf section is an error. */
  lemma LeafIsInside(a: Archive, cache: Cache, directory: seq<Entry>, wanted: int, depth: nat, e: Entry)
    requires depth > 0 && LastAtMost(directory, wanted) == Some(e) && e.run <= 0 && 0 <= e.offset && 0 <= e.length
    requires e.offset + e.length > a.leafLength
    ensures a.Lookup(cache, directory, wanted, depth) == Looked(Failure(CannotParse), cache)
    ensures a.Search(directory, wanted, depth) == Failure(CannotParse)
  {
    hide LastAtMost;
  }

  // ----- runs of lookups against the uncached search

  datatype Request = Request(z: int, x: int, y: int)

  predicate Admitted(r: Request) {
    0 <= r.z <= 22 && H.InZoom(r.z, H.Point(r.x, r.y))
  }

  function TileLookup(archive: Archive, cache: Cache, r: Request): Looked {
    if Admitted(r) then archive.Lookup(cache, archive.root, H.Id(r.z, H.Point(r.x, r.y)), 4)
    else Looked(Failure(BadUrl), cache)
  }

  /** The answer without a cache. */
  function TrueAnswer(archive: Archive, r: Request): Answer {
    if Admitted(r) then archive.Search(archive.root, H.Id(r.z, H.Point(r.x, r.y)), 4) else Failure(BadUrl)
  }

  /** The last entry at or before an id points to a leaf that decodes. */
  ghost predicate LeadsTo(a: Archive, directory: seq<Entry>, wanted: int, next: seq<Entry>) {
    exists e | e in directory :: LastAtMost(directory, wanted) == Some(e) && e.run <= 0 && a.InLeaves(e)
                                 && a.LeafAt(e.offset, e.length) == Ok(next)
  }

  /** The fourth directory of a descent is the last one: its tile is the answer, its pointer an error. */
  lemma FourthEnds(a: Archive, r: Request, second: seq<Entry>, third: seq<Entry>, fourth: seq<Entry>, e: Entry)
    requires Admitted(r)
    requires var id := H.Id(r.z, H.Point(r.x, r.y));
             && LeadsTo(a, a.root, id, second) && LeadsTo(a, second, id, third) && LeadsTo(a, third, id, fourth)
             && LastAtMost(fourth, id) == Some(e)
    ensures var id := H.Id(r.z, H.Point(r.x, r.y));
      if e.run <= 0 then TrueAnswer(a, r).Failure?
      else TrueAnswer(a, r) == if id - e.id < e.run then a.TileAt(e) else Missing
  {
    hide H.Id, H.InZoom, LastAtMost;
    var id := H.Id(r.z, H.Point(r.x, r.y));
    Leads(a, a.root, id, second, 4);
    Leads(a, second, id, third, 3);
    Leads(a, third, id, fourth, 2);
    Ends(a, fourth, id, e);
  }

  lemma Leads(a: Archive, directory: seq<Entry>, wanted: int, next: seq<Entry>, depth: nat)
    requires LeadsTo(a, directory, wanted, next) && depth > 0
    ensures a.Search(directory, wanted, depth) == a.Search(next, wanted, depth - 1)
  {
    hide LastAtMost;
  }

  lemma Ends(a: Archive, directory: seq<Entry>, wanted: int, e: Entry)
    requires LastAtMost(directory, wanted) == Some(e)
    ensures var answer := a.Search(directory, wanted, 1);
      if e.run <= 0 then answer.Failure?
      else answer == if wanted - e.id < e.run then a.TileAt(e) else Missing
  {
    hide LastAtMost;
  }

  /** Where leaf pointers with one offset decode alike, the cache changes no answer and stays true. */
  lemma {:induction false} LookupIsTrue(archive: Archive, pointers: iset<Pointer>, cache: Cache,
                                        directory: seq<Entry>, wanted: int, depth: nat)
    requires archive.Reaches(pointers) && Agree(archive.Leaves(), pointers)
    requires True(cache, archive.Leaves(), pointers) && archive.Points(directory, pointers)
    ensures var looked := archive.Lookup(cache, directory, wanted, depth);
      && looked.answer == archive.Search(directory, wanted, depth)
      && True(looked.cache, archive.Leaves(), pointers)
    decreases depth
  {
    hide Agree, True, Served, LeafCache.Next;
    var e := LastAtMost(directory, wanted);
    if depth > 0 && e.Some? && e.value.run <= 0 && archive.InLeaves(e.value) {
      var p := Pointer(e.value.offset, e.value.length);
      LastIsEntry(directory, wanted);
      ServedIsTrue(cache, archive.Leaves(), pointers, p);
      NextIsTrue(cache, archive.Leaves(), pointers, p);
      var leaf := archive.LeafAt(p.offset, p.length);
      if leaf.Ok? {
        LookupIsTrue(archive, pointers, LeafCache.Next(cache, archive.Leaves(), p), leaf.value, wanted, depth - 1);
      }
    }
  }

  lemma {:induction false} LastIsEntry(directory: seq<Entry>, wanted: int)
    ensures var e := LastAtMost(directory, wanted);
      e.Some? ==> exists i | 0 <= i < |directory| :: directory[i] == e.value
  {
    if directory != [] && directory[|directory| - 1].id > wanted {
      LastIsEntry(directory[..|directory| - 1], wanted);
    }
  }

  /** The answers to a run of lookups. */
  function TileAnswers(archive: Archive, cache: Cache, requests: seq<Request>): (r: seq<Answer>)
    ensures |r| == |requests|
    decreases requests
  {
    if requests == [] then [] else
      var looked := TileLookup(archive, cache, requests[0]);
      [looked.answer] + TileAnswers(archive, looked.cache, requests[1..])
  }

  lemma {:induction false} RunIsTrue(archive: Archive, pointers: iset<Pointer>, cache: Cache, requests: seq<Request>)
    requires archive.Reaches(pointers) && Agree(archive.Leaves(), pointers)
    requires True(cache, archive.Leaves(), pointers)
    ensures forall i | 0 <= i < |requests| ::
              TileAnswers(archive, cache, requests)[i] == TrueAnswer(archive, requests[i])
    decreases requests
  {
    hide TileLookup, TrueAnswer, Agree, True, Archive.Reaches;
    if requests != [] {
      var r, rest := requests[0], requests[1..];
      var looked := TileLookup(archive, cache, r);
      OneIsTrue(archive, pointers, cache, r);
      RunIsTrue(archive, pointers, looked.cache, rest);
      forall i | 0 <= i < |requests|
        ensures TileAnswers(archive, cache, requests)[i] == TrueAnswer(archive, requests[i])
      {
        assert i > 0 ==> requests[i] == rest[i - 1];
      }
    }
  }

  lemma OneIsTrue(archive: Archive, pointers: iset<Pointer>, cache: Cache, r: Request)
    requires archive.Reaches(pointers) && Agree(archive.Leaves(), pointers)
    requires True(cache, archive.Leaves(), pointers)
    ensures TileLookup(archive, cache, r).answer == TrueAnswer(archive, r)
    ensures True(TileLookup(archive, cache, r).cache, archive.Leaves(), pointers)
  {
    assert archive.Points(archive.root, pointers);
    hide Agree, True, Archive.Lookup, Archive.Search, Archive.Points, H.Id, H.InZoom;
    if Admitted(r) { LookupIsTrue(archive, pointers, cache, archive.root, H.Id(r.z, H.Point(r.x, r.y)), 4); }
  }

  /** Every run over an archive whose leaf pointers with one offset have one length is answered as without a
      cache. */
  lemma EveryRunIsTrue(archive: Archive, pointers: iset<Pointer>, requests: seq<Request>, i: nat)
    requires archive.Reaches(pointers) && OneLength(pointers) && i < |requests|
    ensures TileAnswers(archive, [], requests)[i] == TrueAnswer(archive, requests[i])
  {
    hide TileAnswers, TrueAnswer;
    OneLengthAgrees(archive.Leaves(), pointers);
    RunIsTrue(archive, pointers, [], requests);
  }

  // ----- an archive whose second answer is wrong

  function Zeros(n: nat): (r: seq<byte>)
    ensures |r| == n && forall i | 0 <= i < n :: r[i] == 0
  {
    seq(n, _ => 0)
  }

  /** A small number of the header. */
  function Small(b: byte): (r: seq<byte>)
    ensures |r| == 8
  {
    [b] + Zeros(7)
  }

  /** The root directory at byte 127, the only leaf and the only tile at byte 136, nothing compressed. */
  function CutHeader(): (r: seq<byte>)
    ensures |r| == HEADER_BYTES
  {
    MAGIC + Small(127) + Small(9) + Zeros(16) + Small(136) + Small(5) + Small(136) + Small(5) + Zeros(25)
    + [1, 1] + Zeros(28)
  }

  /** Two root entries point at one leaf offset, the second with a length that cuts the leaf. */
  const CUT_ROOT := [Entry(0, 0, 5, 0), Entry(1, 0, 4, 0)]
  const CUT_ROOT_BYTES: seq<byte> := [2, 0, 1, 0, 0, 5, 4, 1, 1]
  const LEAF_BYTES: seq<byte> := [1, 0, 1, 1, 1]

  function CutFile(): (r: seq<byte>)
    ensures |r| == 141
  {
    CutHeader() + CUT_ROOT_BYTES + LEAF_BYTES
  }

  function CutArchive(inflate: Inflate): Archive {
    Archive(CutFile(), 1, 1, 136, 5, 136, 5, CUT_ROOT, inflate)
  }

  lemma {:induction false} ZerosAreNothing(n: nat)
    ensures LittleEndian(Zeros(n)) == 0
  {
    if n > 0 {
      ZerosAreNothing(n - 1);
      assert Zeros(n)[1..] == Zeros(n - 1);
    }
  }

  lemma SmallReads(file: seq<byte>, offset: nat, b: byte)
    requires offset + 8 <= |file| && file[offset..offset + 8] == Small(b)
    ensures HeaderNumber(file, offset) == b
  {
    ZerosAreNothing(7);
    assert Small(b)[1..] == Zeros(7);
  }

  /** The parts of the header that the reader looks at. */
  lemma CutHeaderParts()
    ensures var h := CutHeader();
      && h[..8] == MAGIC && h[8..16] == Small(127) && h[16..24] == Small(9) && h[40..48] == Small(136)
      && h[48..56] == Small(5) && h[56..64] == Small(136) && h[64..72] == Small(5) && h[97] == 1 && h[98] == 1
  {
    hide Small, Zeros;
  }

  lemma CutFileParts()
    ensures var f := CutFile();
      && f[..127] == CutHeader() && f[127..136] == CUT_ROOT_BYTES && f[136..141] == LEAF_BYTES
      && f[136..140] == [1, 0, 1, 1] && f[136..137] == [1]
  {
    hide CutHeader;
  }

  lemma CutNumber(i: nat, b: byte)
    requires i + 8 <= HEADER_BYTES && CutHeader()[i..i + 8] == Small(b)
    ensures HeaderNumber(CutFile(), i) == b
  {
    hide CutHeader, HeaderNumber, Small;
    CutFileParts();
    assert CutFile()[i..i + 8] == CutFile()[..127][i..i + 8];
    SmallReads(CutFile(), i, b);
  }

  lemma CutHeaderReads()
    ensures var f := CutFile();
      && HeaderNumber(f, 8) == 127 && HeaderNumber(f, 16) == 9 && HeaderNumber(f, 40) == 136
      && HeaderNumber(f, 48) == 5 && HeaderNumber(f, 56) == 136 && HeaderNumber(f, 64) == 5
  {
    CutHeaderParts();
    hide CutHeader, CutFile, HeaderNumber, Small;
    CutNumber(8, 127);
    CutNumber(16, 9);
    CutNumber(40, 136);
    CutNumber(48, 5);
    CutNumber(56, 136);
    CutNumber(64, 5);
  }

  lemma CutHeaderAccepted()
    ensures HeaderAccepted(CutFile()) && CutFile()[97] == 1 && CutFile()[98] == 1
  {
    CutHeaderReads();
    CutHeaderParts();
    CutFileParts();
    hide CutHeader, HeaderNumber, Small;
    var f := CutFile();
    assert f[..8] == f[..127][..8] && f[97] == f[..127][97] && f[98] == f[..127][98];
  }

  /** The reader opens the file. */
  lemma CutOpens(inflate: Inflate)
    ensures Open(CutFile(), inflate) == Ok(CutArchive(inflate)) && CutArchive(inflate).Checked()
  {
    CutHeaderReads();
    CutHeaderAccepted();
    CutFileParts();
    CutRoot();
    hide CutFile, HeaderNumber, Parse, HeaderAccepted;
  }

  /** The column of a single small value is one byte. */
  lemma OneValue(kind: Kind, v: int)
    requires 0 <= v < 127 && Room(kind, 1) && Sound(kind, [v])
    ensures Bytes(kind, [v]) == [if kind.Offsets? then v + 1 else v]
  {
    assert [v][..0] == [] && Bytes(kind, []) == [];
    CodeRestores(kind, [v]);
  }

  /** The column of two small values is two bytes, each the code of its value. */
  lemma TwoValues(kind: Kind, u: int, v: int)
    requires Room(kind, 2) && Sound(kind, [u, v]) && Sound(kind, [u]) && 0 <= u < 127
    requires 0 <= Code(kind, [u, v]) < 128
    ensures Bytes(kind, [u, v]) == [if kind.Offsets? then u + 1 else u, Code(kind, [u, v])]
  {
    assert [u, v][..1] == [u];
    OneValue(kind, u);
    CodeRestores(kind, [u, v]);
    hide Sound;
  }

  lemma CutRoot()
    ensures Parse(CUT_ROOT_BYTES) == Some(CUT_ROOT)
  {
    assert IdsOf(CUT_ROOT) == [0, 1] && RunsOf(CUT_ROOT) == [0, 0] && LengthsOf(CUT_ROOT) == [5, 4];
    assert OffsetsOf(CUT_ROOT) == [0, 0];
    hide Bytes, Parse, IdsOf, RunsOf, LengthsOf, OffsetsOf;
    assert Encodable(CUT_ROOT);
    RootBytes(CUT_ROOT);
    hide Encodable, Sound, Encode;
    RoundTrip(CUT_ROOT);
  }

  lemma RootBytes(e: seq<Entry>)
    requires Encodable(e) && IdsOf(e) == [0, 1] && RunsOf(e) == [0, 0] && LengthsOf(e) == [5, 4]
    requires OffsetsOf(e) == [0, 0]
    ensures Encode(e) == CUT_ROOT_BYTES
  {
    assert |e| == |IdsOf(e)| == 2;
    RootColumns();
    hide Bytes, IdsOf, RunsOf, LengthsOf, OffsetsOf, Encodable, Sound;
    assert Varint(2) == [2];
  }

  lemma RootColumns()
    ensures Sound(Ids, [0, 1]) && Bytes(Ids, [0, 1]) == [0, 1]
    ensures Sound(Runs, [0, 0]) && Bytes(Runs, [0, 0]) == [0, 0]
    ensures Sound(Lengths, [5, 4]) && Bytes(Lengths, [5, 4]) == [5, 4]
    ensures Sound(Offsets([5, 4]), [0, 0]) && Bytes(Offsets([5, 4]), [0, 0]) == [1, 1]
  {
    hide Bytes, Sound, Code;
    IdsColumn();
    RunsColumn();
    LengthsColumn();
    OffsetsColumn();
  }

  lemma IdsColumn()
    ensures Sound(Ids, [0, 1]) && Bytes(Ids, [0, 1]) == [0, 1]
  {
    assert Sound(Ids, [0, 1]) && Sound(Ids, [0]) && Code(Ids, [0, 1]) == 1;
    hide Bytes, Sound, Code;
    TwoValues(Ids, 0, 1);
  }

  lemma RunsColumn()
    ensures Sound(Runs, [0, 0]) && Bytes(Runs, [0, 0]) == [0, 0]
  {
    assert Sound(Runs, [0, 0]) && Sound(Runs, [0]) && Code(Runs, [0, 0]) == 0;
    hide Bytes, Sound, Code;
    TwoValues(Runs, 0, 0);
  }

  lemma LengthsColumn()
    ensures Sound(Lengths, [5, 4]) && Bytes(Lengths, [5, 4]) == [5, 4]
  {
    assert Sound(Lengths, [5, 4]) && Sound(Lengths, [5]) && Code(Lengths, [5, 4]) == 4;
    hide Bytes, Sound, Code;
    TwoValues(Lengths, 5, 4);
  }

  lemma OffsetsColumn()
    ensures Sound(Offsets([5, 4]), [0, 0]) && Bytes(Offsets([5, 4]), [0, 0]) == [1, 1]
  {
    var kind := Offsets([5, 4]);
    assert Sound(kind, [0, 0]) && Sound(kind, [0]) && Code(kind, [0, 0]) == 1;
    hide Bytes, Sound, Code;
    TwoValues(kind, 0, 0);
  }

  lemma WholeLeaf()
    ensures Parse([1, 0, 1, 1, 1]) == Some([Entry(0, 0, 1, 1)])
  {
    var e := [Entry(0, 0, 1, 1)];
    assert IdsOf(e) == [0] && RunsOf(e) == [1] && LengthsOf(e) == [1] && OffsetsOf(e) == [0];
    hide Bytes, Parse, IdsOf, RunsOf, LengthsOf, OffsetsOf;
    assert Encodable(e);
    hide Encodable, Sound, Encode;
    LeafBytes(e);
    RoundTrip(e);
  }

  lemma LeafBytes(e: seq<Entry>)
    requires Encodable(e) && IdsOf(e) == [0] && RunsOf(e) == [1] && LengthsOf(e) == [1] && OffsetsOf(e) == [0]
    ensures Encode(e) == [1, 0, 1, 1, 1]
  {
    assert |e| == |IdsOf(e)| == 1;
    OneValue(Ids, 0);
    OneValue(Runs, 1);
    OneValue(Lengths, 1);
    OneValue(Offsets([1]), 0);
    hide Bytes, IdsOf, RunsOf, LengthsOf, OffsetsOf, Encodable, Sound;
    assert Varint(1) == [1];
  }

  lemma CutLeaf()
    ensures Parse([1, 0, 1, 1]) == None
  {
    var data: seq<byte> := [1, 0, 1, 1];
    assert ReadInteger(data, 4) == Failed;
  }

  /** The two leaves of the archive, one served for both. */
  lemma CutLeaves(inflate: Inflate)
    ensures var a, leaf := CutArchive(inflate), [Entry(0, 0, 1, 1)];
      && a.LeafAt(0, 5) == Ok(leaf) && a.LeafAt(0, 4) == Err(CannotParse)
      && Served([], a.Leaves(), Pointer(0, 5)) == Ok(leaf)
      && LeafCache.Next([], a.Leaves(), Pointer(0, 5)) == [Item(0, leaf)]
      && Served([Item(0, leaf)], a.Leaves(), Pointer(0, 4)) == Ok(leaf)
  {
    WholeLeaf();
    CutLeaf();
    CutFileParts();
    hide Parse, CutFile;
  }

  lemma CutEntries()
    ensures var root, leaf := CUT_ROOT, [Entry(0, 0, 1, 1)];
      && LastAtMost(root, 0) == Some(root[0]) && LastAtMost(root, 1) == Some(root[1])
      && LastAtMost(leaf, 0) == Some(leaf[0]) && LastAtMost(leaf, 1) == Some(leaf[0])
  {
    assert CUT_ROOT[..1] == [CUT_ROOT[0]];
  }

  /** After the tile with number 0, the lookup of number 1 misses; without the cache it fails. */
  lemma CutLookups(inflate: Inflate)
    ensures var a, cache := CutArchive(inflate), [Item(0, [Entry(0, 0, 1, 1)])];
      && a.Lookup([], a.root, 0, 4) == Looked(Found([1]), cache)
      && a.Lookup(cache, a.root, 1, 4).answer == Missing
      && a.Search(a.root, 0, 4) == Found([1]) && a.Search(a.root, 1, 4) == Failure(CannotParse)
  {
    var a, leaf := CutArchive(inflate), [Entry(0, 0, 1, 1)];
    var cache := [Item(0, leaf)];
    CutLeaves(inflate);
    CutEntries();
    CutFileParts();
    hide CutFile;
    assert a.TileAt(leaf[0]) == Found([1]);
    hide Served, LeafCache.Next, Archive.LeafAt, Archive.TileAt, LastAtMost;
    assert a.Lookup(cache, leaf, 0, 3) == Looked(Found([1]), cache) && a.Search(leaf, 0, 3) == Found([1]);
    var next := LeafCache.Next(cache, a.Leaves(), Pointer(0, 4));
    assert a.Lookup(next, leaf, 1, 3).answer == Missing;
  }

  /** The run for tiles 0/0/0 and 1/0/0: the first answer is right. The second is a missing tile, where the
      search without the cache refuses the directory. */
  lemma SecondTileIsWrong(inflate: Inflate)
    ensures var a := CutArchive(inflate);
      && Open(CutFile(), inflate) == Ok(a)
      && TileAnswers(a, [], [Request(0, 0, 0), Request(1, 0, 0)]) == [Found([1]), Missing]
      && TrueAnswer(a, Request(0, 0, 0)) == Found([1])
      && TrueAnswer(a, Request(1, 0, 0)) == Failure(CannotParse)
  {
    var a, r, q := CutArchive(inflate), Request(0, 0, 0), Request(1, 0, 0);
    hide Archive.Lookup, Archive.Search, TileLookup, TrueAnswer, Open, CutFile;
    var cache := [Item(0, [Entry(0, 0, 1, 1)])];
    CutOpens(inflate);
    CutLookups(inflate);
    FirstBases();
    FirstOfZoomLookup(a, [], 0);
    FirstOfZoomLookup(a, cache, 1);
    assert [r, q][1..] == [q] && [q][1..] == [];
    assert TileLookup(a, [], r) == Looked(Found([1]), cache) && TileLookup(a, cache, q).answer == Missing;
    assert TileAnswers(a, cache, [q]) == [Missing];
  }

  /** The lookup of tile 0, 0 of a zoom is that of the first number of the zoom. */
  lemma FirstOfZoomLookup(archive: Archive, cache: Cache, z: int)
    requires 0 <= z <= 22
    ensures TileLookup(archive, cache, Request(z, 0, 0)) == archive.Lookup(cache, archive.root, H.Base(z), 4)
    ensures TrueAnswer(archive, Request(z, 0, 0)) == archive.Search(archive.root, H.Base(z), 4)
  {
    hide H.Id, H.InZoom, H.Base, Archive.Lookup, Archive.Search;
    H.FirstOfZoom(z);
  }

  lemma FirstBases()
    ensures H.Base(0) == 0 && H.Base(1) == 1
  {
    assert Pow4(0) == 1 && Pow4(1) == 4;
    hide Pow4, H.Base;
  }
}
