/** A writer of archives as section 3 (Header), 4 (Directories) and 5 of the PMTiles version 3 specification
    lay them out: header, root directory, leaf directories, tile data. What the reader finds in its files is
    stated over the tiles that were written. */
module ArchiveWriter {
  import opened Wrappers
  import opened Seqs
  import opened Varints
  import opened PMTilesDirectory
  import opened LeafCache
  import opened PMTilesArchive
  import H = Hilbert

  /** A run of tiles with one content: its first number, how many they are, and which of the contents it is. */
  datatype Stored = Stored(id: nat, run: nat, content: nat)

  type Deflate = seq<byte> -> seq<byte>

  /** What is written: the tiles and their contents, the ends of the leaf directories or none, the two compressions,
      and the bytes of the header that the reader does not look at. */
  datatype Content = Content(
    tiles: seq<Stored>, contents: seq<seq<byte>>, cuts: seq<nat>, internalCompression: byte, tileCompression: byte,
    metadata: seq<byte>, counts: seq<byte>, bounds: seq<byte>)

  function Compressed(compression: byte, deflate: Deflate, data: seq<byte>): seq<byte> {
    if compression == 2 then deflate(data) else data
  }

  // ----- tile data

  function TileData(contents: seq<seq<byte>>): seq<byte> {
    if contents == [] then [] else TileData(contents[..|contents| - 1]) + contents[|contents| - 1]
  }

  /** The entry of a run of tiles: where its content lies, and how long it is. */
  function EntryOf(w: Content, t: Stored): Entry {
    if t.content < |w.contents|
    then Entry(t.id, |TileData(w.contents[..t.content])|, |w.contents[t.content]|, t.run)
    else Entry(t.id, 0, 0, t.run)
  }

  function Entries(w: Content): (r: seq<Entry>)
    ensures |r| == |w.tiles| && forall i | 0 <= i < |r| :: r[i] == EntryOf(w, w.tiles[i])
  {
    seq(|w.tiles|, i requires 0 <= i < |w.tiles| => EntryOf(w, w.tiles[i]))
  }

  // ----- directories

  function EncodedOrNone(entries: seq<Entry>): seq<byte> {
    if Encodable(entries) then Encode(entries) else []
  }

  /** The first tile of leaf j. */
  function LeafStart(cuts: seq<nat>, j: nat): nat {
    if 0 < j <= |cuts| then cuts[j - 1] else 0
  }

  function LeafEntries(w: Content, j: nat): seq<Entry> {
    var a := LeafStart(w.cuts, j);
    if j < |w.cuts| && a <= w.cuts[j] <= |w.tiles| then Entries(w)[a..w.cuts[j]] else []
  }

  function LeafBytes(w: Content, deflate: Deflate, j: nat): seq<byte> {
    Compressed(w.internalCompression, deflate, EncodedOrNone(LeafEntries(w, j)))
  }

  /** The first m leaves, one after another. */
  function LeafData(w: Content, deflate: Deflate, m: nat): seq<byte> {
    if m == 0 then [] else LeafData(w, deflate, m - 1) + LeafBytes(w, deflate, m - 1)
  }

  /** The entries of the root that point at the first m leaves. */
  function Pointers(w: Content, deflate: Deflate, m: nat): (r: seq<Entry>)
    ensures |r| == m
  {
    if m == 0 then [] else
      var j := m - 1;
      var a := LeafStart(w.cuts, j);
      Pointers(w, deflate, j)
      + [Entry(if a < |w.tiles| then w.tiles[a].id else 0, |LeafData(w, deflate, j)|, |LeafBytes(w, deflate, j)|, 0)]
  }

  function Root(w: Content, deflate: Deflate): seq<Entry> {
    if w.cuts == [] then Entries(w) else Pointers(w, deflate, |w.cuts|)
  }

  function RootBytes(w: Content, deflate: Deflate): seq<byte> {
    Compressed(w.internalCompression, deflate, EncodedOrNone(Root(w, deflate)))
  }

  // ----- the file

  /** A number in k bytes, the lowest first. */
  function Bytes(n: nat, k: nat): (r: seq<byte>)
    ensures |r| == k
  {
    if k == 0 then [] else [n % 256] + Bytes(n / 256, k - 1)
  }

  function HeaderBytes(w: Content, rootLength: nat, leafLength: nat, tileLength: nat): seq<byte> {
    [80, 77, 84, 105, 108, 101, 115, 3] + Bytes(127, 8) + Bytes(rootLength, 8) + w.metadata
    + Bytes(127 + rootLength, 8) + Bytes(leafLength, 8) + Bytes(127 + rootLength + leafLength, 8)
    + Bytes(tileLength, 8) + w.counts + [w.internalCompression, w.tileCompression] + w.bounds
  }

  function FileOf(w: Content, deflate: Deflate): seq<byte> {
    var root, leaves, data := RootBytes(w, deflate), LeafData(w, deflate, |w.cuts|), TileData(w.contents);
    HeaderBytes(w, |root|, |leaves|, |data|) + root + leaves + data
  }

  // ----- what the format demands

  /** The runs do not overlap. */
  predicate TilesAscend(tiles: seq<Stored>) {
    forall i, j | 0 <= i < j < |tiles| :: tiles[i].id + tiles[i].run <= tiles[j].id
  }

  predicate TileFits(w: Content, t: Stored) {
    t.id < 0x4000_0000_0000_0000 && 0 < t.run < 0x4000_0000_0000_0000 && t.content < |w.contents|
  }

  /** The leaves are not empty and hold all tiles. */
  predicate CutsAscend(w: Content) {
    && (forall j | 0 <= j < |w.cuts| :: LeafStart(w.cuts, j) < w.cuts[j] <= |w.tiles|)
    && (w.cuts != [] ==> w.cuts[|w.cuts| - 1] == |w.tiles|)
  }

  /** What is deflated inflates to itself, as far as the reader inflates. */
  ghost predicate Inverse(inflate: Inflate, deflate: Deflate) {
    forall data | |data| <= 32 * 1024 * 1024 :: deflate(data) != [] && inflate(deflate(data)) == Ok(data)
  }

  ghost predicate Writable(w: Content, deflate: Deflate) {
    && w.tiles != [] && TilesAscend(w.tiles) && CutsAscend(w) && |w.tiles| <= 1_000_000
    && (forall i | 0 <= i < |w.tiles| :: TileFits(w, w.tiles[i]))
    && (forall k | 0 <= k < |w.contents| :: 0 < |w.contents[k]| <= 32 * 1024 * 1024)
    && (w.internalCompression == 1 || w.internalCompression == 2)
    && (w.tileCompression == 1 || w.tileCompression == 2)
    && |w.metadata| == 16 && |w.counts| == 25 && |w.bounds| == 28
    && 127 + |RootBytes(w, deflate)| <= 16384 && |EncodedOrNone(Root(w, deflate))| <= 32 * 1024 * 1024
    && (forall j | 0 <= j < |w.cuts| :: LeafFits(w, deflate, j))
    && |FileOf(w, deflate)| < 0x4000_0000_0000_0000
  }

  ghost predicate Ready(w: Content, inflate: Inflate, deflate: Deflate) {
    Writable(w, deflate) && (w.internalCompression == 2 ==> Inverse(inflate, deflate))
  }

  predicate LeafFits(w: Content, deflate: Deflate, j: nat) {
    |LeafBytes(w, deflate, j)| <= 32 * 1024 * 1024 && |EncodedOrNone(LeafEntries(w, j))| <= 32 * 1024 * 1024
  }

  /** The answer for a tile with some content. */
  function Answered(w: Content, inflate: Inflate, content: seq<byte>): Answer {
    if w.tileCompression == 2 then
      match inflate(content)
      case Ok(tile) => Found(tile)
      case Err(error) => Failure(error)
    else Found(content)
  }

  predicate Covering(t: Stored, wanted: int) {
    t.id <= wanted < t.id + t.run
  }

  /** The answer for a number: that of the content of its tile, or missing when no tile has it. */
  ghost predicate RightAnswer(w: Content, inflate: Inflate, wanted: int, answer: Answer) {
    && (forall i | 0 <= i < |w.tiles| && Covering(w.tiles[i], wanted) && w.tiles[i].content < |w.contents| ::
          answer == Answered(w, inflate, w.contents[w.tiles[i].content]))
    && ((forall i | 0 <= i < |w.tiles| :: !Covering(w.tiles[i], wanted)) ==> answer == Missing)
  }

  lemma TileIsFit(w: Content, deflate: Deflate, i: nat)
    requires Writable(w, deflate) && i < |w.tiles|
    ensures TileFits(w, w.tiles[i]) && 0 < |w.contents[w.tiles[i].content]| <= 32 * 1024 * 1024
  {
    hide RootBytes, LeafData, FileOf, LeafFits, Root, TilesAscend, CutsAscend;
    assert TileFits(w, w.tiles[i]);
  }

  lemma TilesInOrder(w: Content, deflate: Deflate, i: nat, j: nat)
    requires Writable(w, deflate) && i < j < |w.tiles|
    ensures w.tiles[i].id < w.tiles[i].id + w.tiles[i].run <= w.tiles[j].id
  {
    hide RootBytes, LeafData, FileOf, LeafFits, Root, CutsAscend;
    assert TileFits(w, w.tiles[i]);
  }

  lemma LeafIsCut(w: Content, deflate: Deflate, j: nat)
    requires Writable(w, deflate) && j < |w.cuts|
    ensures LeafStart(w.cuts, j) < w.cuts[j] <= |w.tiles| && LeafFits(w, deflate, j)
    ensures j + 1 < |w.cuts| ==> LeafStart(w.cuts, j + 1) == w.cuts[j]
    ensures j + 1 == |w.cuts| ==> w.cuts[j] == |w.tiles|
  {
    hide RootBytes, LeafData, FileOf, LeafFits, Root, TilesAscend, TileFits;
  }

  /** The compressions and the lengths of the free parts of the header. */
  lemma HeaderIsFit(w: Content, deflate: Deflate)
    requires Writable(w, deflate)
    ensures |w.metadata| == 16 && |w.counts| == 25 && |w.bounds| == 28
    ensures w.internalCompression == 1 || w.internalCompression == 2
    ensures w.tileCompression == 1 || w.tileCompression == 2
    ensures 127 + |RootBytes(w, deflate)| <= 16384 && |FileOf(w, deflate)| < 0x4000_0000_0000_0000
    ensures |EncodedOrNone(Root(w, deflate))| <= 32 * 1024 * 1024
    ensures 0 < |w.tiles| <= 1_000_000
  {
    hide RootBytes, LeafData, FileOf, LeafFits, Root, TilesAscend, TileFits, CutsAscend;
  }

  // ----- numbers and slices

  function Limit256(k: nat): nat {
    if k == 0 then 1 else 256 * Limit256(k - 1)
  }

  lemma {:induction false} BytesRead(n: nat, k: nat)
    requires n < Limit256(k)
    ensures LittleEndian(Bytes(n, k)) == n
  {
    if k > 0 {
      BytesRead(n / 256, k - 1);
      assert Bytes(n, k)[1..] == Bytes(n / 256, k - 1);
    }
  }

  lemma EightBytes(n: nat)
    requires n < 0x4000_0000_0000_0000
    ensures LittleEndian(Bytes(n, 8)) == n
  {
    assert Limit256(4) == 0x1_0000_0000;
    assert Limit256(8) == 0x1_0000_0000 * 0x1_0000_0000;
    BytesRead(n, 8);
  }

  lemma {:induction false} DataAt(contents: seq<seq<byte>>, k: nat)
    requires k < |contents|
    ensures var a := |TileData(contents[..k])|;
      a + |contents[k]| <= |TileData(contents)| && TileData(contents)[a..a + |contents[k]|] == contents[k]
  {
    var n := |contents| - 1;
    var before := TileData(contents[..n]);
    if k < n {
      DataAt(contents[..n], k);
      TakeTake(contents, k, n);
      var a := |TileData(contents[..k])|;
      SliceOfFirst(before, contents[n], a, a + |contents[k]|);
    } else {
      assert (before + contents[n])[|before|..] == contents[n];
    }
  }

  lemma SliceOfFirst(a: seq<byte>, b: seq<byte>, i: nat, j: nat)
    requires i <= j <= |a|
    ensures (a + b)[i..j] == a[i..j]
  {
  }

  lemma {:induction false} LeafDataAt(w: Content, deflate: Deflate, m: nat, j: nat)
    requires j < m
    ensures var a, b := |LeafData(w, deflate, j)|, LeafBytes(w, deflate, j);
      a + |b| <= |LeafData(w, deflate, m)| && LeafData(w, deflate, m)[a..a + |b|] == b
  {
    hide LeafBytes;
    var before, last := LeafData(w, deflate, m - 1), LeafBytes(w, deflate, m - 1);
    if j < m - 1 {
      LeafDataAt(w, deflate, m - 1, j);
      var a := |LeafData(w, deflate, j)|;
      SliceOfFirst(before, last, a, a + |LeafBytes(w, deflate, j)|);
    } else {
      assert (before + last)[|before|..] == last;
    }
  }

  lemma {:induction false} PointerAt(w: Content, deflate: Deflate, m: nat, j: nat)
    requires j < m
    ensures Pointers(w, deflate, m)[j]
         == Entry(if LeafStart(w.cuts, j) < |w.tiles| then w.tiles[LeafStart(w.cuts, j)].id else 0,
                  |LeafData(w, deflate, j)|, |LeafBytes(w, deflate, j)|, 0)
  {
    hide LeafBytes, LeafData, LeafStart;
    if j < m - 1 { PointerAt(w, deflate, m - 1, j); }
  }

  // ----- the parts of the file

  lemma FileParts(w: Content, deflate: Deflate)
    requires Writable(w, deflate)
    ensures var f, root, leaves, data :=
        FileOf(w, deflate), RootBytes(w, deflate), LeafData(w, deflate, |w.cuts|), TileData(w.contents);
      var h := HeaderBytes(w, |root|, |leaves|, |data|);
      && |h| == 127 && |f| == 127 + |root| + |leaves| + |data| && f[..127] == h
      && f[127..127 + |root|] == root
      && f[127 + |root|..127 + |root| + |leaves|] == leaves
      && f[127 + |root| + |leaves|..] == data
  {
    HeaderIsFit(w, deflate);
    hide RootBytes, LeafData, TileData, Writable, HeaderBytes;
    var root, leaves, data := RootBytes(w, deflate), LeafData(w, deflate, |w.cuts|), TileData(w.contents);
    HeaderLength(w, |root|, |leaves|, |data|);
    FourParts(HeaderBytes(w, |root|, |leaves|, |data|), root, leaves, data);
  }

  lemma FourParts(a: seq<byte>, b: seq<byte>, c: seq<byte>, d: seq<byte>)
    ensures var f := a + b + c + d;
      && f[..|a|] == a && f[|a|..|a| + |b|] == b && f[|a| + |b|..|a| + |b| + |c|] == c && f[|a| + |b| + |c|..] == d
  {
  }

  lemma HeaderLength(w: Content, r: nat, l: nat, t: nat)
    requires |w.metadata| == 16 && |w.counts| == 25 && |w.bounds| == 28
    ensures |HeaderBytes(w, r, l, t)| == 127
  {
    hide Bytes;
  }

  lemma HeaderParts(w: Content, r: nat, l: nat, t: nat)
    requires |w.metadata| == 16 && |w.counts| == 25 && |w.bounds| == 28
    ensures var h := HeaderBytes(w, r, l, t);
      && |h| == 127 && h[..8] == MAGIC && h[8..16] == Bytes(127, 8) && h[16..24] == Bytes(r, 8)
      && h[40..48] == Bytes(127 + r, 8) && h[48..56] == Bytes(l, 8) && h[56..64] == Bytes(127 + r + l, 8)
      && h[64..72] == Bytes(t, 8) && h[97] == w.internalCompression && h[98] == w.tileCompression
  {
    hide Bytes;
    HeaderLength(w, r, l, t);
  }

  lemma NumberAt(f: seq<byte>, h: seq<byte>, i: nat, n: nat)
    requires |h| == 127 <= |f| && f[..127] == h && i + 8 <= 127 && h[i..i + 8] == Bytes(n, 8)
    requires n < 0x4000_0000_0000_0000
    ensures HeaderNumber(f, i) == n
  {
    hide Bytes;
    assert f[i..i + 8] == f[..127][i..i + 8];
    EightBytes(n);
  }

  // ----- directories read back

  ghost predicate PlainEntry(e: Entry) {
    0 <= e.id < U64 && 0 <= e.run < U64 && 0 < e.length < U64 && 0 <= e.offset < U64 - 1
  }

  lemma PlainIsEncodable(entries: seq<Entry>)
    requires 1 <= |entries| <= MAX_ENTRIES && Sorted(entries)
    requires forall i | 0 <= i < |entries| :: PlainEntry(entries[i])
    ensures Encodable(entries)
  {
    hide Contiguous;
  }

  lemma EncodeIsSome(entries: seq<Entry>)
    requires Encodable(entries)
    ensures Encode(entries) != []
  {
    hide Body, Encodable;
  }

  lemma EntryIsPlain(w: Content, deflate: Deflate, i: nat)
    requires Writable(w, deflate) && i < |w.tiles|
    ensures w.tiles[i].content < |w.contents| && PlainEntry(EntryOf(w, w.tiles[i]))
    ensures EntryOf(w, w.tiles[i]).offset + EntryOf(w, w.tiles[i]).length <= |TileData(w.contents)|
  {
    hide Writable, RootBytes, LeafData, FileOf, HeaderBytes, TileData;
    TileIsFit(w, deflate, i);
    HeaderIsFit(w, deflate);
    FileParts(w, deflate);
    DataAt(w.contents, w.tiles[i].content);
  }

  lemma SomeEntriesEncodable(w: Content, deflate: Deflate, a: nat, b: nat)
    requires Writable(w, deflate) && a < b <= |w.tiles|
    ensures Encodable(Entries(w)[a..b])
  {
    hide Writable, PlainEntry, EntryOf, Encodable, Entries, RootBytes, FileOf, Root, EncodedOrNone;
    HeaderIsFit(w, deflate);
    var es := Entries(w)[a..b];
    forall i | 0 <= i < |es|
      ensures PlainEntry(es[i]) && es[i].id == w.tiles[a + i].id
    {
      EntryInSlice(w, deflate, a, b, i);
    }
    forall i, j | 0 <= i < j < |es|
      ensures es[i].id < es[j].id
    {
      TilesInOrder(w, deflate, a + i, a + j);
    }
    PlainIsEncodable(es);
  }

  lemma EntryInSlice(w: Content, deflate: Deflate, a: nat, b: nat, i: nat)
    requires Writable(w, deflate) && a + i < b <= |w.tiles|
    ensures var e := Entries(w)[a..b][i]; PlainEntry(e) && e.id == w.tiles[a + i].id
  {
    hide Writable, PlainEntry, EntryOf;
    EntryIsPlain(w, deflate, a + i);
    IdOfEntry(w, w.tiles[a + i]);
    assert Entries(w)[a..b][i] == Entries(w)[a + i];
  }

  lemma IdOfEntry(w: Content, t: Stored)
    ensures EntryOf(w, t).id == t.id && EntryOf(w, t).run == t.run
  {
  }

  lemma {:induction false} StartsAscend(w: Content, deflate: Deflate, j: nat, k: nat)
    requires Writable(w, deflate) && j < k < |w.cuts|
    ensures LeafStart(w.cuts, j) < LeafStart(w.cuts, k) < |w.tiles|
    decreases k
  {
    hide Writable, LeafFits, LeafStart;
    LeafIsCut(w, deflate, k);
    LeafIsCut(w, deflate, k - 1);
    if j < k - 1 { StartsAscend(w, deflate, j, k - 1); }
  }

  lemma {:induction false} StartIsAtLeast(w: Content, deflate: Deflate, j: nat)
    requires Writable(w, deflate) && j < |w.cuts|
    ensures j <= LeafStart(w.cuts, j)
  {
    hide Writable;
    if j > 0 {
      StartIsAtLeast(w, deflate, j - 1);
      StartsAscend(w, deflate, j - 1, j);
    }
  }

  lemma LeafIsSome(w: Content, inflate: Inflate, deflate: Deflate, j: nat)
    requires Ready(w, inflate, deflate) && j < |w.cuts|
    ensures var a := LeafStart(w.cuts, j);
      a < w.cuts[j] <= |w.tiles| && LeafEntries(w, j) == Entries(w)[a..w.cuts[j]] && Encodable(LeafEntries(w, j))
    ensures LeafBytes(w, deflate, j) == Compressed(w.internalCompression, deflate, Encode(LeafEntries(w, j))) != []
    ensures |Encode(LeafEntries(w, j))| <= 32 * 1024 * 1024 && |LeafBytes(w, deflate, j)| <= 32 * 1024 * 1024
  {
    hide Writable, Entries, Encode, Encodable;
    LeafIsCut(w, deflate, j);
    SomeEntriesEncodable(w, deflate, LeafStart(w.cuts, j), w.cuts[j]);
    hide LeafStart;
    EncodeIsSome(LeafEntries(w, j));
  }

  lemma RootIsEncodable(w: Content, inflate: Inflate, deflate: Deflate)
    requires Ready(w, inflate, deflate)
    ensures Encodable(Root(w, deflate))
  {
    hide Writable, Encodable, Entries, Pointers, Inverse;
    if w.cuts == [] {
      HeaderIsFit(w, deflate);
      SomeEntriesEncodable(w, deflate, 0, |w.tiles|);
      assert Entries(w)[0..|w.tiles|] == Entries(w);
    } else {
      PointersEncodable(w, inflate, deflate);
    }
  }

  lemma PointerIsPlain(w: Content, inflate: Inflate, deflate: Deflate, j: nat)
    requires Ready(w, inflate, deflate) && j < |w.cuts|
    ensures var a, e := LeafStart(w.cuts, j), Pointers(w, deflate, |w.cuts|)[j];
      && a < |w.tiles| && e.id == w.tiles[a].id && e.run == 0
      && e.offset == |LeafData(w, deflate, j)| && e.length == |LeafBytes(w, deflate, j)|
      && e.offset + e.length <= |LeafData(w, deflate, |w.cuts|)| && PlainEntry(e)
  {
    hide Writable, Inverse, RootBytes, LeafData, LeafBytes, FileOf, HeaderBytes, TileData, Pointers, LeafEntries;
    hide Encodable, Encode, Entries, LeafStart;
    LeafIsSome(w, inflate, deflate, j);
    FileParts(w, deflate);
    HeaderIsFit(w, deflate);
    TileIsFit(w, deflate, LeafStart(w.cuts, j));
    PointerAt(w, deflate, |w.cuts|, j);
    LeafDataAt(w, deflate, |w.cuts|, j);
  }

  lemma PointersEncodable(w: Content, inflate: Inflate, deflate: Deflate)
    requires Ready(w, inflate, deflate) && w.cuts != []
    ensures Encodable(Pointers(w, deflate, |w.cuts|))
  {
    hide Writable, Inverse, Pointers, PlainEntry, LeafStart, LeafData, LeafBytes, Encodable;
    var es := Pointers(w, deflate, |w.cuts|);
    forall j | 0 <= j < |es|
      ensures PlainEntry(es[j])
      ensures LeafStart(w.cuts, j) < |w.tiles| && es[j].id == w.tiles[LeafStart(w.cuts, j)].id
    {
      PointerIsPlain(w, inflate, deflate, j);
    }
    forall i, j | 0 <= i < j < |es|
      ensures es[i].id < es[j].id
    {
      StartsAscend(w, deflate, i, j);
      TilesInOrder(w, deflate, LeafStart(w.cuts, i), LeafStart(w.cuts, j));
    }
    StartIsAtLeast(w, deflate, |w.cuts| - 1);
    LeafIsCut(w, deflate, |w.cuts| - 1);
    HeaderIsFit(w, deflate);
    PlainIsEncodable(es);
  }

  lemma DirectoryReads(a: Archive, deflate: Deflate, entries: seq<Entry>, offset: nat, bytes: seq<byte>)
    requires a.internalCompression == 1 || (a.internalCompression == 2 && Inverse(a.inflate, deflate))
    requires Encodable(entries) && |Encode(entries)| <= 32 * 1024 * 1024
    requires bytes == if a.internalCompression == 2 then deflate(Encode(entries)) else Encode(entries)
    requires |bytes| <= 32 * 1024 * 1024 && offset + |bytes| <= |a.file| && a.file[offset..offset + |bytes|] == bytes
    ensures a.DirectoryAt(offset, |bytes|) == Ok(entries)
  {
    hide Encode, Encodable, Parse;
    RoundTrip(entries);
  }

  // ----- the file opens

  function Built(w: Content, inflate: Inflate, deflate: Deflate): Archive {
    var root, leaves := |RootBytes(w, deflate)|, |LeafData(w, deflate, |w.cuts|)|;
    Archive(FileOf(w, deflate), w.internalCompression, w.tileCompression, 127 + root, leaves, 127 + root + leaves,
            |TileData(w.contents)|, Root(w, deflate), inflate)
  }

  lemma BuiltHeader(w: Content, deflate: Deflate)
    requires Writable(w, deflate)
    ensures var f, r, l, t :=
        FileOf(w, deflate), |RootBytes(w, deflate)|, |LeafData(w, deflate, |w.cuts|)|, |TileData(w.contents)|;
      && HeaderNumber(f, 8) == 127 && HeaderNumber(f, 16) == r
      && HeaderNumber(f, 40) == 127 + r && HeaderNumber(f, 48) == l
      && HeaderNumber(f, 56) == 127 + r + l && HeaderNumber(f, 64) == t
      && |f| == 127 + r + l + t && f[..8] == MAGIC && f[97] == w.internalCompression && f[98] == w.tileCompression
  {
    hide Writable, FileOf, HeaderBytes, RootBytes, LeafData, TileData, HeaderNumber, Bytes;
    var f, r, l, t :=
      FileOf(w, deflate), |RootBytes(w, deflate)|, |LeafData(w, deflate, |w.cuts|)|, |TileData(w.contents)|;
    hide EncodedOrNone, Root;
    HeaderIsFit(w, deflate);
    FileParts(w, deflate);
    HeaderReads(w, f, r, l, t);
  }

  lemma HeaderReads(w: Content, f: seq<byte>, r: nat, l: nat, t: nat)
    requires |w.metadata| == 16 && |w.counts| == 25 && |w.bounds| == 28
    requires |f| >= 127 && f[..127] == HeaderBytes(w, r, l, t) && 127 + r + l + t < 0x4000_0000_0000_0000
    ensures HeaderNumber(f, 8) == 127 && HeaderNumber(f, 16) == r
    ensures HeaderNumber(f, 40) == 127 + r && HeaderNumber(f, 48) == l
    ensures HeaderNumber(f, 56) == 127 + r + l && HeaderNumber(f, 64) == t
    ensures f[..8] == MAGIC && f[97] == w.internalCompression && f[98] == w.tileCompression
  {
    hide HeaderBytes, HeaderNumber, Bytes;
    HeaderParts(w, r, l, t);
    var h := HeaderBytes(w, r, l, t);
    assert f[..8] == f[..127][..8] && f[97] == f[..127][97] && f[98] == f[..127][98];
    NumberAt(f, h, 8, 127);
    NumberAt(f, h, 16, r);
    NumberAt(f, h, 40, 127 + r);
    NumberAt(f, h, 48, l);
    NumberAt(f, h, 56, 127 + r + l);
    NumberAt(f, h, 64, t);
  }

  /** The reader opens the file, with its directories and sections where they were written. */
  lemma WrittenOpens(w: Content, inflate: Inflate, deflate: Deflate)
    requires Ready(w, inflate, deflate)
    ensures Open(FileOf(w, deflate), inflate) == Ok(Built(w, inflate, deflate))
  {
    hide Writable, Inverse, FileOf, HeaderBytes, RootBytes, LeafData, TileData, HeaderNumber, Encode, Encodable, Root;
    hide Archive.DirectoryAt;
    BuiltHeader(w, deflate);
    HeaderIsFit(w, deflate);
    RootIsEncodable(w, inflate, deflate);
    RootReads(w, inflate, deflate);
  }

  lemma RootReads(w: Content, inflate: Inflate, deflate: Deflate)
    requires Ready(w, inflate, deflate) && HeaderAccepted(FileOf(w, deflate))
    ensures Header(FileOf(w, deflate), inflate).DirectoryAt(127, |RootBytes(w, deflate)|) == Ok(Root(w, deflate))
  {
    hide FileOf, HeaderBytes, RootBytes, LeafData, TileData, HeaderNumber, Encode, Encodable, Root;
    hide Archive.DirectoryAt, HeaderAccepted, Writable, Inverse;
    BuiltHeader(w, deflate);
    FileParts(w, deflate);
    HeaderIsFit(w, deflate);
    RootIsEncodable(w, inflate, deflate);
    RootSize(w, deflate);
    HeaderFields(FileOf(w, deflate), inflate);
    DirectoryReads(Header(FileOf(w, deflate), inflate), deflate, Root(w, deflate), 127, RootBytes(w, deflate));
  }

  lemma HeaderFields(f: seq<byte>, inflate: Inflate)
    requires HeaderAccepted(f)
    ensures |f| >= 127
    ensures var a := Header(f, inflate); a.file == f && a.inflate == inflate && a.internalCompression == f[97]
  {
    hide HeaderNumber;
  }

  lemma RootSize(w: Content, deflate: Deflate)
    requires Writable(w, deflate) && Encodable(Root(w, deflate))
    ensures |Encode(Root(w, deflate))| <= 32 * 1024 * 1024
    ensures RootBytes(w, deflate) == Compressed(w.internalCompression, deflate, Encode(Root(w, deflate)))
  {
    hide Writable, Encode, Encodable, Root, FileOf;
    HeaderIsFit(w, deflate);
  }

  /** A leaf reads back from its place. */
  lemma LeafReads(w: Content, inflate: Inflate, deflate: Deflate, j: nat)
    requires Ready(w, inflate, deflate) && j < |w.cuts|
    ensures var a, e := Built(w, inflate, deflate), Pointers(w, deflate, |w.cuts|)[j];
      a.InLeaves(e) && a.LeafAt(e.offset, e.length) == Ok(LeafEntries(w, j))
  {
    hide FileOf, HeaderBytes, RootBytes, LeafData, LeafBytes, TileData, Encode, Encodable, Root, Writable, Inverse;
    hide Pointers, LeafEntries, Entries, LeafStart, PlainEntry, Archive.DirectoryAt;
    LeafIsSome(w, inflate, deflate, j);
    PointerIsPlain(w, inflate, deflate, j);
    FileParts(w, deflate);
    HeaderIsFit(w, deflate);
    LeafDataAt(w, deflate, |w.cuts|, j);
    var a := Built(w, inflate, deflate);
    var bytes, offset := LeafBytes(w, deflate, j), |LeafData(w, deflate, j)|;
    SliceOfPart(a.file, a.leafOffset, LeafData(w, deflate, |w.cuts|), offset, bytes);
    DirectoryReads(a, deflate, LeafEntries(w, j), a.leafOffset + offset, bytes);
  }

  /** A slice of a part of a file. */
  lemma SliceOfPart(f: seq<byte>, start: nat, part: seq<byte>, offset: nat, bytes: seq<byte>)
    requires start + |part| <= |f| && f[start..start + |part|] == part
    requires offset + |bytes| <= |part| && part[offset..offset + |bytes|] == bytes
    ensures f[start + offset..start + offset + |bytes|] == bytes
  {
    var slice := f[start + offset..start + offset + |bytes|];
    forall i | 0 <= i < |bytes|
      ensures slice[i] == bytes[i]
    {
      assert bytes[i] == part[offset..offset + |bytes|][i] == part[offset + i];
      assert part[offset + i] == f[start..start + |part|][offset + i] == f[start + offset + i];
    }
  }

  // ----- the tiles

  /** The bytes of a tile are those of its content. */
  lemma ContentReads(w: Content, inflate: Inflate, deflate: Deflate, i: nat)
    requires Writable(w, deflate) && i < |w.tiles|
    ensures w.tiles[i].content < |w.contents|
    ensures Built(w, inflate, deflate).TileAt(EntryOf(w, w.tiles[i]))
         == Answered(w, inflate, w.contents[w.tiles[i].content])
  {
    hide Writable, FileOf, HeaderBytes, RootBytes, LeafData, TileData, Root, Archive.TileAt, Answered, EncodedOrNone;
    TileIsFit(w, deflate, i);
    EntryIsPlain(w, deflate, i);
    FileParts(w, deflate);
    HeaderIsFit(w, deflate);
    var a, k := Built(w, inflate, deflate), w.tiles[i].content;
    DataAt(w.contents, k);
    assert a.file[a.tileOffset..a.tileOffset + a.tileLength] == TileData(w.contents);
    SliceOfPart(a.file, a.tileOffset, TileData(w.contents), |TileData(w.contents[..k])|, w.contents[k]);
    SliceIsTile(w, a, EntryOf(w, w.tiles[i]), w.contents[k]);
  }

  lemma SliceIsTile(w: Content, a: Archive, e: Entry, content: seq<byte>)
    requires a.tileCompression == w.tileCompression && 0 <= e.offset && e.length == |content| <= 32 * 1024 * 1024
    requires e.offset + e.length <= a.tileLength && a.tileOffset + a.tileLength <= |a.file|
    requires a.file[a.tileOffset + e.offset..a.tileOffset + e.offset + |content|] == content
    ensures a.TileAt(e) == Answered(w, a.inflate, content)
  {
  }

  lemma {:induction false} LastFound(directory: seq<Entry>, wanted: int) returns (k: int)
    ensures -1 <= k < |directory|
    ensures LastAtMost(directory, wanted) == if k < 0 then None else Some(directory[k])
    ensures k >= 0 ==> directory[k].id <= wanted
    ensures forall j | k < j < |directory| :: wanted < directory[j].id
  {
    if directory == [] {
      k := -1;
    } else if directory[|directory| - 1].id <= wanted {
      k := |directory| - 1;
    } else {
      k := LastFound(directory[..|directory| - 1], wanted);
    }
  }

  /** The right answer among the tiles from one on, up to another. */
  ghost predicate RightAmong(w: Content, inflate: Inflate, from: nat, to: nat, wanted: int, answer: Answer) {
    && (forall i | from <= i < to <= |w.tiles| && Covering(w.tiles[i], wanted) && w.tiles[i].content < |w.contents| ::
          answer == Answered(w, inflate, w.contents[w.tiles[i].content]))
    && ((forall i | from <= i < to <= |w.tiles| :: !Covering(w.tiles[i], wanted)) ==> answer == Missing)
  }

  lemma SearchTiles(w: Content, inflate: Inflate, deflate: Deflate, from: nat, to: nat, wanted: int, depth: nat)
    requires Writable(w, deflate) && from < to <= |w.tiles| && depth > 0
    ensures RightAmong(w, inflate, from, to, wanted,
                       Built(w, inflate, deflate).Search(Entries(w)[from..to], wanted, depth))
  {
    hide Writable, Built, EntryOf, Archive.TileAt, LastAtMost, Answered;
    var a, es := Built(w, inflate, deflate), Entries(w)[from..to];
    var k := LastFound(es, wanted);
    forall i | 0 <= i < |es|
      ensures es[i] == EntryOf(w, w.tiles[from + i]) && es[i].id == w.tiles[from + i].id
      ensures es[i].run == w.tiles[from + i].run > 0
    {
      TileIsFit(w, deflate, from + i);
      IdOfEntry(w, w.tiles[from + i]);
    }
    forall j | from + k < j < to
      ensures wanted < w.tiles[j].id
    {
      assert es[j - from].id == w.tiles[j].id;
    }
    OnlyOne(w, deflate, from, to, wanted, from + k);
    if k >= 0 { ContentReads(w, inflate, deflate, from + k); }
    hide Entries;
    SearchStep(a, es, wanted, depth, k);
  }

  /** A search in a directory of tiles. */
  lemma SearchStep(a: Archive, es: seq<Entry>, wanted: int, depth: nat, k: int)
    requires depth > 0 && -1 <= k < |es| && LastAtMost(es, wanted) == if k < 0 then None else Some(es[k])
    requires k >= 0 ==> es[k].run > 0
    ensures a.Search(es, wanted, depth)
         == if k >= 0 && wanted < es[k].id + es[k].run then a.TileAt(es[k]) else Missing
  {
    hide LastAtMost, Archive.TileAt;
  }

  /** Of the tiles that ascend, only the last that starts at or before a number can hold it. */
  lemma OnlyOne(w: Content, deflate: Deflate, from: nat, to: nat, wanted: int, k: int)
    requires Writable(w, deflate) && from <= to <= |w.tiles| && from - 1 <= k < to
    requires k >= from ==> w.tiles[k].id <= wanted
    requires forall j | k < j < to :: wanted < w.tiles[j].id
    ensures forall i | from <= i < to && Covering(w.tiles[i], wanted) :: i == k
  {
    hide Writable;
    forall i | from <= i < k
      ensures !Covering(w.tiles[i], wanted)
    {
      TilesInOrder(w, deflate, i, k);
    }
  }

  // ----- any number

  lemma NumberFound(w: Content, inflate: Inflate, deflate: Deflate, wanted: int)
    requires Ready(w, inflate, deflate)
    ensures RightAnswer(w, inflate, wanted,
                        Built(w, inflate, deflate).Search(Root(w, deflate), wanted, 4))
  {
    hide Writable, Inverse, Built, Entries, Pointers;
    if w.cuts == [] {
      HeaderIsFit(w, deflate);
      SearchTiles(w, inflate, deflate, 0, |w.tiles|, wanted, 4);
      assert Entries(w)[0..|w.tiles|] == Entries(w);
    } else {
      SearchLeaves(w, inflate, deflate, wanted);
    }
  }

  lemma SearchLeaves(w: Content, inflate: Inflate, deflate: Deflate, wanted: int)
    requires Ready(w, inflate, deflate) && w.cuts != []
    ensures RightAnswer(w, inflate, wanted,
                        Built(w, inflate, deflate).Search(Pointers(w, deflate, |w.cuts|), wanted, 4))
  {
    hide Writable, Built, Pointers, LastAtMost, Answered, LeafEntries, Entries, Encodable, Encode, LeafBytes, LeafData;
    hide Archive.InLeaves, Archive.LeafAt, PlainEntry, Inverse, LeafStart;
    var a, es := Built(w, inflate, deflate), Pointers(w, deflate, |w.cuts|);
    var j := LastFound(es, wanted);
    InsideLeaf(w, inflate, deflate, wanted, j);
    if j >= 0 {
      LeafReads(w, inflate, deflate, j);
      LeafIsSome(w, inflate, deflate, j);
      PointerIsPlain(w, inflate, deflate, j);
      SearchTiles(w, inflate, deflate, LeafStart(w.cuts, j), w.cuts[j], wanted, 3);
      SearchInLeaf(a, es, wanted, j, LeafEntries(w, j));
    }
  }

  lemma SearchInLeaf(a: Archive, es: seq<Entry>, wanted: int, j: nat, leaf: seq<Entry>)
    requires j < |es| && LastAtMost(es, wanted) == Some(es[j]) && es[j].run == 0
    requires a.InLeaves(es[j]) && a.LeafAt(es[j].offset, es[j].length) == Ok(leaf)
    ensures a.Search(es, wanted, 4) == a.Search(leaf, wanted, 3)
  {
    hide LastAtMost, Archive.InLeaves, Archive.LeafAt;
  }

  /** A tile that holds the number lies in the leaf whose pointer is found. */
  lemma InsideLeaf(w: Content, inflate: Inflate, deflate: Deflate, wanted: int, j: int)
    requires Ready(w, inflate, deflate) && w.cuts != []
    requires var es := Pointers(w, deflate, |w.cuts|);
      -1 <= j < |es| && (j >= 0 ==> es[j].id <= wanted) && forall k | j < k < |es| :: wanted < es[k].id
    ensures forall i | 0 <= i < |w.tiles| && Covering(w.tiles[i], wanted) ::
              j >= 0 && LeafStart(w.cuts, j) <= i < w.cuts[j]
  {
    hide Writable, Inverse, LeafData, LeafBytes, Pointers, PlainEntry, Covering;
    forall i | 0 <= i < |w.tiles| && Covering(w.tiles[i], wanted)
      ensures j >= 0 && LeafStart(w.cuts, j) <= i < w.cuts[j]
    {
      if j >= 0 { NotBefore(w, inflate, deflate, wanted, j, i); }
      if j + 1 < |w.cuts| {
        NotAfter(w, inflate, deflate, wanted, j + 1, i);
        if j >= 0 { LeafIsCut(w, deflate, j); }
      } else {
        LeafIsCut(w, deflate, j);
      }
    }
  }

  lemma NotBefore(w: Content, inflate: Inflate, deflate: Deflate, wanted: int, j: nat, i: nat)
    requires Ready(w, inflate, deflate) && j < |w.cuts| && i < |w.tiles| && Covering(w.tiles[i], wanted)
    requires Pointers(w, deflate, |w.cuts|)[j].id <= wanted
    ensures LeafStart(w.cuts, j) <= i
  {
    hide Writable, Inverse, LeafData, LeafBytes, Pointers, PlainEntry, LeafStart;
    PointerIsPlain(w, inflate, deflate, j);
    if i < LeafStart(w.cuts, j) { TilesInOrder(w, deflate, i, LeafStart(w.cuts, j)); }
  }

  lemma NotAfter(w: Content, inflate: Inflate, deflate: Deflate, wanted: int, j: nat, i: nat)
    requires Ready(w, inflate, deflate) && j < |w.cuts| && i < |w.tiles| && Covering(w.tiles[i], wanted)
    requires wanted < Pointers(w, deflate, |w.cuts|)[j].id
    ensures i < LeafStart(w.cuts, j)
  {
    hide Writable, Inverse, LeafData, LeafBytes, Pointers, PlainEntry, LeafStart;
    PointerIsPlain(w, inflate, deflate, j);
    if LeafStart(w.cuts, j) < i { TilesInOrder(w, deflate, LeafStart(w.cuts, j), i); }
  }

  // ----- runs of lookups

  /** The pointer to leaf j. */
  function LeafPointer(w: Content, deflate: Deflate, j: nat): Pointer {
    Pointer(|LeafData(w, deflate, j)|, |LeafBytes(w, deflate, j)|)
  }

  ghost predicate PointsAtLeaf(w: Content, deflate: Deflate, p: Pointer) {
    exists j: nat | j < |w.cuts| :: p == LeafPointer(w, deflate, j)
  }

  ghost function LeafPointers(w: Content, deflate: Deflate): iset<Pointer> {
    iset p: Pointer | PointsAtLeaf(w, deflate, p)
  }

  lemma {:induction false} LeafDataGrows(w: Content, deflate: Deflate, j: nat, k: nat)
    requires j < k
    ensures |LeafData(w, deflate, j)| + |LeafBytes(w, deflate, j)| <= |LeafData(w, deflate, k)|
  {
    LeafDataAt(w, deflate, k, j);
  }

  lemma LeavesApart(w: Content, inflate: Inflate, deflate: Deflate)
    requires Ready(w, inflate, deflate)
    ensures OneLength(LeafPointers(w, deflate))
  {
    hide Writable, Inverse, LeafData, LeafBytes, LeafEntries, Entries, Encodable, Encode, LeafStart;
    forall j: nat, k: nat | j < |w.cuts| && k < |w.cuts| && j != k
      ensures LeafPointer(w, deflate, j).offset != LeafPointer(w, deflate, k).offset
    {
      var low, high := if j < k then j else k, if j < k then k else j;
      LeafIsSome(w, inflate, deflate, low);
      LeafDataGrows(w, deflate, low, high);
    }
    hide LeafPointer;
  }

  lemma RootPoints(w: Content, inflate: Inflate, deflate: Deflate)
    requires Ready(w, inflate, deflate)
    ensures Built(w, inflate, deflate).Points(Root(w, deflate), LeafPointers(w, deflate))
  {
    hide Writable, Inverse, LeafData, LeafBytes, Pointers, Entries, PlainEntry, LeafStart;
    if w.cuts == [] {
      RunsArePositive(w, deflate);
    } else {
      var es := Pointers(w, deflate, |w.cuts|);
      forall j: nat | j < |es|
        ensures Pointer(es[j].offset, es[j].length) == LeafPointer(w, deflate, j)
      {
        PointerIsPlain(w, inflate, deflate, j);
      }
    }
  }

  lemma LeafPoints(w: Content, inflate: Inflate, deflate: Deflate, j: nat)
    requires Ready(w, inflate, deflate) && j < |w.cuts|
    ensures var a, p := Built(w, inflate, deflate), LeafPointer(w, deflate, j);
      a.LeafAt(p.offset, p.length).Ok?
      && a.Points(a.LeafAt(p.offset, p.length).value, LeafPointers(w, deflate))
  {
    hide Writable, Inverse, LeafData, LeafBytes, Pointers, PlainEntry, LeafEntries, LeafStart, Encode, Encodable;
    hide Archive.LeafAt, Built;
    PointerIsPlain(w, inflate, deflate, j);
    LeafReads(w, inflate, deflate, j);
    LeafIsSome(w, inflate, deflate, j);
    RunsArePositive(w, deflate);
  }

  lemma LeavesReached(w: Content, inflate: Inflate, deflate: Deflate)
    requires Ready(w, inflate, deflate)
    ensures Built(w, inflate, deflate).Reaches(LeafPointers(w, deflate))
  {
    hide Writable, Inverse, LeafPointer, Archive.LeafAt, Archive.Points, Root;
    var a, pointers := Built(w, inflate, deflate), LeafPointers(w, deflate);
    RootPoints(w, inflate, deflate);
    forall p | p in pointers
      ensures a.LeafAt(p.offset, p.length).Ok? ==> a.Points(a.LeafAt(p.offset, p.length).value, pointers)
    {
      var j: nat :| j < |w.cuts| && p == LeafPointer(w, deflate, j);
      LeafPoints(w, inflate, deflate, j);
    }
  }

  lemma RunsArePositive(w: Content, deflate: Deflate)
    requires Writable(w, deflate)
    ensures forall i | 0 <= i < |w.tiles| :: Entries(w)[i].run > 0
  {
    hide Writable, EntryOf;
    forall i | 0 <= i < |w.tiles|
      ensures Entries(w)[i].run > 0
    {
      TileIsFit(w, deflate, i);
      IdOfEntry(w, w.tiles[i]);
    }
  }

  /** Every answer of every run of lookups, from the empty cache, is that of the tile that was written, or
      missing where none was. */
  lemma WrittenReads(w: Content, inflate: Inflate, deflate: Deflate, requests: seq<Request>, i: nat)
    requires Ready(w, inflate, deflate) && i < |requests|
    ensures Open(FileOf(w, deflate), inflate) == Ok(Built(w, inflate, deflate))
    ensures var r := requests[i];
      var answer := TileAnswers(Built(w, inflate, deflate), [], requests)[i];
      if 0 <= r.z <= 22 && H.InZoom(r.z, H.Point(r.x, r.y))
      then RightAnswer(w, inflate, H.Id(r.z, H.Point(r.x, r.y)), answer) else answer == Failure(BadUrl)
  {
    hide Writable, Inverse, Built, Open, FileOf, Root, RightAnswer, Archive.Reaches, TileAnswers, Archive.Search;
    hide LeafPointers, H.Id, H.InZoom;
    WrittenOpens(w, inflate, deflate);
    LeavesReached(w, inflate, deflate);
    LeavesApart(w, inflate, deflate);
    var a, r := Built(w, inflate, deflate), requests[i];
    RootOfBuilt(w, inflate, deflate);
    EveryRunIsTrue(a, LeafPointers(w, deflate), requests, i);
    if Admitted(r) { NumberFound(w, inflate, deflate, H.Id(r.z, H.Point(r.x, r.y))); }
  }

  lemma RootOfBuilt(w: Content, inflate: Inflate, deflate: Deflate)
    ensures Built(w, inflate, deflate).root == Root(w, deflate)
  {
  }

  // ----- a written file

  /** One byte as tile 0/0/0, behind one leaf directory. */
  function OneTile(content: byte): Content {
    Content([Stored(0, 1, 0)], [[content]], [1], 1, 1, Zeros(16), Zeros(25), Zeros(28))
  }

  /** The leaf directory and the tile lie apart, and the reader finds the byte that was written. */
  lemma OneTileReads(content: byte, inflate: Inflate, deflate: Deflate)
    ensures Ready(OneTile(content), inflate, deflate)
    ensures Open(FileOf(OneTile(content), deflate), inflate) == Ok(Built(OneTile(content), inflate, deflate))
    ensures TileAnswers(Built(OneTile(content), inflate, deflate), [], [Request(0, 0, 0)])[0] == Found([content])
  {
    hide Built, TileAnswers, Open, FileOf, Writable;
    var w := OneTile(content);
    OneTileIsWritable(content, deflate);
    WrittenReads(w, inflate, deflate, [Request(0, 0, 0)], 0);
    assert Covering(w.tiles[0], 0) && H.Id(0, H.Point(0, 0)) == 0;
  }

  lemma OneTileIsWritable(content: byte, deflate: Deflate)
    ensures Writable(OneTile(content), deflate)
  {
    hide Encode, Encodable, Zeros, Bytes;
    var w := OneTile(content);
    OneTileDirectories(content, deflate);
    assert LeafStart(w.cuts, 0) == 0;
    assert |TileData(w.contents)| == 1;
  }

  lemma OneTileDirectories(content: byte, deflate: Deflate)
    ensures var w := OneTile(content);
      && LeafEntries(w, 0) == [Entry(0, 0, 1, 1)] && |LeafBytes(w, deflate, 0)| == 5 && |LeafData(w, deflate, 1)| == 5
      && Root(w, deflate) == [Entry(0, 0, 5, 0)] && |RootBytes(w, deflate)| == 5
  {
    hide Encode, Encodable, Zeros;
    var w := OneTile(content);
    var start := w.contents[..0];
    assert TileData(start) == [];
    assert Entries(w) == [Entry(0, 0, 1, 1)];
    OneEntrySize(Entry(0, 0, 1, 1));
    OneEntrySize(Entry(0, 0, 5, 0));
    assert LeafData(w, deflate, 0) == [];
    assert Pointers(w, deflate, 0) == [];
  }

  /** A directory of one entry with small numbers takes five bytes. */
  lemma OneEntrySize(e: Entry)
    requires 0 <= e.id < 127 && 0 <= e.offset < 127 && 0 < e.length < 127 && 0 <= e.run < 127
    ensures Encodable([e]) && |Encode([e])| == 5
  {
    var s := [e];
    OneValue(Ids, e.id);
    OneValue(Runs, e.run);
    OneValue(Lengths, e.length);
    OneValue(Offsets([e.length]), e.offset);
    assert IdsOf(s) == [e.id] && RunsOf(s) == [e.run] && LengthsOf(s) == [e.length] && OffsetsOf(s) == [e.offset];
  }

  lemma OneValue(kind: Kind, v: int)
    requires 0 <= v < 127 && (kind.Lengths? ==> v > 0) && Room(kind, 1)
    ensures Sound(kind, [v]) && |PMTilesDirectory.Bytes(kind, [v])| == 1
  {
    assert [v][..0] == [];
  }

  /** An archive object that answers one request after another. */
  method ReadAll(archive: Archive, requests: seq<Request>) returns (answers: seq<Answer>)
    requires archive.Checked()
    ensures answers == TileAnswers(archive, [], requests)
  {
    hide TileAnswers, TileLookup, Archive.Checked, Genuine;
    var reader := new PMTilesArchive(archive);
    answers := [];
    AnswersStart(archive, requests);
    for i := 0 to |requests|
      invariant reader.Valid() && reader.archive == archive
      invariant TileAnswers(archive, [], requests) == answers + TileAnswers(archive, reader.leaves, requests[i..])
    {
      AnswersStep(archive, reader.leaves, requests, i, answers);
      var answer := reader.Tile(requests[i].z, requests[i].x, requests[i].y);
      answers := answers + [answer];
    }
    AnswersEnd(archive, reader.leaves, requests, answers);
  }

  lemma AnswersStart(archive: Archive, requests: seq<Request>)
    ensures TileAnswers(archive, [], requests) == [] + TileAnswers(archive, [], requests[0..])
  {
    assert requests[0..] == requests;
    hide TileAnswers;
  }

  lemma AnswersStep(archive: Archive, cache: Cache, requests: seq<Request>, i: nat, before: seq<Answer>)
    requires i < |requests|
    ensures var looked := TileLookup(archive, cache, Request(requests[i].z, requests[i].x, requests[i].y));
      before + TileAnswers(archive, cache, requests[i..])
      == before + [looked.answer] + TileAnswers(archive, looked.cache, requests[i + 1..])
  {
    hide TileLookup;
    assert requests[i..][1..] == requests[i + 1..] && requests[i..][0] == requests[i];
  }

  lemma AnswersEnd(archive: Archive, cache: Cache, requests: seq<Request>, answers: seq<Answer>)
    ensures answers + TileAnswers(archive, cache, requests[|requests|..]) == answers
  {
    assert requests[|requests|..] == [];
  }
}
