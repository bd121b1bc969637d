# Verified core of the planner bakes and the tile reader

This project models the algorithms behind the offline planner: the snow season pyramid, the PMTiles
reader and the map packs it opens, the tree tops of the canopy height models, the overlay geometry with
its vector tiles, and the licence check of one crate. Each module follows one part of the repository.
Code that computes a value is a function; code that changes fields, arrays or a worklist step by step is a
class or a method with a loop, proved against a function or a predicate that says what it is for.

The main results:

- **Tile numbers.** `tileID` is a bijection between tiles and numbers over all zooms, consecutive numbers
  of a zoom are neighbours, the descendants of a tile are one block, and the loop of the source computes
  this although its coordinates go negative.
- **Directories.** The decoder accepts exactly the entry lists that the format can hold and inverts the
  encoding of section 4 of the PMTiles version 3 specification.
- **Leaf cache.** The cache compares offsets alone. Every run of leaf fetches is answered as without a cache
  if and only if pointers with one offset decode alike. Every run of tile lookups is, where pointers with
  one offset have one length; a file of 141 bytes that the reader opens shows a wrong answer where they do not.
- **Packs.** When packing ends, each tile is in exactly one pack of at most `PACK_BYTES`, in ascending
  order, and the search in the folder of the tile finds that pack. The app asks the folder of the kind, so it
  finds that pack if and only if the tile is not terrain from zoom 13 up. The packs are exactly the planned
  ones: a square is divided only where all its tiles together are too large.
- **Archives.** For every list of tiles, written as the PMTiles version 3 specification lays an archive out,
  the reader opens the file and answers every run of lookups with exactly the bytes that were written for
  each tile, and with nothing for all others.
- **Snow.** The one-pass season machine finds the earliest longest snow period of the season filled from
  the nearest clear days. Blending picks the class and the mean or median that its weights demand and keeps
  pairs coherent, a level holds a band exactly when enough seasons do, and the pyramid is the worst case of
  all pixels below.
- **Tree tops.** Union-find with path halving marks exactly the first pixel of each connected component of
  equal peaks. The strip-wise pass hands on every known row once, in order and with its margin, if and only
  if no strip edge leaves a buffer between one and two margins; then its sums and the peaks of each row are
  those of the raster, and so are the tree tops where no call cuts a tree.
- **Lines.** `merge` uses every line in exactly one chain and leaves no two chains that could be joined;
  `simplify` keeps exactly the points of recursive Douglas-Peucker and drops only points within the
  tolerance.
- **Vector tiles.** For every sequence of features, a reader of the specification gives back the whole layer,
  and the label reader exactly the non-empty strings of the wanted keys; varints, zigzag, fields, line
  commands and coordinate blobs round trip.
- **Licences.** The recursive-descent reader decides whether each way to satisfy an expression takes a GPL
  licence, for every expression tree. The texts that spell an expression are exactly those that a strict
  reader accepts; the reader of the source also takes others, some of them for permissive. The graph search
  reports exactly the reachable offenders.

Where the code does not do what it is for, the exact condition is proved and an input is given: the pack of
fine terrain (`MapPacks.AppFindsPackIff`), the leaf cache for fetches (`LeafCache.TruthfulIffAgree`), the strip
buffer (`CanopyStrips.RightIffNeverShort`) and the texts that are licence expressions
(`LicenceGrammar.StrictIffSpelled`).

## Model

| member | source | states |
|---|---|---|
| `Hilbert.TileId` | companion-ios/PlannerNative/PMTilesArchive.swift:119-133 | The loop with its bit operators gives the first number of the zoom plus the position on the recursive curve, for every tile of every zoom |
| `Hilbert.LoopStep` | companion-ios/PlannerNative/PMTilesArchive.swift:123-131 | One step adds the quarters before the quadrant and leaves the position of the residues, also when the swapped coordinates are negative |
| `Hilbert.ResidueEnters` | companion-ios/PlannerNative/PMTilesArchive.swift:126-129 | The flip and the swap of the source turn the residues as the curve of the quadrant turns |
| `Hilbert.TileOfPosition` | companion-ios/PlannerNative/PMTilesArchive.swift:119-133 | The tile at the position of a tile is that tile |
| `Hilbert.PositionOfTile` | companion-ios/PlannerNative/PMTilesArchive.swift:119-133 | The position of the tile at a position is that position: the numbering of a zoom is a bijection |
| `Hilbert.Continuous` | companion-ios/PlannerNative/PMTilesArchive.swift:123-131 | Tiles at consecutive positions differ by 1 in exactly one coordinate, across every rotation |
| `Hilbert.ParentPosition` | companion-ios/PlannerNative/PMTilesArchive.swift:119-133 | The position divided by 4 is the position of the parent |
| `Hilbert.AncestorPosition` | companion-ios/PlannerNative/PMTilesArchive.swift:119-133 | The same over any number of zooms |
| `Hilbert.DescendantsAreOneBlock` | companion-ios/PlannerNative/PMTilesArchive.swift:119-133 | A tile lies below another exactly when its position is in one block of 4^k positions |
| `Hilbert.IdsNeverCollide` | companion-ios/PlannerNative/PMTilesArchive.swift:119-133 | Equal numbers mean the same zoom and the same tile |
| `Hilbert.LocateOfId` | companion-ios/PlannerNative/PMTilesArchive.swift:119-133 | The inverse numbering returns zoom and tile of a number |
| `Hilbert.EveryIdIsATile` | companion-ios/PlannerNative/PMTilesArchive.swift:119-133 | Every number between the first numbers of two zooms is taken by a tile of that zoom |
| `Hilbert.FirstOfZoom` | companion-ios/PlannerNative/PMTilesArchive.swift:119-133 | The first number of a zoom is that of tile 0, 0 |
| `Hilbert.IdFitsInt64` | companion-ios/PlannerNative/PMTilesArchive.swift:40 | For the zooms the reader admits, numbers fit a signed 64-bit integer |
| `PMTilesDirectory.Integer` | companion-ios/PlannerNative/PMTilesArchive.swift:78-88 | The loop over at most ten bytes reads a 64-bit varint, and fails on missing bytes or more than 64 bits |
| `PMTilesDirectory.DecodeColumn` | companion-ios/PlannerNative/PMTilesArchive.swift:98-115 | The loop over a column gives its values, or refuses where the source throws |
| `PMTilesDirectory.Directory` | companion-ios/PlannerNative/PMTilesArchive.swift:75-118 | The whole decoder, with its count limit and the demand that all bytes are used |
| `PMTilesDirectory.ParsedIsEncodable` | companion-ios/PlannerNative/PMTilesArchive.swift:75-118 | Every accepted directory has strictly increasing ids, no empty entry and no 64-bit overflow |
| `PMTilesDirectory.RoundTrip` | companion-ios/PlannerNative/PMTilesArchive.swift:75-118 | Decoding the column-wise delta encoding of any list the format can hold returns the list, with the 0 code for contiguous offsets |
| `PMTilesDirectory.DecoderRange` | companion-ios/PlannerNative/PMTilesArchive.swift:75-118 | Some bytes decode to a list exactly when the format can hold it |
| `LeafCache.ServedIsTrue` | companion-ios/PlannerNative/PMTilesArchive.swift:59-65 | A true cache answers with the decode of the pointer, when pointers with one offset decode alike |
| `LeafCache.NextIsTrue` | companion-ios/PlannerNative/PMTilesArchive.swift:59-65 | A lookup keeps at most four distinct offsets, each with a true decode |
| `LeafCache.AnswersAreTrue` | companion-ios/PlannerNative/PMTilesArchive.swift:59-65 | So are all answers of any run of lookups |
| `LeafCache.TruthfulIffAgree` | companion-ios/PlannerNative/PMTilesArchive.swift:59-65 | All runs are answered truly if and only if pointers with one offset decode alike |
| `LeafCache.SecondIsWrong` | companion-ios/PlannerNative/PMTilesArchive.swift:59-65 | A second pointer with the same offset that decodes differently gets the leaf of the first, which is not its own |
| `LeafCache.OneLengthAgrees` | companion-ios/PlannerNative/PMTilesArchive.swift:59-65 | Pointers with one offset decode alike when they have one length |
| `LeafCache.CacheIsRecent` | companion-ios/PlannerNative/PMTilesArchive.swift:59-65 | After any requests whose leaves decode, the cache holds the last four different offsets asked for, the latest last |
| `PMTilesArchive.BinarySearch` | companion-ios/PlannerNative/PMTilesArchive.swift:45-50 | The search ends after the last entry at or before the id, as a linear scan finds it |
| `PMTilesArchive.BoundaryIsLast` | companion-ios/PlannerNative/PMTilesArchive.swift:45-50 | The boundary between ids at most and above the wanted one is the end of the linear scan |
| `PMTilesArchive.PMTilesArchive.constructor` | companion-ios/PlannerNative/PMTilesArchive.swift:23-37 | The cache of an archive that `init` opened starts empty |
| `PMTilesArchive.OpenedIsSound` | companion-ios/PlannerNative/PMTilesArchive.swift:23-37 | A file that passes the guards on size, magic, compressions, ranges and root gives leaves and tiles inside the file, the two compressions of the header and a sorted root directory that starts after the header and ends within 16384 bytes |
| `PMTilesArchive.FourthEnds` | companion-ios/PlannerNative/PMTilesArchive.swift:43-67 | Three leaf levels below the root are followed; a pointer in the fourth directory is an error |
| `PMTilesArchive.PMTilesArchive.Fetch` | companion-ios/PlannerNative/PMTilesArchive.swift:59-65 | A hit moves to the end; a miss decodes, appends and evicts the oldest beyond four |
| `PMTilesArchive.PMTilesArchive.Round` | companion-ios/PlannerNative/PMTilesArchive.swift:44-66 | One directory gives the answer of the search behind the cache, or the leaf directory with which that search goes on |
| `PMTilesArchive.PMTilesArchive.Descend` | companion-ios/PlannerNative/PMTilesArchive.swift:42-68 | The descent through at most four directories by binary search is the linear search behind the cache, with its errors and its new cache, for every archive |
| `PMTilesArchive.PMTilesArchive.Tile` | companion-ios/PlannerNative/PMTilesArchive.swift:39-68 | Answer and cache for any coordinates and any archive: an error outside the admitted range, else the search behind the cache for the tile number |
| `PMTilesArchive.NextIsGenuine` | companion-ios/PlannerNative/PMTilesArchive.swift:59-65 | For every archive, the cache holds at most four distinct offsets, each with the decode of some slice at that offset |
| `PMTilesArchive.LookupIsTrue` | companion-ios/PlannerNative/PMTilesArchive.swift:39-68 | Where leaf pointers with one offset decode alike, a lookup behind a true cache answers as the uncached search and keeps the cache true |
| `PMTilesArchive.RunIsTrue` | companion-ios/PlannerNative/PMTilesArchive.swift:39-68 | So does every run of tile lookups |
| `PMTilesArchive.EveryRunIsTrue` | companion-ios/PlannerNative/PMTilesArchive.swift:39-68 | Every run from the empty cache over an archive whose equal leaf offsets carry equal lengths is answered as without a cache |
| `PMTilesArchive.CutOpens` | companion-ios/PlannerNative/PMTilesArchive.swift:23-37 | `init` opens this file, with its header fields and its root directory of two pointers |
| `PMTilesArchive.SecondTileIsWrong` | companion-ios/PlannerNative/PMTilesArchive.swift:59-65 | A file of 141 bytes that `init` opens, where the lookup of tile 1/0/0 after tile 0/0/0 misses, while the uncached search refuses the directory |
| `ArchiveWriter.WrittenOpens` | companion-ios/PlannerNative/PMTilesArchive.swift:23-37 | The reader opens every file laid out by a writer of the PMTiles version 3 specification, with header, root, leaf and tile sections and either compression of directories and tiles |
| `ArchiveWriter.NumberFound` | companion-ios/PlannerNative/PMTilesArchive.swift:39-68 | In such a file the search finds, for every number, the bytes written for the run of tiles that holds it, and nothing for a number that was not written |
| `ArchiveWriter.WrittenReads` | companion-ios/PlannerNative/PMTilesArchive.swift:39-68 | Every answer of every run of lookups over such a file, from the empty cache, is the content written for the tile (inflated where tiles are compressed), missing for every tile not written, and an error outside the admitted range |
| `ArchiveWriter.ReadAll` | companion-ios/PlannerNative/PMTilesArchive.swift:39-68 | A run of calls on one reader gives those answers, one after another |
| `ArchiveWriter.OneTileReads` | companion-ios/PlannerNative/PMTilesArchive.swift:23-68 | A file with one byte as tile 0/0/0, its leaf directory apart from its tile data, can be written, opens, and reads back that byte |
| `MapPacks.CoveringSquaresNest` | tools/planner_grid_maps.py:48-71 | Two packs that may hold one tile are the same or nested |
| `MapPacks.CoversMeans` | tools/planner_grid_maps.py:94-97 | A square may hold a tile exactly when it is in the folder of the tile, at a level from base level 0, 7 or 9 to the zoom, with the shifted coordinates of the tile |
| `MapPacks.OnePack` | tools/planner_grid_maps.py:74-123 | In consistent packs no tile lies in two packs |
| `MapPacks.DeepestFinds` | companion-ios/PlannerNative/PMTilesArchive.swift:160-164 | Asked in the folder of a tile, from any level between its pack and its zoom, the deepest existing pack is the pack of the tile |
| `MapPacks.ReaderFindsPack` | companion-ios/PlannerNative/PMTilesArchive.swift:160-164 | Asked in the folder of a tile, `offlinePack` finds the pack that holds it, although packs split independently |
| `MapPacks.DeepestStays` | companion-ios/PlannerNative/PMTilesArchive.swift:160-164 | The search finds packs of the folder that it is asked for only |
| `MapPacks.DeepestIsDeepest` | companion-ios/PlannerNative/PMTilesArchive.swift:160-164 | No existing square of the tile between base level and zoom is deeper than the one found |
| `MapPacks.MapZoomPack` | companion-ios/PlannerNative/PMTilesArchive.swift:160-164 | With a map zoom, the pack is the square of the tile at the smaller zoom, if it exists |
| `MapPacks.AppFindsPackIff` | companion-ios/OBCCompanion/OfflineTilesProtocol.swift:52-62 | The app, which asks the folder of the kind, finds the pack of a tile if and only if the tile is not terrain from zoom 13 up |
| `MapPacks.FineTerrainIsMissed` | companion-ios/OBCCompanion/OfflineTilesProtocol.swift:52-62 | For an archive of one terrain tile at zoom 13 the app finds no pack |
| `MapPacks.OtherKindIsFound` | companion-ios/OBCCompanion/OfflineTilesProtocol.swift:52-62 | The same tile in an archive of another kind is found |
| `MapPacks.EveryTileFound` | companion-ios/PlannerNative/PMTilesArchive.swift:160-164 | Each tile is in exactly one pack; the search in its folder finds that pack, and the app does exactly when the tile is not fine terrain |
| `PackSplit.KeptIsOne` | tools/planner_grid_maps.py:48-71 | At most one tile of a pack has the zoom of the pack, so one `own` record is enough |
| `PackSplit.ChildIsNew` | tools/planner_grid_maps.py:48-71 | A split never appends to a file that exists: no pack with deeper tiles has a pack below it |
| `PackSplit.SplitConsistent` | tools/planner_grid_maps.py:48-71 | A split keeps the tiles, their order, their squares and the layering of packs |
| `PackPlan.SplitKeepsRight` | tools/planner_grid_maps.py:48-71 | Splitting a file that is too large keeps each file either all tiles of its square or, where these are too large, the tile of its own zoom |
| `PackPlan.PacksArePlanned` | tools/planner_grid_maps.py:107-123 | When all packs fit, they are exactly these: a square with tiles below squares that are all too large, with all its tiles if they fit and else the tile of its own zoom |
| `PackPlan.DeeperIsNeeded` | tools/planner_grid_maps.py:107-123 | A pack above its base level is there only because all tiles of the square one zoom up are larger than `PACK_BYTES` together |
| `PackPlan.FittingIsWhole` | tools/planner_grid_maps.py:107-123 | A square whose tiles fit together, below squares whose tiles do not, is one pack of exactly its tiles |
| `PackWriter.Split` | tools/planner_grid_maps.py:48-71 | The loop gives each child exactly its tiles in order, keeps the own tile, makes less work, and refuses a pack of one tile |
| `PackWriter.Stage` | tools/planner_grid_maps.py:94-106 | Staging by base level gives consistent files of all tiles, each a square at its base level with exactly the tiles in that square |
| `PackWriter.MapTiles` | tools/planner_grid_maps.py:74-123 | The pack loop terminates. On success the packs are consistent with the tiles, each is at most `PACK_BYTES`, and they are exactly the planned ones: a square has a pack only below squares that are all too large, with all its tiles where they fit and else with the one of its own zoom. It fails only on a tile that alone is too large and alone in its pack |
| `PackWriter.PackedMeansSmall` | tools/planner_grid_maps.py:107-123 | Where a pack is at least as large as each of its tiles alone, success means that every tile alone fits |
| `SnowBytes.Encode` | tools/planner_snow.py:94-99 | The pair is coherent, and each sentinel stands for exactly its case |
| `SnowBytes.EncodeKeepsDays` | tools/planner_snow.py:94-99 | A dated pair holds every day of the period and at most one day more on each side |
| `SnowBytes.EncodeDated` | tools/planner_snow.py:94-99 | A dated pair is the first and the last day of the period, each halved, up to step 182 |
| `LongestRun.LongestIsUnique` | tools/planner_snow.py:231-249 | The earliest longest run of a property is unique |
| `LongestRun.LongestCredited` | tools/planner_snow.py:131-135 | Offering a whole run after the counted days, with a strict comparison, keeps the earliest longest |
| `SnowSeason.SnowyIsNearest` | tools/planner_snow.py:102-108 | The switch days of the machine give each day the state of its nearest clear day, the earlier on a tie |
| `SnowSeason.NearestExists` | tools/planner_snow.py:102-108 | Each day has a nearest clear day once one is clear |
| `SnowSeason.MachineTracks` | tools/planner_snow.py:119-135 | After every clear day the fields hold the open period and the earliest longest closed one |
| `SnowSeason.MachineFindsLongest` | tools/planner_snow.py:102-140 | At the end they hold the earliest longest snow period of the filled season |
| `SnowSeason.SnowSeason.constructor` | tools/planner_snow.py:109-117 | A season starts without an observation |
| `SnowSeason.SnowSeason.Credit` | tools/planner_snow.py:131-135 | A period replaces the best one only if it is strictly longer |
| `SnowSeason.SnowSeason.Observe` | tools/planner_snow.py:119-129 | A day is accepted exactly when it increases and lies in the season; the fields then follow the history, else nothing changes |
| `SnowSeason.SnowSeason.Planes` | tools/planner_snow.py:137-140 | The bytes of the earliest longest period of the filled history, or no data |
| `SnowSeason.Season` | tools/planner_snow.py:102-140 | For every increasing list of observations: the earliest longest period, no data exactly when no day was clear, and a coherent pair |
| `SnowSeason.SeasonIsUnique` | tools/planner_snow.py:102-140 | That meaning fixes the bytes |
| `SnowBlend.SortAscending` | tools/planner_snow.py:155-160 | Sorting is the ascending rearrangement |
| `SnowBlend.SortBelow` | tools/planner_snow.py:155-160 | Pointwise order carries over to independently sorted order statistics |
| `SnowBlend.MeanAtLeast` | tools/planner_snow.py:161-163 | A rounded mean is not below the lowest dated input |
| `SnowBlend.MeanAtMost` | tools/planner_snow.py:161-163 | A rounded mean is not above the highest dated input |
| `SnowBlend.MeanCoherent` | tools/planner_snow.py:161-163 | The means of onset and melt-out are an ordered pair of day steps |
| `SnowBlend.MedianBetween` | tools/planner_snow.py:155-163 | A median lies between the dated inputs, although missing inputs sort as 255 |
| `SnowBlend.MedianCoherent` | tools/planner_snow.py:155-163 | The independent medians of onset and melt-out are an ordered pair of day steps |
| `SnowBlend.BlendCoherent` | tools/planner_snow.py:143-164 | Every blend of coherent pairs is coherent, by mean and by median |
| `SnowBlend.BlendBetween` | tools/planner_snow.py:143-164 | A dated blend lies in the range of its dated inputs, byte by byte |
| `SnowBlend.BlendUnanimous` | tools/planner_snow.py:143-164 | Equal inputs blend to themselves, sentinels too |
| `SnowBlendRule.BlendClass` | tools/planner_snow.py:153-164 | No data exactly when its weight is over half; else dated when no other class is heavier, 254 when it is heavier than dated and not lighter than 253, and 253 when it is the heaviest alone. Weights are sums over the indices of the inputs |
| `SnowBlendRule.BlendMean` | tools/planner_snow.py:161-163 | A byte of a dated mean times the dated weight is the weighted sum of that byte over the dated inputs, rounded half up |
| `SnowBlendRule.BlendMedian` | tools/planner_snow.py:155-163 | A byte of a dated median is the mean of the two middle bytes of the dated inputs, rounded half up |
| `SnowBlendRule.MedianHalves` | tools/planner_snow.py:155-163 | At least half of the dated bytes lie at or below the byte of a dated median, and at least half at or above |
| `SnowLevels.SeasonsOverlap` | tools/planner_snow.py:231-249 | Pigeonhole: the snow counts of two bands exceed the seasons by at most the count of any band between |
| `SnowLevels.BetweenThreeQuarters` | tools/planner_snow.py:51-57 | A band between two three-quarters bands is a half band |
| `SnowLevels.EveryIsInterval` | tools/planner_snow.py:51-57 | The bands of the strictest level form one interval |
| `SnowLevels.StricterHoldsFewer` | tools/planner_snow.py:51-57 | A band of a stricter level is a band of each looser one |
| `SnowLevels.BandsMean` | tools/planner_snow.py:226-249 | A level holds a band exactly when enough of the seasons with data have snow on its day: the number of season indices at 254, or with onset <= min(4b + 2, 182) <= melt-out, against the fraction of the level |
| `SnowLevels.FullSeasons` | tools/planner_snow.py:226-249 | Where every season is 254, the run of each level is 0 to 45 |
| `SnowLevels.OneSeason` | tools/planner_snow.py:226-249 | One dated season gives each level exactly the bands whose day it covers |
| `SnowLevels.LoopEnd` | tools/planner_snow.py:248-249 | The wrapping byte arithmetic for the first band gives the true first band |
| `SnowLevels.RunOf` | tools/planner_snow.py:231-249 | First and last band of the earliest longest run of a level, 253 without a band, 255 without a season |
| `SnowLevels.Runs` | tools/planner_snow.py:231-249 | The same for all five levels |
| `SnowLevels.RunsShrink` | tools/planner_snow.py:231-249 | Runs never grow from a looser level to a stricter one |
| `SnowLevels.EveryRunIsWhole` | tools/planner_snow.py:231-249 | The run of the strictest level is all of its bands |
| `SnowWorst.WorstOfIsWorst` | tools/planner_snow.py:277-297 | The rule gives 254 if any pixel is full, else the smallest interval around the dated pixels, else no snow or no data |
| `SnowWorst.WorstIsUnique` | tools/planner_snow.py:277-297 | That meaning fixes the pair |
| `SnowWorst.WorstOfUnion` | tools/planner_snow.py:277-297 | The worst case of two worst cases is the worst case of all pixels |
| `SnowWorst.JoinLaws` | tools/planner_snow.py:277-297 | The join is associative, commutative and idempotent, with 255 neutral and 254 on top |
| `SnowWorst.WorstOfFour` | tools/planner_snow.py:277-297 | The rule over 2 x 2 pixels is the join of two joins |
| `SnowWorst.PyramidIsWorst` | tools/planner_snow.py:277-297 | Folding any number of zooms gives the worst case of all 4^n pixels at once |
| `SnowWorst.Worst` | tools/planner_snow.py:277-297 | Each pixel of the new tile is the worst case of its 2 x 2 pixels of the four tiles below |
| `SnowWorst.FillQuarter` | tools/planner_snow.py:281-297 | One quarter is filled and all other pixels stay |
| `SnowWorst.ShrunkShows` | tools/planner_snow.py:277-297 | From four tiles that show an image n zooms up, one call makes the tile that shows it one zoom further up |
| `SnowWorst.BuiltShows` | tools/planner_snow.py:277-297 | Repeated calls give the pyramid of the leaf tiles, over any number of zooms and with any tiles missing |
| `SnowWorst.BuiltIsWorst` | tools/planner_snow.py:277-297 | A pixel of a built tile is the worst case of all 4^n leaf pixels below it |
| `UnionFind.HalvedKeepsRoots` | tools/forest_reference.py:82-87 | A step of path halving changes no root and keeps parents at or before their children |
| `UnionFind.Root` | tools/forest_reference.py:82-87 | The loop terminates with the root, and halves the path without changing any root |
| `UnionFind.Join` | tools/forest_reference.py:129-130 | Two trees get the smaller root and all others keep theirs |
| `Canopy.CrownMeans` | tools/forest_reference.py:76-79 | The radius of a crown in pixels: 0.5 m and 0.08 of the height, not below 1 m and not above 4 m |
| `Canopy.NearMeans` | tools/forest_reference.py:106-112 | A pixel lies within a crown exactly when its squared distance is at most the squared radius |
| `Canopy.Coordinates` | tools/forest_reference.py:91-135 | Row and column of a raster index |
| `Canopy.RasterOrder` | tools/forest_reference.py:125 | Raster order is the order of rows, then of columns |
| `Canopy.ConnectedIsTransitive` | tools/forest_reference.py:91-135 | Connected peaks form trees |
| `CrownTops.Offsets` | tools/forest_reference.py:138-145 | The offsets hold every step that any crown reaches, nearest first |
| `CrownTops.NoneHigher` | tools/forest_reference.py:104-112 | The early exit over sorted offsets misses no pixel within the crown |
| `CrownTops.MarkPeaks` | tools/forest_reference.py:98-114 | Each peak is its own parent and all other pixels have none |
| `CrownTops.LinkPixel` | tools/forest_reference.py:117-130 | A peak joins the earlier equal peaks within its crown; each tree stays connected |
| `CrownTops.LinkPeaks` | tools/forest_reference.py:115-130 | After the loop all linked peaks share a root |
| `CrownTops.RootIsTop` | tools/forest_reference.py:131-135 | A peak is its own root exactly when it has the smallest raster index of its component |
| `CrownTops.SelectRoots` | tools/forest_reference.py:131-135 | The loop over the roots marks exactly the tops |
| `CrownTops.Tops` | tools/forest_reference.py:91-135 | `crown_tops` marks exactly the smallest raster index of each connected component of equal peaks |
| `CanopyStrips.Pass` | tools/forest_reference.py:380-399 | The strip loop makes the calls of its recursive form, with slices as Python takes them |
| `CanopyStrips.ContextKept` | tools/forest_reference.py:398 | The slice that keeps the context is right outside the short case |
| `CanopyStrips.ProcessIsRight` | tools/forest_reference.py:380-399 | Without a short buffer every known row is handed on once, in order and with its margin |
| `CanopyStrips.ShortFails` | tools/forest_reference.py:398 | A short buffer makes a later call hand on wrong rows, for every raster of known and different rows |
| `CanopyStrips.RightIffNeverShort` | tools/forest_reference.py:372-399 | The pass is right over every raster if and only if no strip edge is more than one and less than two margins after the first row |
| `CanopyStrips.ShortJob` | tools/forest_reference.py:398 | Rows from 240 on in blocks of 256 with margin 9 meet the short case, so some raster is handed on wrongly |
| `CanopyStrips.ShortHandsOn` | tools/forest_reference.py:387-398 | In that case, over every raster of known rows, the second call stands for rows 247 to 512 and hands on 7 rows |
| `CanopySums.SumsOfPass` | tools/forest_reference.py:372-399 | A right pass counts every known pixel exactly once, for every cell and every test of the height |
| `CanopySums.SeenIffKnown` | tools/forest_reference.py:392-399 | There is no sum exactly when the raster has no known pixel |
| `CanopySums.Totals.AddRow` | tools/forest_reference.py:197-210 | A row adds its pixels, crowns, stems and histogram columns to the cells it touches |
| `CanopySums.Totals.Accumulate` | tools/forest_reference.py:197-210 | The same for a block of rows, stems included |
| `CanopySums.BinMeans` | tools/forest_reference.py:207-209 | A column holds the heights from 3 m on of its decimetre, the last column all from its decimetre on |
| `CanopyPercentile.Percentile` | tools/forest_reference.py:213-224 | The loop stops at the first column where more than the rank is seen |
| `CanopyPercentile.ColumnsHoldCanopy` | tools/forest_reference.py:207-209 | The histogram columns of a cell sum to its crowns |
| `CanopyPercentile.PercentileOfHeights` | tools/forest_reference.py:213-224 | The percentile is the column of the height with rank floor(0.95 (n - 1)), stated by the two bounds on the heights below and up to that column, and 0 without a height |
| `CanopyWindow.SmoothAt` | tools/forest_reference.py:54-72 | The loop over neighbours gives the binomial mean of those inside the raster |
| `CanopyWindow.SmoothInside` | tools/forest_reference.py:54-72 | Inside the raster a pixel counts four times, its neighbours at a side twice and at a corner once, out of 16 |
| `CanopyWindow.PlaneStays` | tools/forest_reference.py:54-72 | A plane smooths to itself inside the raster |
| `CanopyWindow.SamePeaks` | tools/forest_reference.py:148-151 | A pixel with its halo in the buffer is a peak there exactly when it is a peak of the raster |
| `CanopyWindow.HandedRowIsCentral` | tools/forest_reference.py:372-399 | Every row of a right call has its halo inside the rows of the buffer |
| `CanopyHanded.BufferIsWindow` | tools/forest_reference.py:387-396 | The smoothed buffer of a right call is the window of the smoothed raster that its rows stand for |
| `CanopyHanded.HandedPeaks` | tools/forest_reference.py:387-396 | A pixel of a handed row is a peak of the smoothed buffer exactly when it is a peak of the smoothed raster |
| `CanopyHanded.HandedPeaksAt` | tools/forest_reference.py:387-396 | The same by row and column: the peak mask of each emitted row is that of the raster |
| `CanopyHanded.HandedLinks` | tools/forest_reference.py:115-130 | Equal peaks of handed rows are linked in the buffer exactly when they are in the raster |
| `CanopyHanded.HaloMeans` | tools/forest_reference.py:148-151 | The margin is one more than the least number of whole pixels that 4 m take |
| `CanopyHanded.SameTop` | tools/forest_reference.py:138-145 | A tree whose peaks all lie in handed rows has the same top in the buffer and in the raster |
| `CanopyStems.StemsOfPass` | tools/forest_reference.py:392-397 | Where the calls get the tops of the raster, each is counted exactly once in its cell |
| `CanopyStems.StemsOfWholeTrees` | tools/forest_reference.py:372-399 | Where no call cuts a tree, the tree tops that the pass counts are those of the whole raster |
| `CanopyStems.FindTops` | tools/forest_reference.py:395 | The tops of the rows of a call are cut from those that `crown_tops` finds in its buffer |
| `CanopyStems.SumCalls` | tools/forest_reference.py:386-398 | The sums over the calls of a right pass, each with the tops of its buffer |
| `CanopyStems.Sums` | tools/forest_reference.py:372-399 | The whole of `canopy_sums`, with and without tree tops: pixel, crown and histogram sums are those of the whole raster, the stems too where no call cuts a tree, and nothing is seen exactly when no pixel is known |
| `CanopyCutTree.TreeIsLost` | tools/forest_reference.py:138-145 | A right pass over one column of twelve rows whose last call hands on a tree top of the raster that is none in its buffer |
| `LineMerge.Extend` | tools/planner_overlays.py:117-126 | A side walks new lines through nodes of exactly two ends and stops only where no unused partner is left |
| `LineMerge.GrowKeepsClosed` | tools/planner_overlays.py:119-125 | Taking the unused line at a node leaves only its other end open |
| `LineMerge.StopKeepsClosed` | tools/planner_overlays.py:119-126 | A side that stops has closed its node, since earlier chains hold their own partners |
| `LineMerge.Assemble` | tools/planner_overlays.py:127-131 | Reversed left pieces, the seed and the right pieces join to the points of the walk |
| `LineMerge.JoinedCount` | tools/planner_overlays.py:127-131 | A chain has the points of its pieces minus one for each join |
| `LineMerge.SeedInChain` | tools/planner_overlays.py:127-131 | The seed line stands in its chain as it was drawn |
| `LineMerge.GrowChain` | tools/planner_overlays.py:115-131 | A chain is a walk of lines used once that leaves no partner out, with the id of its first line, which stands in it as it was drawn |
| `LineMerge.Merge` | tools/planner_overlays.py:108-131 | For any lines, also some without points: each output chain is the finished chain of a walk, every input line is in exactly one walk, the lowest line of a walk stands in it as it was drawn, and chains follow their lowest lines |
| `LineMerge.NothingLeftToJoin` | tools/planner_overlays.py:108-131 | No two output chains share an end at a node where exactly two lines end |
| `LineMerge.PartnersShareChain` | tools/planner_overlays.py:108-131 | Two lines that alone end at a node are in one chain |
| `Simplify.DistanceIsLeast` | tools/planner_overlays.py:66-68 | The clamped share is the nearest point of the segment |
| `Simplify.CloseIffDistance` | tools/planner_overlays.py:66-69 | A point is within the tolerance of the segment exactly when the computed distance is within the limit |
| `Simplify.FurthestIsFirst` | tools/planner_overlays.py:64-69 | The scan picks the first of the furthest points beyond the limit |
| `Simplify.FindFurthest` | tools/planner_overlays.py:61-69 | The inner loop finds that point, or none |
| `Simplify.Divided` | tools/planner_overlays.py:70-72 | Splitting a span keeps the pending spans apart and all others flat |
| `Simplify.AgreesDivided` | tools/planner_overlays.py:70-72 | Splitting a span keeps the result that of the recursion |
| `Simplify.Simplify` | tools/planner_overlays.py:54-72 | The worklist terminates, keeps both ends and exactly the points of recursive Douglas-Peucker, and every dropped point is within the tolerance of the segment between its nearest kept neighbours |
| `Protobuf.ReadVarint` | tools/planner_mvt.py:7-13 | The loop reads the integer at a place, or fails on a missing byte |
| `Protobuf.WriteVarint` | tools/planner_mvt.py:37-43 | The loop writes the base 128 digits |
| `Protobuf.ReadWritten` | tools/planner_mvt.py:7-43 | Reading inverts writing for every integer, wherever its bytes stand |
| `Protobuf.ZigzagInverts` | tools/planner_mvt.py:46-47 | Zigzag and the shift-and-xor decoding are inverse bijections |
| `Protobuf.Packed` | tools/planner_mvt.py:29-34 | The loop reads all integers of the data, or fails |
| `Protobuf.PackedRoundTrip` | tools/planner_mvt.py:29-34 | Packed integers read back as they were joined |
| `Protobuf.NextField` | tools/planner_mvt.py:19-26 | One field of any wire type, with payloads cut at the end of the data as Python slices are |
| `Protobuf.Fields` | tools/planner_mvt.py:16-26 | The fields that are yielded, and whether the end is reached without an error |
| `Protobuf.FieldsRoundTrip` | tools/planner_mvt.py:16-53 | The reader yields exactly the fields that `encode` wrote, for every list |
| `VectorLines.Line` | tools/planner_mvt.py:56-64 | The nested loop gives the commands part by part with the cursor carried on |
| `VectorLines.LineRoundTrip` | tools/planner_mvt.py:56-64 | A decoder of section 4.3 of the Mapbox Vector Tile Specification 2.1 returns exactly the non-empty parts |
| `VectorLayer.InternedAt` | tools/planner_mvt.py:73-76 | The number of a key names it in the table from then on |
| `VectorLayer.TagsName` | tools/planner_mvt.py:73-76 | The tags of a feature name its properties in the grown tables, and old tags keep their meaning |
| `VectorLayer.Layer.constructor` | tools/planner_mvt.py:70-71 | An empty layer |
| `VectorLayer.Layer.Add` | tools/planner_mvt.py:73-78 | A feature grows the tables and appends its encoded message |
| `VectorLayer.Layer.EncodeLayer` | tools/planner_mvt.py:80-84 | The message of version, name, features, keys, values and extent |
| `VectorLayer.WriteLayer` | tools/planner_mvt.py:67-84 | A layer after any sequence of features |
| `VectorReader.LayerRoundTrip` | tools/planner_mvt.py:67-84 | A reader of section 4 of the Mapbox Vector Tile Specification 2.1 gives back the name, version 2, extent 4096 and each feature in order, with its identity, kind, geometry integers and named properties |
| `VectorReader.LinesComeBack` | tools/planner_mvt.py:56-84 | The parts of a line, without the empty ones, come back from the bytes of the layer that holds it |
| `LabelTexts.ReadFeature` | tools/planner_grid_fonts.py:25-28 | The pairs of tags of a feature, a last odd tag dropped |
| `LabelTexts.ReadLayer` | tools/planner_grid_fonts.py:21-29 | The strings of a layer, or an error on a broken field or a tag out of range |
| `LabelTexts.ReadTile` | tools/planner_grid_fonts.py:17-29 | The strings of each layer of a tile |
| `LabelTexts.LayerRoundTrip` | tools/planner_grid_fonts.py:17-29 | For every sequence of features, exactly the non-empty strings of the wanted keys that were added |
| `LabelTexts.PropertiesOfFeatures` | tools/planner_grid_fonts.py:17-29 | Those are the properties of the features |
| `LabelTexts.TileRoundTrip` | tools/planner_grid_fonts.py:17-29 | The same for a tile of any number of layers, in order |
| `OverlayCoordinates.Coordinates` | tools/planner_overlays.py:24-36 | The loops read the count, the signed values and their sums, with an error for bytes left over |
| `OverlayCoordinates.BlobRoundTrip` | tools/planner_overlays.py:24-36 | Every list of points reads back from its count and zigzag deltas |
| `Licence.Parser.Take` | tools/check_obc_data_licence.py:38-41 | The position moves even past the end |
| `Licence.Parser.ParseEither` | tools/check_obc_data_licence.py:46-51 | The loop over OR follows the recursive reading and moves the shared position after it |
| `Licence.Parser.ParseBoth` | tools/check_obc_data_licence.py:53-58 | The same for AND |
| `Licence.Parser.ParseOne` | tools/check_obc_data_licence.py:60-69 | A name, a name with an exception, or brackets |
| `Licence.IsCopyleft` | tools/check_obc_data_licence.py:27-71 | The answer of the source for any text or none |
| `Licence.ReadsTerms` | tools/check_obc_data_licence.py:46-51 | Reading a spelled expression after other alternatives gives its value and stops behind it |
| `Licence.ReadsFactors` | tools/check_obc_data_licence.py:53-69 | The same for the factors of an AND, which binds tighter |
| `Licence.PermissiveIffWay` | tools/check_obc_data_licence.py:28-32 | An expression evaluates to permissive exactly when some way to satisfy it has no GPL name |
| `Licence.GplMeans` | tools/check_obc_data_licence.py:69 | A name is of the GPL family exactly when it is a + "GPL" + b for some a and b |
| `Licence.WordBeforeMark` | tools/check_obc_data_licence.py:35 | Brackets and slashes end a word without a space |
| `Licence.CopyleftIsTakesGpl` | tools/check_obc_data_licence.py:27-71 | For every expression tree and every text with its tokens: copyleft exactly when each way to satisfy it takes a GPL family licence |
| `Licence.CopyleftOfText` | tools/check_obc_data_licence.py:27-71 | The same for the spaced text of the tree, through the tokenizer |
| `Licence.BlankIsCopyleft` | tools/check_obc_data_licence.py:33-35 | A missing or blank text is copyleft |
| `Licence.TrailingIgnored` | tools/check_obc_data_licence.py:71 | After an expression, tokens that start with no operator change nothing |
| `Licence.SecondNameIsMissed` | tools/check_obc_data_licence.py:71 | A second name without an operator is never looked at, GPL or not |
| `LicenceGrammar.StrictIffSpelled` | tools/check_obc_data_licence.py:27-71 | A strict reader, which demands names, closed brackets, exceptions and the end of the text, accepts exactly the spellings of expressions |
| `LicenceGrammar.RightOnStrict` | tools/check_obc_data_licence.py:27-71 | On a text that the strict reader accepts, the answer of the source is right for every tree that the text spells |
| `LicenceGrammar.DanglingOr` | tools/check_obc_data_licence.py:46-51 | Any name, even a GPL one, before an OR and a bracket is taken for permissive |
| `LicenceGrammar.OperatorAlone` | tools/check_obc_data_licence.py:60-69 | The text OR is taken for permissive |
| `LicenceGrammar.UnclosedBracket` | tools/check_obc_data_licence.py:60-69 | A bracket that is not closed swallows the name after its first operand, GPL or not |
| `LicenceGraph.Follow` | tools/check_obc_data_licence.py:83-94 | The dependencies of one package join the search |
| `LicenceGraph.AllReached` | tools/check_obc_data_licence.py:81-95 | A closed search has seen exactly what is reachable |
| `LicenceGraph.Violations` | tools/check_obc_data_licence.py:74-95 | Exactly the packages reachable by normal or build dependencies that are local or copyleft are found, each once |

## Left out

- PMTilesArchive.RunIsTrue: one direction only. Tile lookups can be right although some leaf pointers disagree, because a leaf deeper than four directories or for no admitted tile is never asked and a wrong leaf can hold the same entry; the exact condition is stated for leaf fetches.
- CanopyStems.Sums: stated for passes without a short buffer, the exact condition of `CanopyStrips.RightIffNeverShort`; the start of the context slice is modelled as Python takes it, not clamped.
- CanopyStems.StemsOfWholeTrees: one direction only. A tree that a call cuts can be counted on each side, as the source documents, or be lost, as `CanopyCutTree.TreeIsLost` shows; cut trees can also cancel out.
- ArchiveWriter.WrittenReads: tiles lie in the root or in one level of leaf directories and deflate is a parameter; deeper leaves are covered by the search itself (`PMTilesArchive.FourthEnds`).
- MapPacks.EveryTileFound: the `mapZoom` branch of an older format is a branch of the reader only (`MapPacks.MapZoomPack`); the writer shown makes no such packs. Another program reads the fine terrain.
- LineMerge.Merge: coordinates come in pairs; a flat array of odd length is not modelled.
- Simplify.Simplify: does not model the rounding of kept points and the removal of equal neighbours after it, which are about the float inputs.
- PackWriter.MapTiles: the bound on open streams, which are reopened to append, and the order of directory listings are left out; the size of a written archive is a parameter.
- PMTilesArchive.PMTilesArchive.constructor: locking and memory mapping are left out, and zlib is a parameter.
- LicenceGraph.Violations: gives package ids instead of messages, and the root package is a parameter.
- Floating point: distances, heights, means and weights are exact reals; `floor(0.95 (n - 1))` is exact.
- numpy axes: seasons, blends and runs are modelled for one pixel, of which the source computes many at once.
- Protobuf.WriteVarint: asks for a non-negative integer, as the callers of the source give; the source raises an error for others.
- Text encodings: keys and strings of vector tiles are their bytes; a label that is not UTF-8 and Python's equality of booleans and integers as dictionary keys are left out.
- The byte layout of staging files, tile clipping, map projections, image and archive encodings, downloads, the season orchestration and the other host tools, which would add easier members or have no exact statement.
- Python's recursion limit for deeply nested licence brackets.
