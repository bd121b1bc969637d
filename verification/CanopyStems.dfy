/** The tree tops that the strip-wise pass counts, against those of the whole raster. */
module CanopyStems {
  import opened Wrappers
  import opened Seqs
  import opened CanopyStrips
  import opened CanopySums
  import opened CanopyHanded
  import C = Canopy
  import CanopyWindow
  import CrownTops

  // ----- tree tops as pixels: a row without the pixels that are no top

  function Masked(line: Line, tops: seq<bool>): (r: Line)
    ensures |r| == |line|
  {
    seq(|line|, j requires 0 <= j < |line| => if j < |tops| && tops[j] then line[j] else None)
  }

  lemma {:induction false} StemsAreMasked(cells: seq<int>, line: Line, tops: seq<bool>, cell: int, n: nat)
    ensures StemCount(cells, line, tops, cell, n) == RowCount(cells, Masked(line, tops), cell, AnyHeight(), n)
  {
    if n > 0 { StemsAreMasked(cells, line, tops, cell, n - 1); }
  }

  /** The raster of the tree tops alone. */
  function TopsOnly(job: Job, truth: int -> seq<bool>): Job {
    job.(raster := r => Masked(job.raster(r), truth(r)))
  }

  lemma {:induction false} BlockIsMasked(job: Job, truth: int -> seq<bool>, cells: int -> seq<int>, a: int, b: int,
                                         tops: seq<seq<bool>>, cell: int)
    requires a <= b && |tops| >= b - a && forall i | 0 <= i < b - a :: tops[i] == truth(a + i)
    ensures BlockStems(cells, a, job.Rows(a, b), tops, cell)
         == Count(cells, a, TopsOnly(job, truth).Rows(a, b), cell, AnyHeight())
    decreases b - a
  {
    if a < b {
      var k := b - 1 - a;
      BlockIsMasked(job, truth, cells, a, b - 1, tops, cell);
      assert job.Rows(a, b)[..k] == job.Rows(a, b - 1);
      assert TopsOnly(job, truth).Rows(a, b)[..k] == TopsOnly(job, truth).Rows(a, b - 1);
      assert tops[k] == truth(a + k);
      StemsAreMasked(cells(a + k), job.raster(a + k), truth(a + k), cell, |job.raster(a + k)|);
      hide StemCount, RowCount, Masked;
    }
  }

  // ----- the pass over the tree tops alone

  function MaskedCall(job: Job, truth: int -> seq<bool>, c: Call): Call {
    var tops := TopsOnly(job, truth);
    Call(c.from, c.to, tops.Rows(c.from, c.to), c.first, tops.Rows(c.first, c.first + |c.window|))
  }

  function MaskedCalls(job: Job, truth: int -> seq<bool>, calls: seq<Call>): (r: seq<Call>)
    ensures |r| == |calls| && forall k | 0 <= k < |r| :: r[k] == MaskedCall(job, truth, calls[k])
  {
    seq(|calls|, k requires 0 <= k < |calls| => MaskedCall(job, truth, calls[k]))
  }

  lemma MaskedKnown(job: Job, truth: int -> seq<bool>, r: int)
    ensures Known(TopsOnly(job, truth).raster(r)) ==> Known(job.raster(r))
  {
    var line, masked := job.raster(r), TopsOnly(job, truth).raster(r);
    if Known(masked) {
      var j :| 0 <= j < |masked| && masked[j].Some?;
      assert line[j] == masked[j] && line[j] in line;
    }
  }

  lemma MaskedRight(job: Job, truth: int -> seq<bool>, c: Call)
    requires RightCall(job, c)
    ensures RightCall(TopsOnly(job, truth), MaskedCall(job, truth, c))
  {
    hide Masked;
  }

  lemma MaskedRun(job: Job, truth: int -> seq<bool>, calls: seq<Call>)
    requires RightRun(job, calls, job.end)
    ensures RightRun(TopsOnly(job, truth), MaskedCalls(job, truth, calls), job.end)
  {
    hide RightCall;
    var tops, masked := TopsOnly(job, truth), MaskedCalls(job, truth, calls);
    forall k | 0 <= k < |calls|
      ensures RightCall(tops, masked[k])
    {
      MaskedRight(job, truth, calls[k]);
    }
    forall r | job.from <= r < job.end && Known(tops.raster(r))
      ensures Handed(masked, r)
    {
      MaskedKnown(job, truth, r);
      assert Handed(calls, r);
      var k :| 0 <= k < |calls| && calls[k].from <= r < calls[k].to;
      assert masked[k].from <= r < masked[k].to;
    }
  }

  /** The tree tops that a call is given are those of the raster. */
  ghost predicate TopsAgree(calls: seq<Call>, topsOf: Call -> seq<seq<bool>>, truth: int -> seq<bool>) {
    forall k | 0 <= k < |calls| :: CallAgrees(calls[k], topsOf(calls[k]), truth)
  }

  ghost predicate CallAgrees(c: Call, tops: seq<seq<bool>>, truth: int -> seq<bool>) {
    |tops| == |c.part| && forall i | 0 <= i < |c.part| :: tops[i] == truth(c.from + i)
  }

  lemma {:induction false} CallsAreMasked(job: Job, cells: int -> seq<int>, calls: seq<Call>,
                                          topsOf: Call -> seq<seq<bool>>, truth: int -> seq<bool>, cell: int, n: nat)
    requires RightRun(job, calls, job.end) && TopsAgree(calls, topsOf, truth) && n <= |calls|
    ensures CallsStems(cells, calls[..n], topsOf, cell)
         == CallsCount(cells, MaskedCalls(job, truth, calls)[..n], cell, AnyHeight())
  {
    if n > 0 {
      var masked, c := MaskedCalls(job, truth, calls), calls[n - 1];
      hide CallsStems, CallsCount, BlockStems, Count, RightRun, Masked;
      CallsAreMasked(job, cells, calls, topsOf, truth, cell, n - 1);
      CallIsMasked(job, cells, calls, topsOf, truth, cell, n - 1);
      CallsStemsSnoc(cells, calls, n - 1, topsOf);
      Snoc(masked, n);
      CallsSnoc(cells, masked[..n - 1], masked[n - 1], cell, AnyHeight());
    }
  }

  lemma CallIsMasked(job: Job, cells: int -> seq<int>, calls: seq<Call>, topsOf: Call -> seq<seq<bool>>,
                     truth: int -> seq<bool>, cell: int, k: nat)
    requires RightRun(job, calls, job.end) && TopsAgree(calls, topsOf, truth) && k < |calls|
    ensures var c := MaskedCall(job, truth, calls[k]);
      BlockStems(cells, calls[k].from, calls[k].part, topsOf(calls[k]), cell)
      == Count(cells, c.from, c.part, cell, AnyHeight())
  {
    var c := calls[k];
    RightOrder(job, calls, k);
    assert CallAgrees(c, topsOf(c), truth);
    BlockIsMasked(job, truth, cells, c.from, c.to, topsOf(c), cell);
    hide BlockStems, Count, RightRun;
  }

  /** Where the calls get the tree tops of the raster, a right pass counts each of them exactly once. */
  lemma StemsOfPass(job: Job, cells: int -> seq<int>, calls: seq<Call>, topsOf: Call -> seq<seq<bool>>,
                    truth: int -> seq<bool>, cell: int)
    requires job.Valid() && RightRun(job, calls, job.end) && TopsAgree(calls, topsOf, truth)
    ensures CallsStems(cells, calls, topsOf, cell)
         == Count(cells, job.from, TopsOnly(job, truth).Rows(job.from, job.end), cell, AnyHeight())
  {
    hide RightRun, CallsStems, CallsCount, Count, TopsAgree;
    var masked := MaskedCalls(job, truth, calls);
    CallsAreMasked(job, cells, calls, topsOf, truth, cell, |calls|);
    assert calls[..|calls|] == calls && masked[..|calls|] == masked;
    MaskedRun(job, truth, calls);
    SumsOfPass(TopsOnly(job, truth), cells, masked, cell, AnyHeight());
  }

  // ----- the tree tops that the source gives its calls

  /** The tree tops of the rows that a call hands on, found in its buffer. */
  ghost function BufferTops(c: Call, s: Scale): (r: seq<seq<bool>>)
    requires s.Valid()
    ensures |r| == |c.part|
  {
    seq(|c.part|, i => seq(s.cols, j => BufferCanopy(c, s).Top((c.from + i - c.first) * s.cols + j)))
  }

  /** The tree tops of a row of the raster. */
  ghost function RasterTops(job: Job, s: Scale, r: int): seq<bool>
    requires job.Valid() && s.Valid()
  {
    seq(s.cols, j => RasterCanopy(job, s).Top((r - job.from) * s.cols + j))
  }

  /** No tree of a handed pixel reaches into a row of another call, in the buffer or in the raster. */
  ghost predicate NoTreeCut(job: Job, c: Call, s: Scale)
    requires job.Valid() && s.Valid()
  {
    forall p | BufferCanopy(c, s).Pixel(p) && HandedOn(c, s, p) ::
      TreeInBuffer(c, s, p) && TreeInRaster(job, c, s, InRaster(job, c, s, p))
  }

  lemma SameTopAt(job: Job, c: Call, s: Scale, r: int, j: int)
    requires job.Valid() && s.Valid() && RightCall(job, c) && job.margin == Halo(s) && NoTreeCut(job, c, s)
    requires c.from <= r < c.to && 0 <= j < s.cols
    ensures BufferCanopy(c, s).Top((r - c.first) * s.cols + j)
       <==> RasterCanopy(job, s).Top((r - job.from) * s.cols + j)
  {
    hide BufferCanopy, RasterCanopy, TreeInBuffer, TreeInRaster, Halo;
    CanopiesValid(job, c, s);
    HandedPixel(job, c, s, r, j);
    SumOfRows(r - c.first, c.first - job.from, s.cols);
    SameTop(job, c, s, (r - c.first) * s.cols + j);
  }

  lemma BufferTopsAgree(job: Job, c: Call, s: Scale)
    requires job.Valid() && s.Valid() && RightCall(job, c) && job.margin == Halo(s) && NoTreeCut(job, c, s)
    ensures CallAgrees(c, BufferTops(c, s), r => RasterTops(job, s, r))
  {
    hide Halo, NoTreeCut, BufferCanopy, RasterCanopy;
    forall i, j | 0 <= i < |c.part| && 0 <= j < s.cols
      ensures BufferTops(c, s)[i][j] == RasterTops(job, s, c.from + i)[j]
    {
      SameTopAt(job, c, s, c.from + i, j);
    }
  }

  /** Where no call cuts a tree, the tree tops that a right pass counts are those of the whole raster. */
  lemma StemsOfWholeTrees(job: Job, cells: int -> seq<int>, calls: seq<Call>, s: Scale,
                          topsOf: Call -> seq<seq<bool>>, cell: int)
    requires job.Valid() && s.Valid() && RightRun(job, calls, job.end) && job.margin == Halo(s)
    requires NoTreesCut(job, calls, s) && forall c :: topsOf(c) == BufferTops(c, s)
    ensures CallsStems(cells, calls, topsOf, cell) == RasterStems(job, cells, s, cell)
  {
    hide Halo, NoTreeCut, BufferTops, RasterTops, CallsStems, Count, RightCall, CallAgrees;
    ghost var truth: int -> seq<bool> := r => RasterTops(job, s, r);
    forall k | 0 <= k < |calls|
      ensures CallAgrees(calls[k], topsOf(calls[k]), truth)
    {
      BufferTopsAgree(job, calls[k], s);
    }
    StemsOfPass(job, cells, calls, topsOf, truth, cell);
  }

  // ----- the whole of `canopy_sums`

  /** The tree tops that a call is given: those of its buffer, or none where tops are not asked for. */
  ghost function GivenTops(c: Call, scale: Option<Scale>): (r: seq<seq<bool>>)
    requires scale.Some? ==> scale.value.Valid()
    ensures |r| == |c.part|
  {
    if scale.Some? then BufferTops(c, scale.value) else seq(|c.part|, i requires 0 <= i < |c.part| => NoTops(c.part[i]))
  }

  function NoTops(line: Line): (r: seq<bool>)
    ensures |r| == |line|
  {
    seq(|line|, _ => false)
  }

  ghost function TopsGiven(scale: Option<Scale>): Call -> seq<seq<bool>>
    requires scale.Some? ==> scale.value.Valid()
  {
    c => GivenTops(c, scale)
  }

  /** The margin of the source. */
  ghost predicate RightMargin(job: Job, scale: Option<Scale>) {
    if scale.Some? then scale.value.Valid() && job.margin == Halo(scale.value) else job.margin == 0
  }

  /** Every row of the raster has a cell for each pixel, and the width that tree tops are found in. */
  ghost predicate RightRows(job: Job, cellsOf: int -> seq<int>, scale: Option<Scale>, cells: int) {
    forall r | job.from <= r < job.end ::
      RowShaped(cellsOf(r), job.raster(r), cells) && (scale.Some? ==> |job.raster(r)| == scale.value.cols)
  }

  /** The tree tops of the rows of a call, cut from those of its buffer. */
  method FindTops(ghost job: Job, c: Call, s: Scale) returns (tops: seq<seq<bool>>)
    requires job.Valid() && s.Valid() && RightCall(job, c)
    ensures tops == BufferTops(c, s)
  {
    var mask := BufferMask(c, s);
    hide BufferTops, BufferCanopy, RightCall;
    tops := [];
    for i := 0 to |c.part|
      invariant |tops| == i && forall k | 0 <= k < i :: tops[k] == BufferTops(c, s)[k]
    {
      RowOfMask(job, c, s, i, mask);
      var start := (c.from + i - c.first) * s.cols;
      tops := tops + [mask[start..start + s.cols]];
    }
  }

  /** The mask of the tree tops of a buffer. */
  ghost predicate IsMask(c: Call, s: Scale, mask: seq<bool>)
    requires s.Valid()
  {
    var canopy := BufferCanopy(c, s);
    |mask| == canopy.Size() && forall p | 0 <= p < |mask| :: mask[p] <==> canopy.Top(p)
  }

  method BufferMask(c: Call, s: Scale) returns (mask: seq<bool>)
    requires s.Valid()
    ensures IsMask(c, s, mask)
  {
    hide C.Canopy.Top, CanopyWindow.Smooth;
    var canopy := BufferCanopy(c, s);
    var offsets := CrownTops.Offsets(canopy);
    var tops := CrownTops.Tops(canopy, offsets);
    mask := tops[..];
  }

  /** The row of a call lies in the mask of its buffer. */
  lemma RowOfMask(job: Job, c: Call, s: Scale, i: int, mask: seq<bool>)
    requires job.Valid() && s.Valid() && RightCall(job, c) && 0 <= i < |c.part| && IsMask(c, s, mask)
    ensures var start := (c.from + i - c.first) * s.cols;
      0 <= start && start + s.cols <= |mask| && mask[start..start + s.cols] == BufferTops(c, s)[i]
  {
    HandedPixel(job, c, s, c.from + i, 0);
    HandedPixel(job, c, s, c.from + i, s.cols - 1);
    CanopiesValid(job, c, s);
    hide BufferCanopy, C.Canopy.Top;
    var start := (c.from + i - c.first) * s.cols;
    var row := BufferTops(c, s)[i];
    forall j | 0 <= j < s.cols
      ensures mask[start + j] == row[j]
    {
    }
  }

  method CallTops(ghost job: Job, c: Call, scale: Option<Scale>) returns (tops: seq<seq<bool>>)
    requires job.Valid() && RightMargin(job, scale) && RightCall(job, c)
    ensures tops == GivenTops(c, scale)
  {
    if scale.Some? {
      tops := FindTops(job, c, scale.value);
    } else {
      tops := seq(|c.part|, i requires 0 <= i < |c.part| => NoTops(c.part[i]));
    }
  }

  lemma CallFits(job: Job, cellsOf: int -> seq<int>, scale: Option<Scale>, cells: int, calls: seq<Call>, k: nat)
    requires RightRun(job, calls, job.end) && k < |calls| && RightMargin(job, scale)
    requires RightRows(job, cellsOf, scale, cells)
    ensures RightCall(job, calls[k]) && Shaped(cellsOf, cells, calls[k].from, calls[k].part)
    ensures var c := calls[k];
      forall i | 0 <= i < |c.part| :: |GivenTops(c, scale)[i]| == |c.part[i]|
  {
    hide RowShaped, Halo, BufferCanopy;
    RightOrder(job, calls, k);
    CallShaped(job, cellsOf, cells, calls, k);
  }

  /** Hands the calls of a pass on, one by one. */
  method SumCalls(job: Job, calls: seq<Call>, cellsOf: int -> seq<int>, scale: Option<Scale>, cells: nat, tallest: nat)
    returns (sums: Totals)
    requires job.Valid() && RightRun(job, calls, job.end) && RightMargin(job, scale)
    requires RightRows(job, cellsOf, scale, cells)
    ensures sums.Valid() && sums.cells == cells && sums.tallest == tallest
    ensures forall m, k | sums.InRange(m, k) ::
              sums.Value(m, k) == CallsCount(cellsOf, calls, k, TestOf(m, tallest))
    ensures forall k | 0 <= k < cells :: sums.stems[k] == CallsStems(cellsOf, calls, TopsGiven(scale), k)
  {
    ghost var topsOf := TopsGiven(scale);
    NoCalls(cellsOf, calls, topsOf, tallest);
    hide RowCount, Count, TestOf, RightRun, RightRows, Shaped, CallsCount, CallsStems, BlockStems, GivenTops, RightCall;
    sums := new Totals(cells, tallest);
    for i := 0 to |calls|
      invariant sums.Valid() && fresh(sums.pixels) && fresh(sums.crowns) && fresh(sums.stems) && fresh(sums.histogram)
      invariant forall m, k | sums.InRange(m, k) ::
                  sums.Value(m, k) == CallsCount(cellsOf, calls[..i], k, TestOf(m, tallest))
      invariant forall k | 0 <= k < cells :: sums.stems[k] == CallsStems(cellsOf, calls[..i], topsOf, k)
    {
      hide Totals.Value;
      var call := calls[i];
      CallFits(job, cellsOf, scale, cells, calls, i);
      AllCallsSnoc(cellsOf, calls, i, tallest);
      CallsStemsSnoc(cellsOf, calls, i, topsOf);
      var tops := CallTops(job, call, scale);
      sums.Accumulate(cellsOf, call.from, call.part, tops);
    }
    Seqs.Whole(calls);
  }

  /** No call cuts a tree. */
  ghost predicate NoTreesCut(job: Job, calls: seq<Call>, s: Scale)
    requires job.Valid() && s.Valid()
  {
    forall c | c in calls :: NoTreeCut(job, c, s)
  }

  /** The tree tops of a cell of the whole raster. */
  ghost function RasterStems(job: Job, cellsOf: int -> seq<int>, s: Scale, cell: int): nat
    requires job.Valid() && s.Valid()
  {
    Count(cellsOf, job.from, TopsOnly(job, r => RasterTops(job, s, r)).Rows(job.from, job.end), cell, AnyHeight())
  }

  /** The sums of a raster, strip by strip, are those of the whole raster, and so are the tree tops where no
      call cuts a tree; there are none when the raster has no known pixel. */
  method Sums(job: Job, cellsOf: int -> seq<int>, scale: Option<Scale>, cells: nat, tallest: nat)
    returns (seen: bool, sums: Totals)
    requires job.Valid() && NeverShort(job) && RightMargin(job, scale) && RightRows(job, cellsOf, scale, cells)
    ensures sums.Valid() && sums.cells == cells && sums.tallest == tallest
    ensures !seen <==> forall r | job.from <= r < job.end :: !Known(job.raster(r))
    ensures forall m, k | sums.InRange(m, k) ::
              sums.Value(m, k) == Count(cellsOf, job.from, job.Rows(job.from, job.end), k, TestOf(m, tallest))
    ensures scale.Some? && NoTreesCut(job, Process(job, Initial(job), job.from).calls, scale.value) ==>
              forall k | 0 <= k < cells :: sums.stems[k] == RasterStems(job, cellsOf, scale.value, k)
    ensures scale.None? ==> forall k | 0 <= k < cells :: sums.stems[k] == 0
  {
    NeverShortIsRight(job);
    SeenIffKnown(job);
    hide RowCount, Count, TestOf, RightRun, NeverShort, RightRows, CallsCount, CallsStems, Process, GivenTops;
    hide RasterStems, NoTreesCut;
    var calls := Pass(job);
    sums := SumCalls(job, calls, cellsOf, scale, cells, tallest);
    seen := calls != [];
    AllSumsOfPass(job, cellsOf, calls, tallest);
    StemsOfCalls(job, cellsOf, calls, scale);
  }

  lemma StemsOfCalls(job: Job, cellsOf: int -> seq<int>, calls: seq<Call>, scale: Option<Scale>)
    requires job.Valid() && RightRun(job, calls, job.end) && RightMargin(job, scale)
    ensures scale.Some? && NoTreesCut(job, calls, scale.value) ==>
              forall k :: CallsStems(cellsOf, calls, TopsGiven(scale), k) == RasterStems(job, cellsOf, scale.value, k)
    ensures scale.None? ==> forall k :: CallsStems(cellsOf, calls, TopsGiven(scale), k) == 0
  {
    hide Count, RightRun, BufferTops, NoTreeCut, Halo;
    ghost var topsOf := TopsGiven(scale);
    if scale.None? {
      forall k
        ensures CallsStems(cellsOf, calls, topsOf, k) == 0
      {
        NoStems(cellsOf, calls, topsOf, k);
      }
    } else if NoTreesCut(job, calls, scale.value) {
      forall k
        ensures CallsStems(cellsOf, calls, topsOf, k) == RasterStems(job, cellsOf, scale.value, k)
      {
        StemsOfWholeTrees(job, cellsOf, calls, scale.value, topsOf, k);
      }
    }
  }

  lemma {:induction false} NoStems(cellsOf: int -> seq<int>, calls: seq<Call>, topsOf: Call -> seq<seq<bool>>,
                                   cell: int)
    requires forall c :: topsOf(c) == GivenTops(c, None)
    ensures CallsStems(cellsOf, calls, topsOf, cell) == 0
  {
    if calls != [] {
      var n := |calls| - 1;
      NoStems(cellsOf, calls[..n], topsOf, cell);
      NoBlockStems(cellsOf, calls[n].from, calls[n].part, topsOf(calls[n]), cell);
    }
  }

  lemma {:induction false} NoBlockStems(cellsOf: int -> seq<int>, a: int, lines: seq<Line>, tops: seq<seq<bool>>,
                                        cell: int)
    requires forall i, j | 0 <= i < |tops| && 0 <= j < |tops[i]| :: !tops[i][j]
    ensures BlockStems(cellsOf, a, lines, tops, cell) == 0
  {
    if lines != [] {
      var k := |lines| - 1;
      NoBlockStems(cellsOf, a, lines[..k], tops, cell);
      NoRowStems(cellsOf(a + k), lines[k], if k < |tops| then tops[k] else [], cell, |lines[k]|);
    }
  }

  lemma {:induction false} NoRowStems(cells: seq<int>, line: Line, tops: seq<bool>, cell: int, n: nat)
    requires forall j | 0 <= j < |tops| :: !tops[j]
    ensures StemCount(cells, line, tops, cell, n) == 0
  {
    if n > 0 { NoRowStems(cells, line, tops, cell, n - 1); }
  }
}
