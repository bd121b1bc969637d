/** `accumulate`, and the sums of a strip-wise pass against those of the whole raster. */
module CanopySums {
  import opened Seqs
  import opened CanopyStrips

  type Test = real -> bool

  const CANOPY_M := 3.0

  // ----- counts

  predicate Counts(cells: seq<int>, line: Line, c: int, cell: int, test: Test) {
    0 <= c < |cells| && c < |line| && cells[c] == cell && line[c].Some? && test(line[c].value)
  }

  /** The pixels of a cell among the first n of a row whose height passes a test. */
  function RowCount(cells: seq<int>, line: Line, cell: int, test: Test, n: nat): nat {
    if n == 0 then 0
    else RowCount(cells, line, cell, test, n - 1) + if Counts(cells, line, n - 1, cell, test) then 1 else 0
  }

  /** The same over the rows from row a on. `cells` gives the cell of each pixel of a raster row. */
  function Count(cells: int -> seq<int>, a: int, lines: seq<Line>, cell: int, test: Test): nat {
    if lines == [] then 0 else
      var k := |lines| - 1;
      Count(cells, a, lines[..k], cell, test) + RowCount(cells(a + k), lines[k], cell, test, |lines[k]|)
  }

  function CallsCount(cells: int -> seq<int>, calls: seq<Call>, cell: int, test: Test): nat {
    if calls == [] then 0 else
      var k := |calls| - 1;
      CallsCount(cells, calls[..k], cell, test) + Count(cells, calls[k].from, calls[k].part, cell, test)
  }

  // ----- the pass counts each pixel once

  /** The count of the raster rows a to b. */
  ghost function Whole(job: Job, cells: int -> seq<int>, a: int, b: int, cell: int, test: Test): nat {
    Count(cells, a, job.Rows(a, b), cell, test)
  }

  lemma WholeSnoc(job: Job, cells: int -> seq<int>, a: int, b: int, cell: int, test: Test)
    requires a <= b
    ensures Whole(job, cells, a, b + 1, cell, test)
         == Whole(job, cells, a, b, cell, test) + RowCount(cells(b), job.raster(b), cell, test, |job.raster(b)|)
  {
    var lines := job.Rows(a, b + 1);
    assert lines[..b - a] == job.Rows(a, b);
  }

  lemma {:induction false} WholeJoin(job: Job, cells: int -> seq<int>, a: int, b: int, c: int, cell: int, test: Test)
    requires a <= b <= c
    ensures Whole(job, cells, a, c, cell, test)
         == Whole(job, cells, a, b, cell, test) + Whole(job, cells, b, c, cell, test)
    decreases c - b
  {
    hide RowCount;
    if b < c {
      WholeJoin(job, cells, a, b, c - 1, cell, test);
      WholeSnoc(job, cells, a, c - 1, cell, test);
      WholeSnoc(job, cells, b, c - 1, cell, test);
    }
  }

  lemma {:induction false} UnknownRow(cells: seq<int>, line: Line, cell: int, test: Test, n: nat)
    requires !Known(line)
    ensures RowCount(cells, line, cell, test, n) == 0
  {
    if n > 0 {
      UnknownRow(cells, line, cell, test, n - 1);
      assert n - 1 < |line| ==> line[n - 1] in line;
    }
  }

  lemma {:induction false} UnknownRows(job: Job, cells: int -> seq<int>, a: int, b: int, cell: int, test: Test)
    requires a <= b && forall r | a <= r < b :: !Known(job.raster(r))
    ensures Whole(job, cells, a, b, cell, test) == 0
    decreases b - a
  {
    if a < b {
      UnknownRows(job, cells, a, b - 1, cell, test);
      WholeSnoc(job, cells, a, b - 1, cell, test);
      UnknownRow(cells(b - 1), job.raster(b - 1), cell, test, |job.raster(b - 1)|);
    }
  }

  /** The row where the first k calls end. */
  function Reached(job: Job, calls: seq<Call>, k: nat): int
    requires k <= |calls|
  {
    if k == 0 then job.from else calls[k - 1].to
  }

  /** The rows between two calls are unknown. */
  lemma GapIsUnknown(job: Job, calls: seq<Call>, k: nat, r: int)
    requires RightRun(job, calls, job.end) && k <= |calls|
    requires job.from <= Reached(job, calls, k) <= r < (if k < |calls| then calls[k].from else job.end)
    ensures !Known(job.raster(r))
  {
    hide RightCall;
    forall j | 0 <= j < |calls|
      ensures !(calls[j].from <= r < calls[j].to)
    {
      if j < k - 1 { assert calls[j].to <= calls[k - 1].from; RightOrder(job, calls, k - 1); }
      if k < j { assert calls[k].to <= calls[j].from; RightOrder(job, calls, k); }
    }
    if k < |calls| { RightOrder(job, calls, k); }
    assert !Handed(calls, r);
  }

  lemma RightOrder(job: Job, calls: seq<Call>, k: nat)
    requires RightRun(job, calls, job.end) && k < |calls|
    ensures job.from <= calls[k].from < calls[k].to <= job.end
    ensures calls[k].part == job.Rows(calls[k].from, calls[k].to)
  {
    assert RightCall(job, calls[k]);
  }

  lemma ReachedInOrder(job: Job, calls: seq<Call>, k: nat)
    requires RightRun(job, calls, job.end) && k <= |calls|
    ensures job.from <= Reached(job, calls, k) <= Max(job.from, job.end)
    ensures k < |calls| ==> Reached(job, calls, k) <= calls[k].from
  {
    if k > 0 { RightOrder(job, calls, k - 1); }
    if k < |calls| { RightOrder(job, calls, k); }
  }

  lemma {:induction false} CountedSoFar(job: Job, cells: int -> seq<int>, calls: seq<Call>, k: nat, cell: int,
                                        test: Test)
    requires RightRun(job, calls, job.end) && k <= |calls|
    ensures CallsCount(cells, calls[..k], cell, test) == Whole(job, cells, job.from, Reached(job, calls, k), cell, test)
  {
    hide RightRun, Count;
    if k == 0 {
      assert calls[..0] == [];
      NoRows(job, cells, job.from, cell, test);
    } else {
      CountedSoFar(job, cells, calls, k - 1, cell, test);
      Snoc(calls, k);
      CallsSnoc(cells, calls[..k - 1], calls[k - 1], cell, test);
      CallFills(job, cells, calls, k - 1, cell, test);
    }
  }

  lemma NoRows(job: Job, cells: int -> seq<int>, a: int, cell: int, test: Test)
    ensures Whole(job, cells, a, a, cell, test) == 0
  {
  }

  lemma CallsSnoc(cells: int -> seq<int>, calls: seq<Call>, c: Call, cell: int, test: Test)
    ensures CallsCount(cells, calls + [c], cell, test)
         == CallsCount(cells, calls, cell, test) + Count(cells, c.from, c.part, cell, test)
  {
    TakeAppended(calls, c);
  }

  /** A call adds its rows, and the gap before it adds nothing. */
  lemma CallFills(job: Job, cells: int -> seq<int>, calls: seq<Call>, k: nat, cell: int, test: Test)
    requires RightRun(job, calls, job.end) && k < |calls|
    ensures Whole(job, cells, job.from, Reached(job, calls, k), cell, test)
            + Count(cells, calls[k].from, calls[k].part, cell, test)
         == Whole(job, cells, job.from, calls[k].to, cell, test)
  {
    var a, b, c := Reached(job, calls, k), calls[k].from, calls[k].to;
    ReachedInOrder(job, calls, k);
    RightOrder(job, calls, k);
    forall r | a <= r < b
      ensures !Known(job.raster(r))
    {
      GapIsUnknown(job, calls, k, r);
    }
    hide RightRun, Count;
    UnknownRows(job, cells, a, b, cell, test);
    WholeJoin(job, cells, job.from, a, b, cell, test);
    WholeJoin(job, cells, job.from, b, c, cell, test);
  }

  /** A right pass counts every known pixel of the raster exactly once, for every cell and every test of the
      height: the pixel, crown and histogram sums are those of the whole raster. */
  lemma SumsOfPass(job: Job, cells: int -> seq<int>, calls: seq<Call>, cell: int, test: Test)
    requires job.Valid() && RightRun(job, calls, job.end)
    ensures CallsCount(cells, calls, cell, test) == Count(cells, job.from, job.Rows(job.from, job.end), cell, test)
  {
    var n := |calls|;
    CountedSoFar(job, cells, calls, n, cell, test);
    assert calls[..n] == calls;
    ReachedInOrder(job, calls, n);
    var a := Reached(job, calls, n);
    forall r | a <= r < job.end
      ensures !Known(job.raster(r))
    {
      GapIsUnknown(job, calls, n, r);
    }
    hide RightRun, Count;
    UnknownRows(job, cells, a, job.end, cell, test);
    WholeJoin(job, cells, job.from, a, job.end, cell, test);
  }

  /** Every call looks at a known pixel. */
  ghost predicate LookAtKnown(calls: seq<Call>) {
    forall k | 0 <= k < |calls| :: !AllUnknown(calls[k].window)
  }

  lemma {:induction false} CallsLookAtKnown(job: Job, st: State, start: int)
    requires job.Valid() && LookAtKnown(st.calls)
    ensures LookAtKnown(Process(job, st, start).calls)
    decreases job.end - start
  {
    hide AllUnknown, Slice, Final;
    if start < job.end {
      EdgeGrows(job, start);
      var end := job.NextEdge(start);
      var next := Step(job, st, start, end);
      assert LookAtKnown(next.calls);
      CallsLookAtKnown(job, next, end);
    }
  }

  lemma KnownIsHanded(job: Job, calls: seq<Call>, r: int)
    requires RightRun(job, calls, job.end) && job.from <= r < job.end && Known(job.raster(r))
    ensures calls != []
  {
    assert Handed(calls, r);
  }

  lemma CallSawKnown(job: Job, c: Call) returns (r: int)
    requires RightCall(job, c) && !AllUnknown(c.window)
    ensures job.from <= r < job.end && Known(job.raster(r))
  {
    hide Known;
    var k :| 0 <= k < |c.window| && Known(c.window[k]);
    r := c.first + k;
    assert job.Rows(c.first, c.first + |c.window|)[k] == job.raster(r);
  }

  /** No call at all exactly when the raster has no known pixel. */
  lemma SeenIffKnown(job: Job)
    requires job.Valid() && RightPass(job)
    ensures Process(job, Initial(job), job.from).calls == [] <==>
            forall r | job.from <= r < job.end :: !Known(job.raster(r))
  {
    hide Process, Known, RightCall, AllUnknown;
    var calls := Process(job, Initial(job), job.from).calls;
    CallsLookAtKnown(job, Initial(job), job.from);
    if calls == [] {
      forall r | job.from <= r < job.end
        ensures !Known(job.raster(r))
      {
        if Known(job.raster(r)) { KnownIsHanded(job, calls, r); }
      }
    } else {
      var r := CallSawKnown(job, calls[0]);
    }
  }

  // ----- accumulate

  /** The histogram column of a height in decimetres; the last column also holds all taller heights. */
  function Bin(height: real, tallest: int): int {
    var dm := (height * 10.0).Floor;
    if dm < tallest then dm else tallest
  }

  function AnyHeight(): Test {
    _ => true
  }

  function IsCanopy(): Test {
    h => h >= CANOPY_M
  }

  function InBin(v: int, tallest: int): Test {
    h => h >= CANOPY_M && Bin(h, tallest) == v
  }

  /** The tree tops of a cell among the first n pixels of a row. */
  function StemCount(cells: seq<int>, line: Line, tops: seq<bool>, cell: int, n: nat): nat {
    if n == 0 then 0
    else StemCount(cells, line, tops, cell, n - 1)
         + if Counts(cells, line, n - 1, cell, AnyHeight()) && n - 1 < |tops| && tops[n - 1] then 1 else 0
  }

  /** The same over the rows from row a on. */
  function BlockStems(cells: int -> seq<int>, a: int, lines: seq<Line>, tops: seq<seq<bool>>, cell: int): nat {
    if lines == [] then 0 else
      var k := |lines| - 1;
      BlockStems(cells, a, lines[..k], tops, cell)
      + StemCount(cells(a + k), lines[k], if k < |tops| then tops[k] else [], cell, |lines[k]|)
  }

  /** The same over the calls of a pass. */
  function CallsStems(cells: int -> seq<int>, calls: seq<Call>, topsOf: Call -> seq<seq<bool>>, cell: int): nat {
    if calls == [] then 0 else
      var c := calls[|calls| - 1];
      CallsStems(cells, calls[..|calls| - 1], topsOf, cell) + BlockStems(cells, c.from, c.part, topsOf(c), cell)
  }

  /** One of the sums of a cell. */
  datatype Measure = Pixels | Crowns | Bins(v: int)

  function TestOf(m: Measure, tallest: int): Test {
    match m
    case Pixels => AnyHeight()
    case Crowns => IsCanopy()
    case Bins(v) => InBin(v, tallest)
  }

  class Totals {
    const cells: nat
    const tallest: nat
    const pixels: array<int>
    const crowns: array<int>
    const stems: array<int>
    const histogram: array2<int>

    ghost predicate Valid()
      reads this
    {
      && pixels.Length == crowns.Length == stems.Length == histogram.Length0 == cells
      && histogram.Length1 == tallest + 1
      && pixels != crowns && pixels != stems && crowns != stems
    }

    predicate InRange(m: Measure, k: int) {
      0 <= k < cells && (m.Bins? ==> 0 <= m.v <= tallest)
    }

    /** A sum of a cell. */
    function Value(m: Measure, k: int): int
      requires Valid() && InRange(m, k)
      reads this, pixels, crowns, histogram
    {
      match m
      case Pixels => pixels[k]
      case Crowns => crowns[k]
      case Bins(v) => histogram[k, v]
    }

    constructor (cells: nat, tallest: nat)
      ensures Valid() && fresh(pixels) && fresh(crowns) && fresh(stems) && fresh(histogram)
      ensures this.cells == cells && this.tallest == tallest
      ensures forall k | 0 <= k < cells :: stems[k] == 0
      ensures forall m, k | InRange(m, k) :: Value(m, k) == 0
    {
      this.cells, this.tallest := cells, tallest;
      pixels := new int[cells](_ => 0);
      crowns := new int[cells](_ => 0);
      stems := new int[cells](_ => 0);
      histogram := new int[cells, tallest + 1]((_, _) => 0);
    }

    /** Adds the pixels of one row to the sums of their cells. */
    method AddRow(row: seq<int>, line: Line, tops: seq<bool>)
      requires Valid() && |row| == |line| == |tops|
      requires forall c | 0 <= c < |row| :: row[c] < cells
      modifies pixels, crowns, stems, histogram
      ensures forall k | 0 <= k < cells :: stems[k] == old(stems[k]) + StemCount(row, line, tops, k, |row|)
      ensures forall m, k | InRange(m, k) ::
                Value(m, k) == old(Value(m, k)) + RowCount(row, line, k, TestOf(m, tallest), |row|)
    {
      for c := 0 to |row|
        invariant forall k | 0 <= k < cells ::
                    && pixels[k] == old(pixels[k]) + RowCount(row, line, k, AnyHeight(), c)
                    && crowns[k] == old(crowns[k]) + RowCount(row, line, k, IsCanopy(), c)
                    && stems[k] == old(stems[k]) + StemCount(row, line, tops, k, c)
        invariant forall k, v | 0 <= k < cells && 0 <= v <= tallest ::
                    histogram[k, v] == old(histogram[k, v]) + RowCount(row, line, k, InBin(v, tallest), c)
      {
        var cell := row[c];
        if cell >= 0 && line[c].Some? {
          var height := line[c].value;
          pixels[cell] := pixels[cell] + 1;
          stems[cell] := stems[cell] + (if tops[c] then 1 else 0);
          if height >= CANOPY_M {
            crowns[cell] := crowns[cell] + 1;
            var v := Bin(height, tallest);
            histogram[cell, v] := histogram[cell, v] + 1;
          }
        }
      }
    }

    /** Adds the rows from raster row a on. */
    method Accumulate(cellsOf: int -> seq<int>, a: int, lines: seq<Line>, tops: seq<seq<bool>>)
      requires Valid() && Shaped(cellsOf, cells, a, lines) && |tops| == |lines|
      requires forall k | 0 <= k < |tops| :: |tops[k]| == |lines[k]|
      modifies pixels, crowns, stems, histogram
      ensures forall k | 0 <= k < cells :: stems[k] == old(stems[k]) + BlockStems(cellsOf, a, lines, tops, k)
      ensures forall m, k | InRange(m, k) ::
                Value(m, k) == old(Value(m, k)) + Count(cellsOf, a, lines, k, TestOf(m, tallest))
    {
      hide RowCount, StemCount, TestOf;
      assert lines[..0] == [];
      for r := 0 to |lines|
        invariant forall k | 0 <= k < cells :: stems[k] == old(stems[k]) + BlockStems(cellsOf, a, lines[..r], tops, k)
        invariant forall m, k | InRange(m, k) ::
                    Value(m, k) == old(Value(m, k)) + Count(cellsOf, a, lines[..r], k, TestOf(m, tallest))
      {
        hide Count, Value, BlockStems;
        AddRow(cellsOf(a + r), lines[r], tops[r]);
        Snoc(lines, r + 1);
        StemsSnoc(cellsOf, a, lines[..r], lines[r], tops);
        AllCountSnoc(cellsOf, a, lines, r, tallest);
      }
      assert lines[..|lines|] == lines;
    }
  }

  lemma StemsSnoc(cells: int -> seq<int>, a: int, lines: seq<Line>, line: Line, tops: seq<seq<bool>>)
    requires |lines| < |tops|
    ensures forall cell ::
              BlockStems(cells, a, lines + [line], tops, cell) == BlockStems(cells, a, lines, tops, cell)
              + StemCount(cells(a + |lines|), line, tops[|lines|], cell, |line|)
  {
    hide StemCount;
    TakeAppended(lines, line);
  }

  lemma CallsStemsSnoc(cells: int -> seq<int>, calls: seq<Call>, i: nat, topsOf: Call -> seq<seq<bool>>)
    requires i < |calls|
    ensures forall cell ::
              CallsStems(cells, calls[..i + 1], topsOf, cell) == CallsStems(cells, calls[..i], topsOf, cell)
              + BlockStems(cells, calls[i].from, calls[i].part, topsOf(calls[i]), cell)
  {
    hide BlockStems;
    Snoc(calls, i + 1);
    TakeAppended(calls[..i], calls[i]);
  }

  lemma AllCountSnoc(cells: int -> seq<int>, a: int, lines: seq<Line>, r: nat, tallest: nat)
    requires r < |lines|
    ensures forall m, k :: Count(cells, a, lines[..r + 1], k, TestOf(m, tallest))
                        == Count(cells, a, lines[..r], k, TestOf(m, tallest))
                           + RowCount(cells(a + r), lines[r], k, TestOf(m, tallest), |lines[r]|)
  {
    hide Count, RowCount, TestOf;
    Snoc(lines, r + 1);
    forall m, k
      ensures Count(cells, a, lines[..r + 1], k, TestOf(m, tallest))
           == Count(cells, a, lines[..r], k, TestOf(m, tallest))
              + RowCount(cells(a + r), lines[r], k, TestOf(m, tallest), |lines[r]|)
    {
      CountSnoc(cells, a, lines[..r], lines[r], k, TestOf(m, tallest));
    }
  }

  lemma CountSnoc(cells: int -> seq<int>, a: int, lines: seq<Line>, line: Line, cell: int, test: Test)
    ensures Count(cells, a, lines + [line], cell, test)
         == Count(cells, a, lines, cell, test) + RowCount(cells(a + |lines|), line, cell, test, |line|)
  {
    hide RowCount;
    TakeAppended(lines, line);
  }

  /** A row of heights has one cell per pixel, each among the cells or none. */
  predicate RowShaped(row: seq<int>, line: Line, cells: int) {
    |row| == |line| && forall c | 0 <= c < |row| :: row[c] < cells
  }

  ghost predicate Shaped(cellsOf: int -> seq<int>, cells: int, a: int, lines: seq<Line>) {
    forall k | 0 <= k < |lines| :: RowShaped(cellsOf(a + k), lines[k], cells)
  }

  lemma CallShaped(job: Job, cellsOf: int -> seq<int>, cells: int, calls: seq<Call>, k: nat)
    requires RightRun(job, calls, job.end) && k < |calls|
    requires forall r | job.from <= r < job.end :: RowShaped(cellsOf(r), job.raster(r), cells)
    ensures Shaped(cellsOf, cells, calls[k].from, calls[k].part)
  {
    hide RowShaped;
    RightOrder(job, calls, k);
  }

  lemma NoCalls(cellsOf: int -> seq<int>, calls: seq<Call>, topsOf: Call -> seq<seq<bool>>, tallest: nat)
    ensures forall k :: CallsStems(cellsOf, calls[..0], topsOf, k) == 0
    ensures forall m, k :: CallsCount(cellsOf, calls[..0], k, TestOf(m, tallest)) == 0
  {
  }

  lemma AllCallsSnoc(cellsOf: int -> seq<int>, calls: seq<Call>, i: nat, tallest: nat)
    requires i < |calls|
    ensures forall m, k :: CallsCount(cellsOf, calls[..i + 1], k, TestOf(m, tallest))
                        == CallsCount(cellsOf, calls[..i], k, TestOf(m, tallest))
                           + Count(cellsOf, calls[i].from, calls[i].part, k, TestOf(m, tallest))
  {
    hide CallsCount, Count, TestOf;
    Snoc(calls, i + 1);
    forall m, k
      ensures CallsCount(cellsOf, calls[..i + 1], k, TestOf(m, tallest))
           == CallsCount(cellsOf, calls[..i], k, TestOf(m, tallest))
              + Count(cellsOf, calls[i].from, calls[i].part, k, TestOf(m, tallest))
    {
      CallsSnoc(cellsOf, calls[..i], calls[i], k, TestOf(m, tallest));
    }
  }

  lemma AllSumsOfPass(job: Job, cellsOf: int -> seq<int>, calls: seq<Call>, tallest: nat)
    requires job.Valid() && RightRun(job, calls, job.end)
    ensures forall m, k :: CallsCount(cellsOf, calls, k, TestOf(m, tallest))
                        == Count(cellsOf, job.from, job.Rows(job.from, job.end), k, TestOf(m, tallest))
  {
    hide CallsCount, Count, TestOf, RightRun;
    forall m, k
      ensures CallsCount(cellsOf, calls, k, TestOf(m, tallest))
           == Count(cellsOf, job.from, job.Rows(job.from, job.end), k, TestOf(m, tallest))
    {
      SumsOfPass(job, cellsOf, calls, k, TestOf(m, tallest));
    }
  }

  lemma NeverShortIsRight(job: Job)
    requires job.Valid() && NeverShort(job)
    ensures RightPass(job)
  {
    StartsInStep(job);
    ProcessIsRight(job, Initial(job), job.from);
  }

  // ----- the columns of the histogram

  /** Below the last, a column holds the heights of one decimetre; the last one holds all from it on. */
  lemma BinMeans(height: real, tallest: nat, v: nat)
    requires height >= 0.0 && v <= tallest
    ensures InBin(v, tallest)(height)
       <==> 3.0 <= height && v as real / 10.0 <= height && (v < tallest ==> height < (v + 1) as real / 10.0)
    ensures IsCanopy()(height) <==> 3.0 <= height
  {
  }
}
