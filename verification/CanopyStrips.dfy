/** The strip-wise pass of `canopy_sums`: rows are read block by block, with a context of earlier rows, and
    handed on once the rows after them are read. */
module CanopyStrips {
  import opened Wrappers
  import opened Powers

  /** A row of heights; None is unknown. */
  type Line = seq<Option<real>>

  /** The rows `from` to `end` of a raster, read in blocks, with `margin` rows of context. */
  datatype Job = Job(from: int, end: int, block: int, margin: nat, raster: int -> Line)
  {
    predicate Valid() {
      0 <= from < end && block > 0
    }

    /** The rows a to b of the raster. */
    function Rows(a: int, b: int): (r: seq<Line>)
      ensures |r| == if a <= b then b - a else 0
      ensures forall k | 0 <= k < |r| :: r[k] == raster(a + k)
    {
      if a >= b then [] else seq(b - a, k => raster(a + k))
    }

    /** The next edge of a strip after row e: the next block edge, or the end. */
    function NextEdge(e: int): int
      requires block > 0
    {
      var edge := (e / block + 1) * block;
      if edge < end then edge else end
    }
  }

  // ----- slices as Python takes them

  function SliceIndex(length: nat, i: int): (k: nat)
    ensures k <= length
  {
    if i < 0 then (if length + i < 0 then 0 else length + i) else if i > length then length else i
  }

  function Slice<T>(s: seq<T>, a: int, b: int): seq<T> {
    var i, j := SliceIndex(|s|, a), SliceIndex(|s|, b);
    if i <= j then s[i..j] else []
  }

  // ----- the pass

  /** Rows `from` to `to`, handed on as `part`, with the buffer that starts at row `first`. */
  datatype Call = Call(from: int, to: int, part: seq<Line>, first: int, window: seq<Line>)

  datatype State = State(done: int, context: seq<Line>, calls: seq<Call>)

  predicate Known(line: Line) {
    exists h | h in line :: h.Some?
  }

  predicate AllUnknown(lines: seq<Line>) {
    forall k | 0 <= k < |lines| :: !Known(lines[k])
  }

  /** The rows of a buffer that ends at row `end` that are final. */
  function Final(job: Job, end: int): int {
    if end == job.end then end else end - job.margin
  }

  /** What a buffer hands on: the rows from `done` up to its final row. */
  function CallOn(job: Job, done: int, heights: seq<Line>, end: int): Call {
    var first := end - |heights|;
    Call(done, Final(job, end), Slice(heights, done - first, Final(job, end) - first), first, heights)
  }

  function StepOn(job: Job, st: State, heights: seq<Line>, end: int): State {
    var last := Final(job, end);
    State(if last > st.done then last else st.done, Slice(heights, |heights| - 2 * job.margin, |heights|),
          if last > st.done && !AllUnknown(heights) then st.calls + [CallOn(job, st.done, heights, end)] else st.calls)
  }

  /** The buffer of a strip: the context and the rows of the strip. */
  function Buffer(job: Job, st: State, start: int, end: int): seq<Line> {
    st.context + job.Rows(start, end)
  }

  /** One strip, from row `start` to row `end`. */
  function Step(job: Job, st: State, start: int, end: int): State {
    StepOn(job, st, Buffer(job, st, start, end), end)
  }

  lemma EdgeGrows(job: Job, e: int)
    requires job.Valid() && e < job.end
    ensures e < job.NextEdge(e) <= job.end
  {
    assert e == job.block * (e / job.block) + e % job.block;
    assert (e / job.block + 1) * job.block == job.block * (e / job.block) + job.block;
  }

  function Process(job: Job, st: State, start: int): State
    requires job.Valid()
    decreases job.end - start
  {
    if start >= job.end then st else
      EdgeGrows(job, start);
      Process(job, Step(job, st, start, job.NextEdge(start)), job.NextEdge(start))
  }

  function Initial(job: Job): State {
    State(job.from, [], [])
  }

  /** The calls of a whole pass. */
  method Pass(job: Job) returns (calls: seq<Call>)
    requires job.Valid()
    ensures calls == Process(job, Initial(job), job.from).calls
  {
    hide Step;
    var st, start := Initial(job), job.from;
    while start < job.end
      invariant Process(job, Initial(job), job.from) == Process(job, st, start)
      decreases job.end - start
    {
      EdgeGrows(job, start);
      var end := job.NextEdge(start);
      st := Step(job, st, start, end);
      start := end;
    }
    return st.calls;
  }

  // ----- what a right pass is

  function Max(a: int, b: int): int {
    if a > b then a else b
  }

  function Min(a: int, b: int): int {
    if a < b then a else b
  }

  /** The part is the rows that it stands for, and the buffer holds them with the margin on both sides
      wherever the raster goes on. */
  ghost predicate RightCall(job: Job, c: Call) {
    && job.from <= c.from < c.to <= job.end
    && c.part == job.Rows(c.from, c.to)
    && c.window == job.Rows(c.first, c.first + |c.window|)
    && job.from <= c.first <= Max(job.from, c.from - job.margin)
    && Min(job.end, c.to + job.margin) <= c.first + |c.window| <= job.end
  }

  /** Row r is handed on by a call. */
  predicate Handed(calls: seq<Call>, r: int) {
    exists k | 0 <= k < |calls| :: calls[k].from <= r < calls[k].to
  }

  /** The calls are right, in order, and hand on every row before `done` that has a known pixel. */
  ghost predicate RightRun(job: Job, calls: seq<Call>, done: int) {
    && (forall k | 0 <= k < |calls| :: RightCall(job, calls[k]) && calls[k].to <= done)
    && (forall k, l | 0 <= k < l < |calls| :: calls[k].to <= calls[l].from)
    && (forall r | job.from <= r < done && Known(job.raster(r)) :: Handed(calls, r))
  }

  ghost predicate RightPass(job: Job)
    requires job.Valid()
  {
    RightRun(job, Process(job, Initial(job), job.from).calls, job.end)
  }

  /** A strip edge after which the buffer is more than the margin but less than twice the margin. */
  predicate ShortAt(job: Job, e: int)
    requires job.block > 0
  {
    job.from < e < job.end && e % job.block == 0 && job.margin < e - job.from < 2 * job.margin
  }

  ghost predicate NeverShort(job: Job)
    requires job.block > 0
  {
    forall e :: !ShortAt(job, e)
  }

  // ----- the pass is right when the buffer is never short

  /** The state after a strip that ends at row `start`. */
  ghost predicate InStep(job: Job, st: State, start: int) {
    && st.done == (if start == job.end then job.end else Max(job.from, start - job.margin))
    && (start < job.end ==> st.context == job.Rows(Max(job.from, start - 2 * job.margin), start))
    && RightRun(job, st.calls, st.done)
  }

  lemma RowsJoin(job: Job, a: int, b: int, c: int)
    requires a <= b <= c
    ensures job.Rows(a, b) + job.Rows(b, c) == job.Rows(a, c)
  {
  }

  lemma RowsSlice(job: Job, a: int, b: int, i: int, j: int)
    requires a <= i <= j <= b
    ensures Slice(job.Rows(a, b), i - a, j - a) == job.Rows(i, j)
  {
  }

  /** The slice that keeps the context keeps too little exactly when the buffer is short. */
  lemma ContextKept(job: Job, first: int, end: int)
    requires job.from <= first <= end && (first > job.from ==> end - first >= 2 * job.margin)
    requires !(job.margin < end - job.from < 2 * job.margin)
    ensures var heights := job.Rows(first, end);
      Slice(heights, |heights| - 2 * job.margin, |heights|) == job.Rows(Max(job.from, end - 2 * job.margin), end)
  {
    var heights := job.Rows(first, end);
    if |heights| >= 2 * job.margin {
      RowsSlice(job, first, end, end - 2 * job.margin, end);
    } else {
      assert SliceIndex(|heights|, |heights| - 2 * job.margin) == 0;
      assert heights[0..|heights|] == heights;
    }
  }

  lemma BufferIsRows(job: Job, st: State, start: int, end: int)
    requires job.Valid() && InStep(job, st, start) && job.from <= start < end <= job.end
    ensures Buffer(job, st, start, end) == job.Rows(Max(job.from, start - 2 * job.margin), end)
  {
    RowsJoin(job, Max(job.from, start - 2 * job.margin), start, end);
  }

  /** The call of one strip. */
  lemma StripCall(job: Job, done: int, start: int, end: int)
    requires job.Valid() && job.from <= start < end <= job.end && done == Max(job.from, start - job.margin)
    requires Final(job, end) > done
    ensures RightCall(job, CallOn(job, done, job.Rows(Max(job.from, start - 2 * job.margin), end), end))
  {
    RowsSlice(job, Max(job.from, start - 2 * job.margin), end, done, Final(job, end));
  }

  lemma RightStepOn(job: Job, st: State, heights: seq<Line>, first: int, end: int)
    requires RightRun(job, st.calls, st.done) && first <= st.done && first <= end && heights == job.Rows(first, end)
    requires Final(job, end) > st.done ==> RightCall(job, CallOn(job, st.done, heights, end)) && Final(job, end) <= end
    ensures var next := StepOn(job, st, heights, end); RightRun(job, next.calls, next.done)
  {
    hide RightCall, RightRun, AllUnknown, Slice;
    if Final(job, end) > st.done {
      if AllUnknown(heights) {
        SkippedRows(job, st.calls, st.done, Final(job, end), first, end);
      } else {
        HandedRows(job, st.calls, CallOn(job, st.done, heights, end));
      }
    }
  }

  lemma RightStep(job: Job, st: State, start: int, end: int)
    requires job.Valid() && InStep(job, st, start) && job.from <= start < end <= job.end
    ensures var next := Step(job, st, start, end); RightRun(job, next.calls, next.done)
    ensures Step(job, st, start, end).done == if end == job.end then end else Max(job.from, end - job.margin)
  {
    BufferIsRows(job, st, start, end);
    if Final(job, end) > st.done { StripCall(job, st.done, start, end); }
    hide RightCall, RightRun, AllUnknown, Slice, CallOn;
    var first := Max(job.from, start - 2 * job.margin);
    RightStepOn(job, st, job.Rows(first, end), first, end);
  }

  lemma SkippedRows(job: Job, calls: seq<Call>, done: int, last: int, first: int, end: int)
    requires RightRun(job, calls, done) && first <= done <= last <= end && AllUnknown(job.Rows(first, end))
    ensures RightRun(job, calls, last)
  {
    forall r | done <= r < last
      ensures !Known(job.raster(r))
    {
      assert job.Rows(first, end)[r - first] == job.raster(r);
    }
  }

  lemma HandedRows(job: Job, calls: seq<Call>, c: Call)
    requires RightRun(job, calls, c.from) && RightCall(job, c)
    ensures RightRun(job, calls + [c], c.to)
  {
    var all := calls + [c];
    hide RightCall;
    forall k | 0 <= k < |all|
      ensures RightCall(job, all[k]) && all[k].to <= c.to
    {
      assert c.from <= c.to by { assert RightCall(job, c); RightBounds(job, c); }
    }
    forall r | job.from <= r < c.to && Known(job.raster(r))
      ensures Handed(all, r)
    {
      if r < c.from {
        var k :| 0 <= k < |calls| && calls[k].from <= r < calls[k].to;
        assert all[k] == calls[k];
      } else {
        assert all[|calls|] == c;
      }
    }
  }

  lemma RightBounds(job: Job, c: Call)
    requires RightCall(job, c)
    ensures c.from < c.to
  {
  }

  lemma EdgeIsBlock(job: Job, e: int)
    requires job.Valid() && e < job.end
    ensures job.NextEdge(e) == job.end || job.NextEdge(e) % job.block == 0
  {
    var q := e / job.block + 1;
    assert q * job.block == job.block * q;
    DivUnique(q * job.block, job.block, q, 0);
  }

  lemma StepKeeps(job: Job, st: State, start: int)
    requires job.Valid() && InStep(job, st, start) && job.from <= start < job.end
    requires !ShortAt(job, job.NextEdge(start))
    ensures InStep(job, Step(job, st, start, job.NextEdge(start)), job.NextEdge(start))
  {
    EdgeGrows(job, start);
    EdgeIsBlock(job, start);
    var end, first := job.NextEdge(start), Max(job.from, start - 2 * job.margin);
    RightStep(job, st, start, end);
    BufferIsRows(job, st, start, end);
    if end < job.end { ContextKept(job, first, end); }
    hide RightRun, Slice, AllUnknown;
  }

  lemma {:induction false} ProcessIsRight(job: Job, st: State, start: int)
    requires job.Valid() && InStep(job, st, start) && job.from <= start <= job.end && NeverShort(job)
    ensures RightRun(job, Process(job, st, start).calls, job.end)
    decreases job.end - start
  {
    if start < job.end {
      EdgeGrows(job, start);
      StepKeeps(job, st, start);
      hide InStep, Step, NeverShort, RightRun;
      ProcessIsRight(job, Step(job, st, start, job.NextEdge(start)), job.NextEdge(start));
    }
  }

  lemma StartsInStep(job: Job)
    requires job.Valid()
    ensures InStep(job, Initial(job), job.from)
  {
  }

  // ----- the pass is wrong when the buffer is short

  lemma {:induction false} CallsGrow(job: Job, st: State, start: int)
    requires job.Valid()
    ensures st.calls <= Process(job, st, start).calls
    decreases job.end - start
  {
    if start < job.end {
      EdgeGrows(job, start);
      CallsGrow(job, Step(job, st, start, job.NextEdge(start)), job.NextEdge(start));
    }
  }

  /** The state after a short buffer: rows that are not handed on yet are gone. */
  ghost predicate Lost(job: Job, st: State, start: int) {
    && job.from < start < job.end && job.margin > 0
    && st.done == start - job.margin
    && |st.context| < job.margin && st.context == job.Rows(start - |st.context|, start)
  }

  lemma ShortLoses(job: Job, st: State, start: int)
    requires job.Valid() && InStep(job, st, start) && job.from <= start < job.end
    requires ShortAt(job, job.NextEdge(start))
    ensures Lost(job, Step(job, st, start, job.NextEdge(start)), job.NextEdge(start))
  {
    hide RightRun, AllUnknown, CallOn, Slice, Buffer;
    EdgeGrows(job, start);
    var end := job.NextEdge(start);
    RightStep(job, st, start, end);
    BufferIsRows(job, st, start, end);
    ShortSlice(job, end);
    StepContext(job, st, start, end);
    hide Step, InStep;
  }

  lemma StepContext(job: Job, st: State, start: int, end: int)
    ensures var heights := Buffer(job, st, start, end);
      Step(job, st, start, end).context == Slice(heights, |heights| - 2 * job.margin, |heights|)
  {
    hide AllUnknown, CallOn, Slice, Buffer;
  }

  lemma ShortSlice(job: Job, end: int)
    requires job.margin < end - job.from < 2 * job.margin
    ensures var heights := job.Rows(job.from, end); var kept := Slice(heights, |heights| - 2 * job.margin, |heights|);
      |kept| < job.margin && kept == job.Rows(end - |kept|, end)
  {
  }

  /** Every row is known and differs from every other. */
  ghost predicate Distinct(job: Job) {
    && (forall r :: Known(job.raster(r)))
    && (forall r, s | r != s :: job.raster(r) != job.raster(s))
  }

  /** A slice that starts before the buffer does not give the rows that it stands for. */
  lemma SliceIsWrong(job: Job, first: int, end: int, done: int, last: int)
    requires Distinct(job) && done < first < end && done < last <= end
    ensures Slice(job.Rows(first, end), done - first, last - first) != job.Rows(done, last)
  {
    var heights := job.Rows(first, end);
    var part := Slice(heights, done - first, last - first);
    if |part| == last - done {
      var i := SliceIndex(|heights|, done - first);
      assert part[0] == heights[i] == job.raster(first + i);
      assert first + i != done;
    }
  }

  lemma LostCallIsWrong(job: Job, st: State, start: int)
    requires job.Valid() && Lost(job, st, start) && Distinct(job)
    ensures var calls := Step(job, st, start, job.NextEdge(start)).calls;
      |calls| > 0 && !RightCall(job, calls[|calls| - 1])
  {
    EdgeGrows(job, start);
    var end := job.NextEdge(start);
    var first := start - |st.context|;
    RowsJoin(job, first, start, end);
    RowKnown(job, first, end);
    SliceIsWrong(job, first, end, st.done, Final(job, end));
    hide AllUnknown, Slice, Distinct;
  }

  lemma RowKnown(job: Job, first: int, end: int)
    requires Distinct(job) && first < end
    ensures !AllUnknown(job.Rows(first, end))
  {
    assert job.Rows(first, end)[0] == job.raster(first);
    assert Known(job.raster(first));
  }

  lemma {:induction false} ShortFails(job: Job, st: State, start: int, e: int)
    requires job.Valid() && InStep(job, st, start) && job.from <= start < e
    requires ShortAt(job, e) && Distinct(job)
    ensures !RightRun(job, Process(job, st, start).calls, job.end)
    decreases job.end - start
  {
    EdgeGrows(job, start);
    EdgeBefore(job, start, e);
    hide InStep, Step, RightRun, Distinct;
    var end := job.NextEdge(start);
    var next := Step(job, st, start, end);
    if ShortAt(job, end) {
      ShortLoses(job, st, start);
      LostFails(job, next, end);
    } else {
      StepKeeps(job, st, start);
      ShortFails(job, next, end, e);
    }
  }

  /** The next edge is not past a block edge. */
  lemma EdgeBefore(job: Job, start: int, e: int)
    requires job.Valid() && start < e < job.end && e % job.block == 0
    ensures job.NextEdge(start) <= e
  {
    var q, k := start / job.block, e / job.block;
    MulLess(job.block, q, k, start, e);
  }

  lemma MulLess(block: int, q: int, k: int, start: int, e: int)
    requires block > 0 && e == block * k && block * q <= start < e
    ensures (q + 1) * block <= e
  {
    MulSign(block, q - k + 1);
    assert block * (q - k) == block * q - block * k;
    assert block * (k - q - 1) == block * k - block * q - block;
    MulSign(block, k - q - 1);
  }

  lemma LostFails(job: Job, st: State, start: int)
    requires job.Valid() && Lost(job, st, start) && Distinct(job)
    ensures !RightRun(job, Process(job, st, start).calls, job.end)
  {
    EdgeGrows(job, start);
    LostCallIsWrong(job, st, start);
    var end := job.NextEdge(start);
    var next := Step(job, st, start, end);
    CallsGrow(job, next, end);
    hide Step, RightCall;
    var k := |next.calls| - 1;
    assert Process(job, st, start).calls[k] == next.calls[k];
  }

  // ----- the exact condition

  /** The job over a raster of one pixel a row, whose height is the row. */
  function Numbered(job: Job): Job {
    job.(raster := r => [Some(r as real)])
  }

  lemma NumberedIsDistinct(job: Job)
    ensures Distinct(Numbered(job))
  {
    var j := Numbered(job);
    forall r
      ensures Known(j.raster(r)) && j.raster(r)[0] == Some(r as real)
    {
      assert Some(r as real) in j.raster(r);
    }
  }

  /** A pass over any raster hands on every row with a known pixel exactly once, in order and with its
      margin, exactly when no strip edge leaves a short buffer. */
  lemma RightIffNeverShort(job: Job)
    requires job.Valid()
    ensures NeverShort(job) <==> forall raster :: RightPass(job.(raster := raster))
  {
    if NeverShort(job) {
      forall raster
        ensures RightPass(job.(raster := raster))
      {
        var j := job.(raster := raster);
        assert NeverShort(j) by {
          forall e
            ensures !ShortAt(j, e)
          {
            assert !ShortAt(job, e);
          }
        }
        StartsInStep(j);
        ProcessIsRight(j, Initial(j), j.from);
      }
    } else {
      var e :| ShortAt(job, e);
      var j := Numbered(job);
      NumberedIsDistinct(job);
      assert ShortAt(j, e);
      StartsInStep(j);
      ShortFails(j, Initial(j), j.from, e);
      assert !RightPass(job.(raster := j.raster));
    }
  }

  /** Rows from 240 on, in blocks of 256 rows with a margin of 9: the first edge leaves a buffer of 16 rows. */
  function ShortJobOver(raster: int -> Line): Job {
    Job(240, 512, 256, 9, raster)
  }

  lemma ShortJob(raster: int -> Line)
    ensures var job := ShortJobOver(raster);
      job.Valid() && ShortAt(job, 256) && exists other :: !RightPass(job.(raster := other))
  {
    var job := ShortJobOver(raster);
    assert ShortAt(job, 256);
    RightIffNeverShort(job);
    hide RightPass;
  }

  /** The state after the first strip: the slice kept 2 rows where 9 are not handed on yet. */
  lemma ShortFirst(raster: int -> Line)
    ensures var job := ShortJobOver(raster);
      var st := Step(job, Initial(job), 240, 256);
      st.done == 247 && st.context == job.Rows(254, 256)
  {
    hide AllUnknown, CallOn;
    var job := ShortJobOver(raster);
    assert Buffer(job, Initial(job), 240, 256) == job.Rows(240, 256);
    assert job.Rows(240, 256)[14..16] == job.Rows(254, 256);
  }

  /** Over every raster of known rows, the second call stands for rows 247 to 512 and hands on 7 rows, those
      from row 505 on. */
  lemma ShortHandsOn(raster: int -> Line)
    requires forall r :: Known(raster(r))
    ensures var job := ShortJobOver(raster);
      var calls := Process(job, Initial(job), job.from).calls;
      |calls| > 0 && var c := calls[|calls| - 1]; c.from == 247 && c.to == 512 && c.part == job.Rows(505, 512)
  {
    var job := ShortJobOver(raster);
    var first := Step(job, Initial(job), 240, 256);
    ShortFirst(raster);
    var heights := job.Rows(254, 512);
    assert Buffer(job, first, 256, 512) == heights by { RowsJoin(job, 254, 256, 512); }
    assert heights[251..258] == job.Rows(505, 512);
    assert !AllUnknown(heights) by { assert Known(heights[0]); }
    assert Slice(heights, 247 - 254, 512 - 254) == job.Rows(505, 512);
    hide Slice, AllUnknown, Known;
    var second := Step(job, first, 256, 512);
    TwoStrips(raster);
  }

  lemma TwoStrips(raster: int -> Line)
    ensures var job := ShortJobOver(raster);
      Process(job, Initial(job), job.from) == Step(job, Step(job, Initial(job), 240, 256), 256, 512)
  {
    hide Step;
    var job := ShortJobOver(raster);
    assert job.NextEdge(240) == 256 && job.NextEdge(256) == 512;
    var first := Step(job, Initial(job), 240, 256);
    assert Process(job, Initial(job), 240) == Process(job, first, 256);
    var second := Step(job, first, 256, 512);
    assert Process(job, first, 256) == Process(job, second, 512);
    assert Process(job, second, 512) == second;
  }
}
