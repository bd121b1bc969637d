/** `simplify`: Douglas-Peucker with a worklist. Exact reals stand for the floats. */
module Simplify {
  import opened Reals

  function Square(v: real): real {
    v * v
  }

  /** The squared distance along one axis from the share t of a step d, for a point e along. */
  function Gap(e: real, d: real, t: real): real {
    Square(e - d * t)
  }

  /** The squared distance of a point from the point a share t along a segment. */
  function DistanceAt(p: Point, a: Point, b: Point, t: real): real {
    Gap(p.x - a.x, b.x - a.x, t) + Gap(p.y - a.y, b.y - a.y, t)
  }

  function Dot(u: real, v: real, dx: real, dy: real): real {
    Times(u, dx) + Times(v, dy)
  }

  function Clamped(dot: real, length: real): (t: real)
    ensures 0.0 <= t <= 1.0
  {
    if length == 0.0 then 0.0 else
      var t := dot / length;
      if t < 0.0 then 0.0 else if t > 1.0 then 1.0 else t
  }

  /** The share of the nearest point of a segment, as the source clamps it. */
  function Share(p: Point, a: Point, b: Point): (t: real)
    ensures 0.0 <= t <= 1.0
  {
    var dx, dy := b.x - a.x, b.y - a.y;
    Clamped(Dot(p.x - a.x, p.y - a.y, dx, dy), Dot(dx, dy, dx, dy))
  }

  function Distance(p: Point, a: Point, b: Point): real {
    DistanceAt(p, a, b, Share(p, a, b))
  }

  /** Within the tolerance of some point of the segment. */
  ghost predicate Close(p: Point, a: Point, b: Point, tolerance: real) {
    exists t: real :: 0.0 <= t <= 1.0 && DistanceAt(p, a, b, t) <= Square(tolerance)
  }

  // ----- the clamped share is the nearest point

  function Change(e: real, d: real, s: real, t: real): real {
    (t - s) * ((t + s) * (d * d) - 2.0 * (e * d))
  }

  function TotalChange(dot: real, length: real, s: real, t: real): real {
    (t - s) * ((t + s) * length - 2.0 * dot)
  }

  /** The change of the squared distance along one axis. */
  lemma AxisChange(e: real, d: real, s: real, t: real)
    ensures Gap(e, d, t) - Gap(e, d, s) == Change(e, d, s, t)
  {
    var p, q, w := e - d * t, e - d * s, t + s;
    SquareChange(p, q);
    assert p - q == d * (s - t) && p + q == 2.0 * e - d * w;
    Rearranged(d, s - t, e, w);
  }

  lemma SquareChange(p: real, q: real)
    ensures Square(p) - Square(q) == (p - q) * (p + q)
  {
  }

  lemma Rearranged(d: real, k: real, e: real, w: real)
    ensures d * k * (2.0 * e - d * w) == (-k) * (w * (d * d) - 2.0 * (e * d))
  {
    assert d * (2.0 * e - d * w) == -(w * (d * d) - 2.0 * (e * d));
    Associated(d, k, 2.0 * e - d * w);
    Associated(k, -1.0, w * (d * d) - 2.0 * (e * d));
  }

  lemma Associated(a: real, b: real, c: real)
    ensures a * b * c == b * (a * c) && a * b * c == a * (b * c)
  {
  }

  lemma SumOfChanges(ex: real, ey: real, dx: real, dy: real, s: real, t: real)
    ensures Change(ex, dx, s, t) + Change(ey, dy, s, t) ==
            TotalChange(Dot(ex, ey, dx, dy), Dot(dx, dy, dx, dy), s, t)
  {
    var k, w, m, n, u, v := t - s, t + s, dx * dx, dy * dy, ex * dx, ey * dy;
    Distributed(k, w * m - 2.0 * u, w * n - 2.0 * v);
    Distributed(w, m, n);
  }

  lemma Distributed(k: real, a: real, b: real)
    ensures k * a + k * b == k * (a + b)
  {
  }

  /** The change of the squared distance between two shares. */
  lemma DistanceChange(p: Point, a: Point, b: Point, s: real, t: real)
    ensures var dx, dy, ex, ey := b.x - a.x, b.y - a.y, p.x - a.x, p.y - a.y;
      DistanceAt(p, a, b, t) - DistanceAt(p, a, b, s) ==
      TotalChange(Dot(ex, ey, dx, dy), Dot(dx, dy, dx, dy), s, t)
  {
    hide Gap, Change, Dot, TotalChange;
    var dx, dy, ex, ey := b.x - a.x, b.y - a.y, p.x - a.x, p.y - a.y;
    AxisChange(ex, dx, s, t);
    AxisChange(ey, dy, s, t);
    SumOfChanges(ex, ey, dx, dy, s, t);
  }

  /** Moving away from the clamped vertex of a parabola makes it no smaller. */
  lemma ChangeSign(l: real, dot: real, s: real, t: real)
    requires l > 0.0 && 0.0 <= t <= 1.0 && s == Clamped(dot, l)
    ensures TotalChange(dot, l, s, t) >= 0.0
  {
    var v := dot / l;
    assert v * l == dot;
    GapSign(s, t, v);
    var g := t + s - 2.0 * v;
    assert (t + s) * l - 2.0 * dot == g * l by { Spread(t + s, v, l); }
    Associated(t - s, g, l);
    NonNegative((t - s) * g, l);
  }

  lemma Spread(w: real, v: real, l: real)
    ensures (w - 2.0 * v) * l == w * l - 2.0 * (v * l)
  {
  }

  lemma NonNegative(a: real, b: real)
    requires a >= 0.0 && b >= 0.0
    ensures a * b >= 0.0
  {
  }

  lemma GapSign(s: real, t: real, v: real)
    requires 0.0 <= t <= 1.0 && s == (if v < 0.0 then 0.0 else if v > 1.0 then 1.0 else v)
    ensures (t - s) * (t + s - 2.0 * v) >= 0.0
  {
    if v < 0.0 {
      NonNegative(t - s, t + s - 2.0 * v);
    } else if v > 1.0 {
      NonNegative(s - t, 2.0 * v - t - s);
    }
  }

  /** No point of the segment is nearer, so the distance is that of the segment. */
  lemma DistanceIsLeast(p: Point, a: Point, b: Point, t: real)
    requires 0.0 <= t <= 1.0
    ensures Distance(p, a, b) <= DistanceAt(p, a, b, t)
  {
    var dx, dy, ex, ey := b.x - a.x, b.y - a.y, p.x - a.x, p.y - a.y;
    var l, dot, s := Dot(dx, dy, dx, dy), Dot(ex, ey, dx, dy), Share(p, a, b);
    DistanceChange(p, a, b, s, t);
    LengthSign(dx, dy, ex, ey);
    hide DistanceAt, Dot, TotalChange;
    if l > 0.0 {
      ChangeSign(l, dot, s, t);
    } else {
      NoLength(s, t);
    }
  }

  lemma NoLength(s: real, t: real)
    ensures TotalChange(0.0, 0.0, s, t) == 0.0
  {
  }

  lemma LengthSign(dx: real, dy: real, ex: real, ey: real)
    ensures Dot(dx, dy, dx, dy) >= 0.0
    ensures Dot(dx, dy, dx, dy) == 0.0 ==> Dot(ex, ey, dx, dy) == 0.0
  {
    if dx != 0.0 || dy != 0.0 { LengthPositive(dx, dy); }
  }

  lemma LengthPositive(dx: real, dy: real)
    requires dx != 0.0 || dy != 0.0
    ensures Dot(dx, dy, dx, dy) > 0.0
  {
    SquareSign(dx);
    SquareSign(dy);
    hide Times;
  }

  lemma SquareSign(d: real)
    ensures Times(d, d) >= 0.0 && (d != 0.0 ==> Times(d, d) > 0.0)
  {
    if d != 0.0 { ProductSign(d, d); }
    hide Times;
  }

  lemma ProductSign(a: real, b: real)
    requires (a > 0.0 && b > 0.0) || (a < 0.0 && b < 0.0)
    ensures Times(a, b) > 0.0
  {
  }

  lemma CloseIffDistance(p: Point, a: Point, b: Point, tolerance: real)
    ensures Close(p, a, b, tolerance) <==> Distance(p, a, b) <= Square(tolerance)
  {
    hide DistanceAt, Square;
    if Close(p, a, b, tolerance) {
      var t: real :| 0.0 <= t <= 1.0 && DistanceAt(p, a, b, t) <= Square(tolerance);
      DistanceIsLeast(p, a, b, t);
    }
  }

  // ----- the worklist

  datatype Span = Span(first: int, last: int)

  /** Two kept points with none kept between. */
  predicate Adjacent(keep: seq<bool>, s: Span) {
    0 <= s.first <= s.last < |keep| && keep[s.first] && keep[s.last]
    && forall i | s.first < i < s.last :: !keep[i]
  }

  /** Every point between is within the tolerance of the segment. */
  ghost predicate Flat(points: seq<Point>, s: Span, tolerance: real) {
    0 <= s.first <= s.last < |points|
    && forall i | s.first < i < s.last :: Close(points[i], points[s.first], points[s.last], tolerance)
  }

  ghost predicate NoRepeats(pending: seq<Span>) {
    forall k, l | 0 <= k < l < |pending| :: pending[k] != pending[l]
  }

  /** The pending spans are adjacent, and every other adjacent span is flat. */
  ghost predicate Working(points: seq<Point>, keep: seq<bool>, pending: seq<Span>, tolerance: real) {
    && |keep| == |points| > 0 && keep[0] && keep[|keep| - 1]
    && NoRepeats(pending)
    && (forall k | 0 <= k < |pending| :: Adjacent(keep, pending[k]))
    && (forall s: Span | Adjacent(keep, s) && s.first < s.last && s !in pending :: Flat(points, s, tolerance))
  }

  /** The spans that a worklist can still give. */
  function Work(pending: seq<Span>): int {
    if pending == [] then 0 else
      var n := |pending| - 1;
      var width := pending[n].last - pending[n].first;
      Work(pending[..n]) + if width <= 0 then 1 else 2 * width - 1
  }

  lemma WorkSnoc(pending: seq<Span>, s: Span)
    ensures Work(pending + [s]) == Work(pending) + if s.last <= s.first then 1 else 2 * (s.last - s.first) - 1
  {
    assert (pending + [s])[..|pending|] == pending;
  }

  lemma {:induction false} WorkBounded(pending: seq<Span>)
    ensures Work(pending) >= |pending|
  {
    if pending != [] { WorkBounded(pending[..|pending| - 1]); }
  }

  /** The span popped is flat. */
  lemma Done(points: seq<Point>, keep: seq<bool>, pending: seq<Span>, s: Span, tolerance: real)
    requires Working(points, keep, pending + [s], tolerance) && Flat(points, s, tolerance)
    ensures Working(points, keep, pending, tolerance)
  {
    hide Flat, Adjacent;
    var all := pending + [s];
    assert forall k | 0 <= k < |pending| :: all[k] == pending[k];
    assert forall x :: x in all <==> x in pending || x == s;
  }

  /** The span popped is split at a point that is kept from now on. */
  lemma Divided(points: seq<Point>, keep: seq<bool>, pending: seq<Span>, s: Span, m: int, tolerance: real)
    requires Working(points, keep, pending + [s], tolerance) && s.first < m < s.last
    ensures 0 <= m < |keep|
    ensures Working(points, keep[m := true], pending + [Span(s.first, m), Span(m, s.last)], tolerance)
  {
    var all := pending + [s];
    assert all[|pending|] == s && Adjacent(keep, s);
    var keep', pending' := keep[m := true], pending + [Span(s.first, m), Span(m, s.last)];
    forall k | 0 <= k < |pending|
      ensures all[k] == pending[k] && pending[k] != s && Adjacent(keep', pending[k])
      ensures pending[k] != Span(s.first, m) && pending[k] != Span(m, s.last)
    {
      assert all[k] != all[|pending|];
      Apart(keep, s, pending[k], m);
    }
    assert Adjacent(keep', Span(s.first, m)) && Adjacent(keep', Span(m, s.last));
    assert pending'[|pending|] == Span(s.first, m) && pending'[|pending| + 1] == Span(m, s.last);
    assert forall k | 0 <= k < |pending| :: pending'[k] == pending[k];
    forall r: Span | Adjacent(keep', r) && r.first < r.last && r !in pending'
      ensures Flat(points, r, tolerance)
    {
      SplitSpan(keep, s, m, r, pending, pending');
    }
  }

  /** Another adjacent span does not reach into a span. */
  lemma Apart(keep: seq<bool>, s: Span, r: Span, m: int)
    requires Adjacent(keep, s) && Adjacent(keep, r) && r != s && s.first < m < s.last
    ensures Adjacent(keep[m := true], r) && r.first != m && r.last != m
  {
    assert !keep[m];
    assert !(r.first < s.first < r.last) && !(r.first < s.last < r.last);
    assert !(s.first < r.first < s.last) && !(s.first < r.last < s.last);
  }

  /** An adjacent span after the split is one of the halves or was adjacent before. */
  lemma SplitSpan(keep: seq<bool>, s: Span, m: int, r: Span, pending: seq<Span>, pending': seq<Span>)
    requires Adjacent(keep, s) && s.first < m < s.last && Adjacent(keep[m := true], r) && r.first < r.last
    requires pending' == pending + [Span(s.first, m), Span(m, s.last)] && r !in pending'
    ensures Adjacent(keep, r) && r != s && r !in pending + [s]
  {
    var halves := [Span(s.first, m), Span(m, s.last)];
    assert Span(s.first, m) in halves && Span(m, s.last) in halves;
    assert r != Span(s.first, m) && r != Span(m, s.last);
    var keep' := keep[m := true];
    assert keep'[s.first] && keep'[s.last] && keep'[m];
    assert !(r.first < m < r.last) && !(r.first < s.first < r.last) && !(r.first < s.last < r.last);
    assert !keep[m];
    forall i | r.first < i < r.last
      ensures !keep[i]
    {
      assert !keep'[i];
    }
  }

  // ----- the recursive definition that the worklist carries out

  /** The squared distance of a point from the segment of a span. */
  function Off(points: seq<Point>, s: Span, i: int): real {
    if 0 <= s.first < |points| && 0 <= s.last < |points| && 0 <= i < |points|
    then Distance(points[i], points[s.first], points[s.last]) else 0.0
  }

  /** The first of the furthest points beyond the limit before an end, or -1. */
  function Furthest(points: seq<Point>, s: Span, end: int, limit: real): int
    decreases end - s.first
  {
    if end <= s.first + 1 then -1 else
      var m := Furthest(points, s, end - 1, limit);
      if Off(points, s, end - 1) > Most(points, s, m, limit) then end - 1 else m
  }

  function Most(points: seq<Point>, s: Span, m: int, limit: real): real {
    if m < 0 then limit else Off(points, s, m)
  }

  lemma {:induction false} FurthestIsFirst(points: seq<Point>, s: Span, end: int, limit: real)
    requires 0 <= s.first
    ensures var m := Furthest(points, s, end, limit);
      && (m == -1 || (s.first < m < end && Off(points, s, m) > limit))
      && (forall i | s.first < i < end :: Off(points, s, i) <= Most(points, s, m, limit))
      && (forall i | s.first < i < m :: Off(points, s, i) < Off(points, s, m))
    decreases end - s.first
  {
    hide Off;
    if end > s.first + 1 { FurthestIsFirst(points, s, end - 1, limit); }
  }

  /** Douglas-Peucker by recursion: whether it keeps a point between the ends of a span. */
  predicate Kept(points: seq<Point>, s: Span, i: int, limit: real)
    decreases s.last - s.first
  {
    var m := Furthest(points, s, s.last, limit);
    s.first < m < s.last
    && (i == m || Kept(points, Span(s.first, m), i, limit) || Kept(points, Span(m, s.last), i, limit))
  }

  predicate KeptIn(points: seq<Point>, pending: seq<Span>, i: int, limit: real) {
    if pending == [] then false else
      var n := |pending| - 1;
      KeptIn(points, pending[..n], i, limit) || Kept(points, pending[n], i, limit)
  }

  lemma KeptInSnoc(points: seq<Point>, pending: seq<Span>, s: Span, i: int, limit: real)
    ensures KeptIn(points, pending + [s], i, limit) <==> KeptIn(points, pending, i, limit) || Kept(points, s, i, limit)
  {
    assert (pending + [s])[..|pending|] == pending;
    hide Kept;
  }

  /** What is kept, now or by the pending spans, is what the recursion keeps. */
  ghost predicate Agrees(points: seq<Point>, keep: seq<bool>, pending: seq<Span>, limit: real) {
    |keep| == |points|
    && forall i | 0 <= i < |keep| ::
      keep[i] || KeptIn(points, pending, i, limit) <==> Wanted(points, i, limit)
  }

  predicate Wanted(points: seq<Point>, i: int, limit: real) {
    i == 0 || i == |points| - 1 || Kept(points, Span(0, |points| - 1), i, limit)
  }

  lemma AgreesDone(points: seq<Point>, keep: seq<bool>, pending: seq<Span>, s: Span, limit: real)
    requires Agrees(points, keep, pending + [s], limit) && Furthest(points, s, s.last, limit) == -1 && 0 <= s.first
    ensures Agrees(points, keep, pending, limit)
  {
    forall i | 0 <= i < |keep|
      ensures KeptIn(points, pending + [s], i, limit) <==> KeptIn(points, pending, i, limit)
    {
      KeptInSnoc(points, pending, s, i, limit);
      assert !Kept(points, s, i, limit);
    }
    hide KeptIn, Wanted, Furthest;
  }

  lemma AgreesDivided(points: seq<Point>, keep: seq<bool>, pending: seq<Span>, s: Span, m: int, limit: real)
    requires Agrees(points, keep, pending + [s], limit) && Furthest(points, s, s.last, limit) == m
    requires 0 <= s.first < m < s.last < |keep|
    ensures Agrees(points, keep[m := true], pending + [Span(s.first, m), Span(m, s.last)], limit)
  {
    var left, right, pending' := Span(s.first, m), Span(m, s.last), pending + [Span(s.first, m), Span(m, s.last)];
    assert pending' == pending + [left] + [right];
    forall i | 0 <= i < |keep|
      ensures KeptIn(points, pending + [s], i, limit) <==> i == m || KeptIn(points, pending', i, limit)
    {
      KeptInSnoc(points, pending, s, i, limit);
      KeptInSnoc(points, pending, left, i, limit);
      KeptInSnoc(points, pending + [left], right, i, limit);
      HalvesKept(points, s, i, m, limit);
      hide KeptIn, Kept, Furthest;
    }
    hide KeptIn, Wanted, Furthest;
  }

  lemma HalvesKept(points: seq<Point>, s: Span, i: int, m: int, limit: real)
    requires Furthest(points, s, s.last, limit) == m && s.first < m < s.last
    ensures Kept(points, s, i, limit) <==>
            i == m || Kept(points, Span(s.first, m), i, limit) || Kept(points, Span(m, s.last), i, limit)
  {
    hide Furthest;
  }

  /** No furthest point beyond the limit means a flat span. */
  lemma FlatWithoutFurthest(points: seq<Point>, s: Span, tolerance: real)
    requires 0 <= s.first <= s.last < |points|
    ensures Furthest(points, s, s.last, Square(tolerance)) == -1 ==> Flat(points, s, tolerance)
  {
    FurthestIsFirst(points, s, s.last, Square(tolerance));
    hide Furthest, Distance, Square;
    forall i | s.first < i < s.last
      ensures Furthest(points, s, s.last, Square(tolerance)) == -1
              ==> Close(points[i], points[s.first], points[s.last], tolerance)
    {
      CloseIffDistance(points[i], points[s.first], points[s.last], tolerance);
      assert Off(points, s, i) <= Most(points, s, Furthest(points, s, s.last, Square(tolerance)), Square(tolerance));
    }
  }

  /** The source's scan of one span. */
  method FindFurthest(points: seq<Point>, s: Span, limit: real) returns (furthest: int)
    requires 0 <= s.first <= s.last < |points|
    ensures furthest == Furthest(points, s, s.last, limit)
    ensures furthest == -1 || s.first < furthest < s.last
  {
    furthest := -1;
    var distance := limit;
    var i := s.first + 1;
    while i < s.last
      invariant s.first < i && (i <= s.last || (i == s.first + 1 && furthest == -1))
      invariant furthest == Furthest(points, s, i, limit) && distance == Most(points, s, furthest, limit)
      invariant furthest == -1 || s.first < furthest < i
    {
      var d := Distance(points[i], points[s.first], points[s.last]);
      assert d == Off(points, s, i);
      if d > distance { furthest, distance := i, d; }
      i := i + 1;
    }
  }

  /** The keep list of the source. Every dropped point is close to the segment between the kept
      points nearest to it, and exactly the points of the recursive definition are kept. */
  method Simplify(points: seq<Point>, tolerance: real) returns (keep: seq<bool>)
    requires points != []
    ensures |keep| == |points| && keep[0] && keep[|keep| - 1]
    ensures forall i | 0 <= i < |keep| :: keep[i] <==> Wanted(points, i, Square(tolerance))
    ensures forall s | Adjacent(keep, s) && s.first < s.last :: Flat(points, s, tolerance)
  {
    var n := |points|;
    keep := seq(n, _ => false);
    keep := keep[0 := true][n - 1 := true];
    var pending := [Span(0, n - 1)];
    var limit := Square(tolerance);
    Started(points, keep, tolerance);
    while pending != []
      invariant Working(points, keep, pending, tolerance)
      invariant Agrees(points, keep, pending, limit)
      decreases Work(pending)
    {
      var top := pending[|pending| - 1];
      ghost var before := pending;
      pending := pending[..|pending| - 1];
      assert before == pending + [top];
      Popped(points, keep, pending, top, tolerance);
      WorkSnoc(pending, top);
      var m := FindFurthest(points, top, limit);
      if m != -1 {
        Divided(points, keep, pending, top, m, tolerance);
        AgreesDivided(points, keep, pending, top, m, limit);
        WorkDivided(pending, top, m);
        keep := keep[m := true];
        pending := pending + [Span(top.first, m), Span(m, top.last)];
      } else {
        FlatWithoutFurthest(points, top, tolerance);
        Done(points, keep, pending, top, tolerance);
        AgreesDone(points, keep, pending, top, limit);
      }
      WorkBounded(pending);
    }
  }

  lemma Popped(points: seq<Point>, keep: seq<bool>, pending: seq<Span>, s: Span, tolerance: real)
    requires Working(points, keep, pending + [s], tolerance)
    ensures 0 <= s.first <= s.last < |points|
  {
    var all := pending + [s];
    assert Adjacent(keep, all[|pending|]);
  }

  lemma WorkDivided(pending: seq<Span>, s: Span, m: int)
    requires s.first < m < s.last
    ensures Work(pending + [Span(s.first, m), Span(m, s.last)]) < Work(pending + [s])
  {
    WorkSnoc(pending, s);
    WorkSnoc(pending, Span(s.first, m));
    WorkSnoc(pending + [Span(s.first, m)], Span(m, s.last));
    assert pending + [Span(s.first, m), Span(m, s.last)] == pending + [Span(s.first, m)] + [Span(m, s.last)];
  }

  lemma Started(points: seq<Point>, keep: seq<bool>, tolerance: real)
    requires |keep| == |points| > 0
    requires forall i | 0 <= i < |keep| :: keep[i] <==> i == 0 || i == |keep| - 1
    ensures Working(points, keep, [Span(0, |points| - 1)], tolerance)
    ensures Agrees(points, keep, [Span(0, |points| - 1)], Square(tolerance))
  {
    StartedAgrees(points, keep, Square(tolerance));
    hide Agrees, Flat, Square;
    var s := Span(0, |points| - 1);
    forall r: Span | Adjacent(keep, r) && r.first < r.last
      ensures r == s
    {
      assert keep[r.first] && keep[r.last];
    }
    assert [s][0] == s;
  }

  lemma StartedAgrees(points: seq<Point>, keep: seq<bool>, limit: real)
    requires |keep| == |points| > 0
    requires forall i | 0 <= i < |keep| :: keep[i] <==> i == 0 || i == |keep| - 1
    ensures Agrees(points, keep, [Span(0, |points| - 1)], limit)
  {
    hide Kept, KeptIn;
    var s := Span(0, |points| - 1);
    assert [] + [s] == [s];
    forall i | 0 <= i < |keep|
      ensures KeptIn(points, [s], i, limit) <==> Kept(points, s, i, limit)
    {
      KeptInSnoc(points, [], s, i, limit);
      NothingKept(points, i, limit);
    }
  }

  lemma NothingKept(points: seq<Point>, i: int, limit: real)
    ensures !KeptIn(points, [], i, limit)
  {
  }
}
