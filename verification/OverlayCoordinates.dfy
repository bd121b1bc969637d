/** The coordinate blobs of the overlay index: a count and zigzag deltas, before the map projection. */
module OverlayCoordinates {
  import opened Wrappers
  import opened Seqs
  import opened Varints
  import opened Protobuf
  import opened VectorLines

  // ----- the format

  /** The deltas of the first n points, longitude and latitude in turn. */
  function Deltas(points: seq<Point>): seq<nat> {
    if points == [] then [] else
      var n := |points| - 1;
      Deltas(points[..n]) + Delta(LastOf(points[..n]), points[n])
  }

  function LastOf(points: seq<Point>): Point {
    if points == [] then Point(0, 0) else points[|points| - 1]
  }

  function Blob(points: seq<Point>): seq<byte> {
    Varint(|points|) + Join(Deltas(points))
  }

  // ----- the reader

  datatype Values = CutShort | Values(values: seq<int>, next: nat)

  /** The first n signed values from a place on. */
  function SignedAt(data: seq<byte>, i: nat, n: nat): (r: Values)
    ensures r.Values? ==> |r.values| == n && r.next >= i
  {
    if n == 0 then Values([], i) else
      match SignedAt(data, i, n - 1)
      case CutShort => CutShort
      case Values(values, j) =>
        match ReadAt(data, j)
        case Failed => CutShort
        case Read(v, next) => Values(values + [Unzigzag(v)], next)
  }

  function Summed(values: seq<int>, n: nat): seq<Point>
    requires 2 * n <= |values|
  {
    if n == 0 then [] else
      var before := Summed(values, n - 1);
      var at := LastOf(before);
      before + [Point(at.x + values[2 * n - 2], at.y + values[2 * n - 1])]
  }

  /** The points of a blob; bytes after them are an error. */
  function PointsOf(data: seq<byte>): Option<seq<Point>> {
    match ReadAt(data, 0)
    case Failed => None
    case Read(count, i) =>
      match SignedAt(data, i, 2 * count)
      case CutShort => None
      case Values(values, next) => if next == |data| then Some(Summed(values, count)) else None
  }

  lemma {:induction false} BrokenStays(data: seq<byte>, i: nat, m: nat, n: nat)
    requires m <= n && SignedAt(data, i, m) == CutShort
    ensures SignedAt(data, i, n) == CutShort
    decreases n
  {
    if m < n { BrokenStays(data, i, m, n - 1); }
  }

  /** The two loops of the source: the values, then their sums. */
  method Coordinates(blob: seq<byte>) returns (r: Option<seq<Point>>)
    ensures r == PointsOf(blob)
  {
    hide Unzigzag, ReadAt;
    var head := ReadVarint(blob, 0);
    if head.Failed? { return None; }
    var count, i := head.value, head.next;
    var values := [];
    for k := 0 to 2 * count
      invariant SignedAt(blob, head.next, k) == Values(values, i)
    {
      var read := ReadVarint(blob, i);
      if read.Failed? {
        BrokenStays(blob, head.next, k + 1, 2 * count);
        return None;
      }
      values := values + [Unzigzag(read.value)];
      i := read.next;
    }
    if i != |blob| { return None; }
    var points := Sums(values, count);
    return Some(points);
  }

  method Sums(values: seq<int>, count: nat) returns (points: seq<Point>)
    requires |values| == 2 * count
    ensures points == Summed(values, count)
  {
    points := [];
    var lon, lat := 0, 0;
    for k := 0 to count
      invariant points == Summed(values, k) && LastOf(points) == Point(lon, lat)
    {
      lon, lat := lon + values[2 * k], lat + values[2 * k + 1];
      points := points + [Point(lon, lat)];
    }
  }

  // ----- the round trip

  function Signed(codes: seq<nat>): (r: seq<int>)
    ensures |r| == |codes|
  {
    seq(|codes|, i requires 0 <= i < |codes| => Unzigzag(codes[i]))
  }

  lemma {:induction false} DeltasLength(points: seq<Point>)
    ensures |Deltas(points)| == 2 * |points|
  {
    if points != [] { DeltasLength(points[..|points| - 1]); }
  }

  lemma {:induction false} JoinAppended(a: seq<nat>, b: seq<nat>)
    ensures Join(a + b) == Join(a) + Join(b)
  {
    hide Varint;
    if a == [] {
      assert a + b == b;
    } else {
      JoinAppended(a[1..], b);
      assert (a + b)[1..] == a[1..] + b;
      Associated(Varint(a[0]), Join(a[1..]), Join(b));
    }
  }

  lemma {:induction false} JoinedAt(data: seq<byte>, i: nat, codes: seq<nat>)
    requires At(data, i, Join(codes))
    ensures SignedAt(data, i, |codes|) == Values(Signed(codes), i + |Join(codes)|)
    decreases |codes|
  {
    hide At, Varint, Join, Unzigzag, ReadAt, Signed, SignedAt;
    if codes == [] {
      NothingJoined(data, i);
    } else {
      var n := |codes| - 1;
      var rest, last := codes[..n], codes[n];
      JoinSnoc(codes);
      SignedSnoc(codes);
      AtParts(data, i, Join(rest), Varint(last));
      JoinedAt(data, i, rest);
      ReadWritten(data, i + |Join(rest)|, last);
      SignedNext(data, i, Signed(rest), i + |Join(rest)|, last, i + |Join(rest)| + |Varint(last)|);
    }
  }

  lemma NothingJoined(data: seq<byte>, i: nat)
    ensures SignedAt(data, i, 0) == Values(Signed([]), i) && Join([]) == []
  {
    assert Signed([]) == [];
  }

  lemma SignedNext(data: seq<byte>, i: nat, values: seq<int>, j: nat, code: nat, next: nat)
    requires SignedAt(data, i, |values|) == Values(values, j) && ReadAt(data, j) == Read(code, next)
    ensures SignedAt(data, i, |values| + 1) == Values(values + [Unzigzag(code)], next)
  {
    hide ReadAt, Unzigzag;
  }

  lemma SignedSnoc(codes: seq<nat>)
    requires codes != []
    ensures var n := |codes| - 1; Signed(codes) == Signed(codes[..n]) + [Unzigzag(codes[n])]
  {
    hide Unzigzag;
  }

  lemma JoinSnoc(codes: seq<nat>)
    requires codes != []
    ensures Join(codes) == Join(codes[..|codes| - 1]) + Varint(codes[|codes| - 1])
  {
    hide Varint;
    var n := |codes| - 1;
    var last := [codes[n]];
    JoinAppended(codes[..n], last);
    Snoc(codes, |codes|);
    Whole(codes);
    assert last[1..] == [] && Varint(last[0]) + [] == Varint(last[0]);
  }

  /** Codes that start with the deltas of some points. */
  predicate Holds(codes: seq<nat>, points: seq<Point>) {
    |Deltas(points)| <= |codes| && codes[..|Deltas(points)|] == Deltas(points)
  }

  lemma {:induction false} SummedDeltas(points: seq<Point>, codes: seq<nat>)
    requires Holds(codes, points)
    ensures 2 * |points| <= |codes| && Summed(Signed(codes), |points|) == points
    decreases |points|
  {
    DeltasLength(points);
    hide Holds, Signed;
    if points != [] {
      HoldsFewer(codes, points);
      SummedDeltas(points[..|points| - 1], codes);
      LastDelta(points, codes);
      Snoc(points, |points|);
      Whole(points);
    }
  }

  lemma HoldsFewer(codes: seq<nat>, points: seq<Point>)
    requires Holds(codes, points) && points != []
    ensures Holds(codes, points[..|points| - 1])
  {
    hide Delta;
    var rest := points[..|points| - 1];
    DeltasLength(points);
    DeltasLength(rest);
    TakeTake(codes, 2 * |rest|, 2 * |points|);
    assert Deltas(points)[..2 * |rest|] == Deltas(rest);
  }

  lemma LastDelta(points: seq<Point>, codes: seq<nat>)
    requires points != [] && Holds(codes, points)
    ensures var n := |points| - 1;
      var from, to := LastOf(points[..n]), points[n];
      && |codes| >= 2 * n + 2
      && Signed(codes)[2 * n] == to.x - from.x && Signed(codes)[2 * n + 1] == to.y - from.y
  {
    var n := |points| - 1;
    var from, to := LastOf(points[..n]), points[n];
    hide Zigzag, Unzigzag;
    DeltasLength(points);
    DeltasLength(points[..n]);
    assert codes[2 * n] == codes[..2 * n + 2][2 * n] && codes[2 * n + 1] == codes[..2 * n + 2][2 * n + 1];
    ZigzagInverts(to.x - from.x, 0);
    ZigzagInverts(to.y - from.y, 0);
  }

  /** Every list of points is read back from its blob. */
  lemma BlobRoundTrip(points: seq<Point>)
    ensures PointsOf(Blob(points)) == Some(points)
  {
    hide At, Varint, Join, Deltas, Summed, Signed, ReadAt, SignedAt;
    var data, head, codes := Blob(points), Varint(|points|), Deltas(points);
    AtAll(data);
    AtParts(data, 0, head, Join(codes));
    ReadWritten(data, 0, |points|);
    JoinedAt(data, |head|, codes);
    DeltasLength(points);
    Whole(codes);
    SummedDeltas(points, codes);
  }
}
