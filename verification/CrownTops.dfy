/** `crown_tops`: the first peak in raster order of each tree, by union-find over the linked peaks. */
module CrownTops {
  import opened Reals
  import opened Canopy
  import opened UnionFind

  datatype Offset = Offset(di: int, dj: int)

  function Norm(o: Offset): int {
    o.di * o.di + o.dj * o.dj
  }

  /** Nearest first. */
  predicate NearestFirst(offsets: seq<Offset>) {
    forall k, l | 0 <= k < l < |offsets| :: Norm(offsets[k]) <= Norm(offsets[l])
  }

  /** The offsets hold every pixel step within the crown of any height. */
  ghost predicate Complete(c: Canopy, offsets: seq<Offset>)
    requires c.Valid()
  {
    forall height, di, dj | c.Within(height, di, dj) && (di != 0 || dj != 0) :: Offset(di, dj) in offsets
  }

  ghost predicate Ready(c: Canopy, offsets: seq<Offset>) {
    c.Valid() && NearestFirst(offsets) && Complete(c, offsets)
  }

  // ----- the pixels that the offsets reach

  /** The pixel at an offset, or -1 outside the raster. */
  function At(c: Canopy, p: int, o: Offset): int
    requires c.Valid()
  {
    var r, s := c.Row(p) + o.di, c.Col(p) + o.dj;
    if c.Inside(r, s) then c.Index(r, s) else -1
  }

  lemma AtPixel(c: Canopy, p: int, o: Offset)
    requires c.Valid() && At(c, p, o) >= 0
    ensures var q := At(c, p, o);
      c.Pixel(q) && c.Row(q) == c.Row(p) + o.di && c.Col(q) == c.Col(p) + o.dj
  {
    var r, s := c.Row(p) + o.di, c.Col(p) + o.dj;
    if c.Inside(r, s) {
      Coordinates(c, r, s);
      InsideIsPixel(c, r, s);
    }
  }

  function Step(c: Canopy, p: int, q: int): Offset
    requires c.Valid()
  {
    Offset(c.Row(q) - c.Row(p), c.Col(q) - c.Col(p))
  }

  lemma AtStep(c: Canopy, p: int, q: int)
    requires c.Valid() && c.Pixel(q)
    ensures At(c, p, Step(c, p, q)) == q
  {
    IndexOfCoordinates(c, q);
    InsideIsPixel(c, c.Row(q), c.Col(q));
  }

  lemma NoStep(c: Canopy, p: int, q: int)
    requires c.Valid() && Step(c, p, q) == Offset(0, 0)
    ensures p == q
  {
    IndexOfCoordinates(c, p);
    IndexOfCoordinates(c, q);
  }

  predicate Reach(c: Canopy, height: real, o: Offset)
    requires c.Valid()
  {
    c.Within(height, o.di, o.dj)
  }

  /** Once an offset is out of reach, so are all after it. */
  lemma OutOfReach(c: Canopy, offsets: seq<Offset>, height: real, k: nat, l: nat)
    requires Ready(c, offsets) && k <= l < |offsets| && !Reach(c, height, offsets[k])
    ensures !Reach(c, height, offsets[l])
  {
    assert k < l ==> Norm(offsets[k]) <= Norm(offsets[l]);
  }

  /** The offset to a near pixel is among the first n, when those are the ones within reach. */
  lemma NearIsReached(c: Canopy, offsets: seq<Offset>, p: int, q: int, n: nat) returns (l: nat)
    requires Ready(c, offsets) && c.Pixel(q) && c.Near(p, q) && p != q
    requires n <= |offsets| && (n < |offsets| ==> !Reach(c, c.Height(p), offsets[n]))
    ensures l < n && offsets[l] == Step(c, p, q) && At(c, p, offsets[l]) == q
  {
    var o := Step(c, p, q);
    if o == Offset(0, 0) { NoStep(c, p, q); }
    assert c.Within(c.Height(p), o.di, o.dj) && o in offsets;
    l :| 0 <= l < |offsets| && offsets[l] == o;
    if l >= n { OutOfReach(c, offsets, c.Height(p), n, l); }
    AtStep(c, p, q);
  }

  // ----- peaks

  /** Whether no pixel within the crown is higher. */
  method NoneHigher(c: Canopy, offsets: seq<Offset>, p: int) returns (peak: bool)
    requires Ready(c, offsets) && c.Pixel(p)
    ensures peak <==> forall q | c.Pixel(q) && c.Near(p, q) :: c.Height(q) <= c.Height(p)
  {
    var height := c.Height(p);
    var k := 0;
    peak := true;
    while k < |offsets| && Reach(c, height, offsets[k])
      invariant 0 <= k <= |offsets|
      invariant forall l | 0 <= l < k :: At(c, p, offsets[l]) >= 0 ==> c.Height(At(c, p, offsets[l])) <= height
    {
      var q := At(c, p, offsets[k]);
      if q >= 0 {
        AtPixel(c, p, offsets[k]);
        if c.Height(q) > height {
          assert c.Near(p, q);
          return false;
        }
      }
      k := k + 1;
    }
    forall q | c.Pixel(q) && c.Near(p, q)
      ensures c.Height(q) <= height
    {
      if q != p {
        var l := NearIsReached(c, offsets, p, q, k);
      }
    }
  }

  /** The parents before any join: each peak its own, -1 elsewhere. */
  ghost predicate Marked(c: Canopy, s: seq<int>, n: int)
    requires c.Valid()
  {
    && |s| == c.Size()
    && forall p | 0 <= p < |s| :: s[p] == if p < n && c.Peak(p) then p else -1
  }

  method MarkPeaks(c: Canopy, offsets: seq<Offset>) returns (parent: array<int>)
    requires Ready(c, offsets)
    ensures fresh(parent) && Marked(c, parent[..], c.Size())
  {
    parent := new int[c.Size()](_ => -1);
    for p := 0 to c.Size()
      invariant Marked(c, parent[..], p)
    {
      var peak := false;
      if c.Height(p) >= c.topM {
        peak := NoneHigher(c, offsets, p);
      }
      if peak { parent[p] := p; }
    }
  }

  // ----- trees

  /** The forest holds the peaks, and each lies in one tree with its root. */
  ghost predicate Grown(c: Canopy, s: seq<int>)
    requires c.Valid()
  {
    && |s| == c.Size() && Forest(s)
    && (forall p | 0 <= p < |s| :: s[p] >= 0 <==> c.Peak(p))
    && (forall p | 0 <= p < |s| && c.Peak(p) :: c.Connected(p, RootOf(s, p)))
  }

  /** Linked peaks before pixel n have one root. */
  ghost predicate Joined(c: Canopy, s: seq<int>, n: int)
    requires c.Valid()
  {
    forall x, y | c.Linked(x, y) && y < x < n :: RootOf(s, x) == RootOf(s, y)
  }

  lemma MarkedIsGrown(c: Canopy, s: seq<int>)
    requires c.Valid() && Marked(c, s, c.Size())
    ensures Grown(c, s) && Joined(c, s, 0)
  {
    forall p | 0 <= p < |s| && c.Peak(p)
      ensures c.Connected(p, RootOf(s, p))
    {
      ConnectedToSelf(c, p);
    }
  }

  /** A join of two linked peaks keeps the trees and every equality of roots. */
  lemma JoinKeepsGrown(c: Canopy, s: seq<int>, t: seq<int>, p: int, q: int)
    requires c.Valid() && Grown(c, s) && Forest(t) && c.Linked(p, q) && IsJoined(s, t, p, q)
    ensures Grown(c, t)
  {
    var a, b := RootOf(s, p), RootOf(s, q);
    RootsConnect(c, s, p, q);
    forall x | 0 <= x < |t| && c.Peak(x)
      ensures c.Connected(x, RootOf(t, x))
    {
      hide RootOf;
      var r := RootOf(s, x);
      assert c.Connected(x, r);
      if r == a { ConnectedIsTransitive(c, x, a, b); }
      if r == b { ConnectedIsTransitive(c, x, b, a); }
    }
  }

  lemma RootsConnect(c: Canopy, s: seq<int>, p: int, q: int)
    requires c.Valid() && Grown(c, s) && c.Linked(p, q)
    ensures c.Connected(RootOf(s, p), RootOf(s, q)) && c.Connected(RootOf(s, q), RootOf(s, p))
  {
    hide RootOf;
    var a, b := RootOf(s, p), RootOf(s, q);
    assert c.Connected(p, a) && c.Connected(q, b);
    LinkedIsConnected(c, p, q);
    ConnectedIsSymmetric(c, p, a);
    ConnectedIsTransitive(c, a, p, q);
    ConnectedIsTransitive(c, a, q, b);
    ConnectedIsSymmetric(c, a, b);
  }

  lemma JoinKeepsEqual(s: seq<int>, t: seq<int>, p: int, q: int, x: int, y: int)
    requires IsJoined(s, t, p, q) && 0 <= x < |s| && 0 <= y < |s|
    ensures RootOf(s, x) == RootOf(s, y) ==> RootOf(t, x) == RootOf(t, y)
  {
    hide RootOf;
  }

  /** The earlier linked peaks that the first k offsets of pixel p reach have its root. */
  ghost predicate Gathered(c: Canopy, offsets: seq<Offset>, s: seq<int>, p: int, k: int)
    requires c.Valid() && k <= |offsets|
  {
    forall l | 0 <= l < k ::
      var q := At(c, p, offsets[l]);
      0 <= q < p && c.Linked(p, q) ==> RootOf(s, p) == RootOf(s, q)
  }

  lemma JoinedKept(c: Canopy, offsets: seq<Offset>, s: seq<int>, t: seq<int>, p: int, q: int, k: int)
    requires c.Valid() && 0 <= k < |offsets| && |s| == c.Size() && c.Pixel(p) && c.Pixel(q)
    requires Joined(c, s, p) && Gathered(c, offsets, s, p, k) && IsJoined(s, t, p, q)
    requires q == At(c, p, offsets[k])
    ensures Joined(c, t, p) && Gathered(c, offsets, t, p, k + 1)
  {
    hide RootOf, IsJoined;
    forall x, y | c.Linked(x, y) && y < x < p
      ensures RootOf(t, x) == RootOf(t, y)
    {
      JoinKeepsEqual(s, t, p, q, x, y);
    }
    forall l | 0 <= l < k + 1
      ensures var y := At(c, p, offsets[l]); 0 <= y < p && c.Linked(p, y) ==> RootOf(t, p) == RootOf(t, y)
    {
      var y := At(c, p, offsets[l]);
      if 0 <= y < p && c.Linked(p, y) {
        if l < k { JoinKeepsEqual(s, t, p, q, p, y); } else { JoinsPair(s, t, p, q); }
      }
    }
  }

  lemma JoinsPair(s: seq<int>, t: seq<int>, p: int, q: int)
    requires IsJoined(s, t, p, q) && 0 <= p < |s| && 0 <= q < |s|
    ensures RootOf(t, p) == RootOf(t, q)
  {
    hide RootOf;
  }

  /** The pixel at an offset that points back comes before, and only then. */
  lemma BackIsBefore(c: Canopy, p: int, o: Offset)
    requires c.Valid() && At(c, p, o) >= 0
    ensures At(c, p, o) < p <==> o.di < 0 || (o.di == 0 && o.dj < 0)
  {
    IndexOfCoordinates(c, p);
    RasterOrder(c, c.Row(p), c.Col(p), c.Row(p) + o.di, c.Col(p) + o.dj);
  }

  lemma GatheredAll(c: Canopy, offsets: seq<Offset>, s: seq<int>, p: int, n: nat)
    requires Ready(c, offsets) && c.Pixel(p) && Joined(c, s, p) && n <= |offsets| && Gathered(c, offsets, s, p, n)
    requires n < |offsets| ==> !Reach(c, c.Height(p), offsets[n])
    ensures Joined(c, s, p + 1)
  {
    forall x, y | c.Linked(x, y) && y < x < p + 1
      ensures RootOf(s, x) == RootOf(s, y)
    {
      hide RootOf, NearestFirst, Complete;
      if x == p {
        var l := NearIsReached(c, offsets, p, y, n);
      }
    }
  }

  lemma ReachedIsLinked(c: Canopy, s: seq<int>, p: int, o: Offset, q: int)
    requires c.Valid() && Grown(c, s) && c.Pixel(p) && s[p] >= 0 && Reach(c, c.Height(p), o)
    requires q == At(c, p, o) && c.Pixel(q) && s[q] >= 0 && c.Height(q) == c.Height(p)
    ensures c.Linked(p, q)
  {
    assert c.Peak(p) && c.Peak(q);
    AtPixel(c, p, o);
    hide Grown, At;
  }

  /** Joins peak p with the earlier peaks of its height within its crown. */
  method LinkPixel(c: Canopy, offsets: seq<Offset>, parent: array<int>, p: int)
    requires Ready(c, offsets) && c.Pixel(p) && c.Size() == parent.Length && parent[p] >= 0
    requires Grown(c, parent[..]) && Joined(c, parent[..], p)
    modifies parent
    ensures Grown(c, parent[..]) && Joined(c, parent[..], p + 1)
  {
    hide RootOf, NearestFirst, Complete, IsJoined, At, Joined, Gathered;
    var k := 0;
    GatheredNone(c, offsets, parent[..], p);
    while k < |offsets| && Reach(c, c.Height(p), offsets[k])
      invariant 0 <= k <= |offsets|
      invariant Grown(c, parent[..]) && Joined(c, parent[..], p) && Gathered(c, offsets, parent[..], p, k)
      invariant parent[p] >= 0
    {
      var o := offsets[k];
      var q := At(c, p, o);
      ghost var s := parent[..];
      if q >= 0 {
        AtPixel(c, p, o);
        BackIsBefore(c, p, o);
      }
      if q >= 0 && (o.di < 0 || (o.di == 0 && o.dj < 0)) && parent[q] >= 0 && c.Height(q) == c.Height(p) {
        ReachedIsLinked(c, s, p, o, q);
        Join(parent, p, q);
        JoinKeepsGrown(c, s, parent[..], p, q);
        JoinedKept(c, offsets, s, parent[..], p, q, k);
      } else {
        GatheredSkip(c, offsets, s, p, k);
      }
      k := k + 1;
    }
    GatheredAll(c, offsets, parent[..], p, k);
  }

  lemma GatheredNone(c: Canopy, offsets: seq<Offset>, s: seq<int>, p: int)
    requires c.Valid()
    ensures Gathered(c, offsets, s, p, 0)
  {
  }

  lemma GatheredSkip(c: Canopy, offsets: seq<Offset>, s: seq<int>, p: int, k: int)
    requires c.Valid() && 0 <= k < |offsets| && Grown(c, s) && c.Pixel(p) && Gathered(c, offsets, s, p, k)
    requires var q := At(c, p, offsets[k]); q < 0 || q >= p || (q < |s| && s[q] < 0) || c.Height(q) != c.Height(p)
    ensures Gathered(c, offsets, s, p, k + 1)
  {
    hide RootOf, At;
  }

  /** A peak is its own root exactly when it is the first of its tree. */
  lemma RootIsTop(c: Canopy, s: seq<int>, p: int)
    requires c.Valid() && Grown(c, s) && Joined(c, s, c.Size()) && c.Pixel(p) && c.Peak(p)
    ensures RootOf(s, p) == p <==> c.Top(p)
  {
    RootIsMember(s, p);
    hide RootOf;
    if c.Top(p) { assert c.Connected(p, RootOf(s, p)); }
    if RootOf(s, p) == p {
      forall q | c.Connected(p, q)
        ensures p <= q
      {
        SameRootAlong(c, s, p, q);
      }
    }
  }

  lemma SameRootAlong(c: Canopy, s: seq<int>, p: int, q: int)
    requires c.Valid() && Grown(c, s) && Joined(c, s, c.Size()) && c.Peak(p) && c.Connected(p, q)
    ensures RootOf(s, p) == RootOf(s, q) <= q
  {
    var path :| c.IsPath(path, p, q);
    var f := (x: int) => RootOf(s, x);
    forall x, y | c.Linked(x, y)
      ensures f(x) == f(y)
    {
      hide RootOf;
      LinkedIsSymmetric(c, x, y);
    }
    SameAlongPath(c, f, path, p, q);
    EndIsPeak(c, path, p, q);
    RootIsMember(s, q);
  }

  lemma EndIsPeak(c: Canopy, path: seq<int>, p: int, q: int)
    requires c.Valid() && c.IsPath(path, p, q) && c.Peak(p)
    ensures c.Peak(q)
  {
    if |path| > 1 { assert c.Linked(path[|path| - 2], path[|path| - 1]); }
  }

  /** Joins every pair of linked peaks. */
  method LinkPeaks(c: Canopy, offsets: seq<Offset>) returns (parent: array<int>)
    requires Ready(c, offsets)
    ensures fresh(parent) && Grown(c, parent[..]) && Joined(c, parent[..], c.Size())
  {
    hide NearestFirst, Complete, Marked, RootOf, Joined, Forest;
    parent := MarkPeaks(c, offsets);
    MarkedIsGrown(c, parent[..]);
    for p := 0 to c.Size()
      invariant Grown(c, parent[..]) && Joined(c, parent[..], p)
    {
      if parent[p] >= 0 {
        LinkPixel(c, offsets, parent, p);
      } else {
        JoinedSkip(c, parent[..], p);
      }
    }
  }

  /** The mask of the tree tops: exactly the first peak of each tree in raster order. */
  method Tops(c: Canopy, offsets: seq<Offset>) returns (tops: array<bool>)
    requires Ready(c, offsets)
    ensures tops.Length == c.Size()
    ensures forall p | 0 <= p < c.Size() :: tops[p] <==> c.Top(p)
  {
    var parent := LinkPeaks(c, offsets);
    tops := SelectRoots(c, parent);
  }

  method SelectRoots(c: Canopy, parent: array<int>) returns (tops: array<bool>)
    requires c.Valid() && Grown(c, parent[..]) && Joined(c, parent[..], c.Size())
    modifies parent
    ensures tops.Length == c.Size() && fresh(tops)
    ensures forall p | 0 <= p < c.Size() :: tops[p] <==> c.Top(p)
  {
    hide RootOf, Joined;
    ghost var s := parent[..];
    tops := new bool[c.Size()](_ => false);
    for p := 0 to c.Size()
      invariant Forest(parent[..]) && SameRoots(s, parent[..])
      invariant forall q | 0 <= q < c.Size() :: tops[q] <==> q < p && c.Top(q)
    {
      if parent[p] >= 0 {
        RootIsTop(c, s, p);
        var r := Root(parent, p);
        if r == p { tops[p] := true; }
      }
    }
  }

  lemma JoinedSkip(c: Canopy, s: seq<int>, p: int)
    requires c.Valid() && Grown(c, s) && Joined(c, s, p) && c.Pixel(p) && s[p] < 0
    ensures Joined(c, s, p + 1)
  {
    hide RootOf;
  }

  // ----- the offsets

  /** The pixels that the widest crown reaches. */
  function Widest(pixelM: real): int
    requires pixelM > 0.0
  {
    -(-(4.0 / pixelM)).Floor
  }

  function ReachOf(c: Canopy): int
    requires c.Valid()
  {
    Widest(c.pixelM)
  }

  lemma RadiusBounded(c: Canopy, height: real)
    requires c.Valid()
    ensures 0.0 <= c.CrownRadius(height) <= 4.0 / c.pixelM <= ReachOf(c) as real
  {
    var metres := 0.5 + 0.08 * height;
    var m := if metres < 1.0 then 1.0 else if metres > 4.0 then 4.0 else metres;
    DivideOrdered(m, 4.0, c.pixelM);
    DivideOrdered(0.0, m, c.pixelM);
  }

  lemma SquaresOrdered(x: real, y: real)
    requires 0.0 <= x <= y
    ensures x * x <= y * y
  {
  }

  lemma SquareGrows(a: int, b: int)
    requires a >= 0
    ensures b > a ==> b * b > a * a && (-b) * (-b) == b * b
  {
  }

  lemma SquareBound(d: int, reach: int)
    requires reach >= 0 && d * d <= reach * reach
    ensures -reach <= d <= reach
  {
    SquareGrows(reach, d);
    SquareGrows(reach, -d);
  }

  lemma WithinReach(c: Canopy, height: real, di: int, dj: int)
    requires c.Valid() && c.Within(height, di, dj)
    ensures -ReachOf(c) <= di <= ReachOf(c) && -ReachOf(c) <= dj <= ReachOf(c)
  {
    var reach := ReachOf(c);
    RadiusBounded(c, height);
    SquaresOrdered(c.CrownRadius(height), reach as real);
    assert (di * di + dj * dj) as real <= (reach * reach) as real;
    hide ReachOf;
    assert di * di >= 0 && dj * dj >= 0;
    SquareBound(di, reach);
    SquareBound(dj, reach);
  }

  /** The stable insertion of an offset by its norm. */
  function Insert(offsets: seq<Offset>, o: Offset): (r: seq<Offset>) {
    if offsets == [] || Norm(offsets[|offsets| - 1]) <= Norm(o) then offsets + [o]
    else Insert(offsets[..|offsets| - 1], o) + [offsets[|offsets| - 1]]
  }

  lemma {:induction false} InsertMembers(offsets: seq<Offset>, o: Offset)
    ensures forall x :: x in Insert(offsets, o) <==> x in offsets || x == o
  {
    hide Norm;
    if offsets != [] && Norm(offsets[|offsets| - 1]) > Norm(o) {
      var n := |offsets| - 1;
      InsertMembers(offsets[..n], o);
      assert offsets == offsets[..n] + [offsets[n]];
    }
  }

  lemma {:induction false} InsertSorted(offsets: seq<Offset>, o: Offset)
    requires NearestFirst(offsets)
    ensures NearestFirst(Insert(offsets, o))
  {
    hide Norm;
    if offsets != [] && Norm(offsets[|offsets| - 1]) > Norm(o) {
      var n := |offsets| - 1;
      var front := Insert(offsets[..n], o);
      InsertSorted(offsets[..n], o);
      InsertMembers(offsets[..n], o);
      forall k | 0 <= k < |front|
        ensures Norm(front[k]) <= Norm(offsets[n])
      {
        assert front[k] in front;
      }
    }
  }

  /** Every step up to the reach but none at all, nearest first. */
  method Offsets(c: Canopy) returns (offsets: seq<Offset>)
    requires c.Valid()
    ensures Ready(c, offsets)
    ensures Offset(0, 0) !in offsets
  {
    var reach := ReachOf(c);
    RadiusBounded(c, 0.0);
    offsets := [];
    var di := -reach;
    while di <= reach
      invariant -reach <= di <= reach + 1 && NearestFirst(offsets)
      invariant forall o :: o in offsets <==> o != Offset(0, 0) && -reach <= o.di < di && -reach <= o.dj <= reach
    {
      var dj := -reach;
      while dj <= reach
        invariant -reach <= dj <= reach + 1 && NearestFirst(offsets)
        invariant forall o :: o in offsets <==>
                    o != Offset(0, 0) && -reach <= o.dj <= reach && (-reach <= o.di < di || (o.di == di && o.dj < dj))
      {
        if di != 0 || dj != 0 {
          InsertSorted(offsets, Offset(di, dj));
          InsertMembers(offsets, Offset(di, dj));
          offsets := Insert(offsets, Offset(di, dj));
        }
        dj := dj + 1;
      }
      di := di + 1;
    }
    forall height, di, dj | c.Within(height, di, dj) && (di != 0 || dj != 0)
      ensures Offset(di, dj) in offsets
    {
      WithinReach(c, height, di, dj);
    }
  }
}
