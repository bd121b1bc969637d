/** The parent array of the tree tops: a forest in which no parent is larger than its child, so that the
    root of a tree is its smallest member. -1 marks a pixel outside every tree. */
module UnionFind {

  predicate Forest(s: seq<int>) {
    forall p | 0 <= p < |s| && s[p] >= 0 :: s[p] <= p && s[s[p]] >= 0
  }

  function RootOf(s: seq<int>, p: int): (r: int)
    decreases if p < 0 then 0 else p
  {
    if 0 <= p < |s| && 0 <= s[p] < p then RootOf(s, s[p]) else p
  }

  /** The root of a member is a member, at most as large, and its own parent. */
  lemma {:induction false} RootIsMember(s: seq<int>, p: int)
    requires Forest(s) && 0 <= p < |s| && s[p] >= 0
    ensures 0 <= RootOf(s, p) <= p && s[RootOf(s, p)] == RootOf(s, p)
    decreases p
  {
    if s[p] < p { RootIsMember(s, s[p]); }
  }

  /** Two forests of the same members with the same roots. */
  ghost predicate SameRoots(s: seq<int>, t: seq<int>) {
    && |s| == |t|
    && (forall p | 0 <= p < |s| :: s[p] >= 0 <==> t[p] >= 0)
    && (forall p | 0 <= p < |s| :: RootOf(s, p) == RootOf(t, p))
  }

  /** One step of path halving. */
  function Halved(s: seq<int>, p: int): seq<int>
    requires 0 <= p < |s| && 0 <= s[p] < |s|
  {
    s[p := s[s[p]]]
  }

  lemma {:induction false} HalvedRoot(s: seq<int>, p: int, q: int)
    requires Forest(s) && 0 <= p < |s| && s[p] >= 0 && 0 <= q < |s|
    ensures RootOf(Halved(s, p), q) == RootOf(s, q)
    decreases q
  {
    var t := Halved(s, p);
    if q == p {
      if 0 <= t[p] < p { HalvedRoot(s, p, t[p]); }
    } else if 0 <= s[q] < q {
      HalvedRoot(s, p, s[q]);
    }
  }

  /** Path halving changes no root. */
  lemma HalvedKeepsRoots(s: seq<int>, p: int)
    requires Forest(s) && 0 <= p < |s| && s[p] >= 0
    ensures Forest(Halved(s, p)) && SameRoots(s, Halved(s, p))
  {
    hide RootOf;
    forall q | 0 <= q < |s|
      ensures RootOf(s, q) == RootOf(Halved(s, p), q)
    {
      HalvedRoot(s, p, q);
    }
  }

  method Root(parent: array<int>, start: int) returns (p: int)
    requires Forest(parent[..]) && 0 <= start < parent.Length && parent[start] >= 0
    modifies parent
    ensures Forest(parent[..]) && SameRoots(old(parent[..]), parent[..])
    ensures p == RootOf(old(parent[..]), start)
    ensures 0 <= p <= start && parent[p] == p
  {
    ghost var s := parent[..];
    p := start;
    RootIsMember(s, start);
    while parent[p] != p
      invariant Forest(parent[..]) && SameRoots(s, parent[..])
      invariant 0 <= p <= start && parent[p] >= 0
      invariant RootOf(parent[..], p) == RootOf(s, start)
      decreases p
    {
      ghost var t := parent[..];
      HalvedKeepsRoots(t, p);
      HalvedStep(t, p);
      parent[p] := parent[parent[p]];
      assert parent[..] == Halved(t, p);
      p := parent[p];
    }
  }

  lemma HalvedStep(s: seq<int>, p: int)
    requires Forest(s) && 0 <= p < |s| && 0 <= s[p] && s[p] != p
    ensures var t := Halved(s, p); 0 <= t[p] < p && t[t[p]] >= 0 && RootOf(t, t[p]) == RootOf(t, p)
  {
  }

  /** Joining two roots under the smaller one. */
  lemma {:induction false} JoinedRoot(s: seq<int>, low: int, high: int, q: int)
    requires Forest(s) && 0 <= low <= high < |s| && s[low] == low && s[high] == high && 0 <= q < |s|
    ensures RootOf(s[high := low], q) == if RootOf(s, q) == high then low else RootOf(s, q)
    decreases q
  {
    if q != high && 0 <= s[q] < q { JoinedRoot(s, low, high, s[q]); }
  }

  lemma JoinedForest(s: seq<int>, low: int, high: int)
    requires Forest(s) && 0 <= low <= high < |s| && s[low] == low && s[high] == high
    ensures Forest(s[high := low])
  {
  }

  /** Finds both roots and joins them under the smaller one. */
  method Join(parent: array<int>, p: int, q: int)
    requires Forest(parent[..]) && 0 <= p < parent.Length && 0 <= q < parent.Length
    requires parent[p] >= 0 && parent[q] >= 0
    modifies parent
    ensures Forest(parent[..])
    ensures IsJoined(old(parent[..]), parent[..], p, q)
  {
    ghost var s := parent[..];
    var a := Root(parent, p);
    ghost var t := parent[..];
    var b := Root(parent, q);
    ghost var u := parent[..];
    RootAgain(t, u, a);
    var low, high := if a < b then a else b, if a < b then b else a;
    JoinedForest(u, low, high);
    parent[high] := low;
    assert parent[..] == u[high := low];
    JoinedAll(s, t, u, p, q, low, high);
  }

  /** The two trees have the smaller root, the others keep theirs, and no member comes or goes. */
  ghost predicate IsJoined(s: seq<int>, t: seq<int>, p: int, q: int) {
    var a, b := RootOf(s, p), RootOf(s, q);
    && |s| == |t|
    && (forall x | 0 <= x < |s| :: s[x] >= 0 <==> t[x] >= 0)
    && (forall x | 0 <= x < |s| ::
          RootOf(t, x) == if RootOf(s, x) == a || RootOf(s, x) == b then (if a < b then a else b) else RootOf(s, x))
  }

  lemma RootAgain(t: seq<int>, u: seq<int>, a: int)
    requires Forest(u) && SameRoots(t, u) && 0 <= a < |t| && t[a] == a
    ensures u[a] == a
  {
    RootIsMember(u, a);
  }

  lemma JoinedAll(s: seq<int>, t: seq<int>, u: seq<int>, p: int, q: int, low: int, high: int)
    requires SameRoots(s, t) && SameRoots(t, u) && Forest(u) && 0 <= p < |s| && 0 <= q < |s|
    requires 0 <= low <= high < |u| && u[low] == low && u[high] == high
    requires var a, b := RootOf(s, p), RootOf(t, q); (low == a && high == b) || (low == b && high == a)
    ensures IsJoined(s, u[high := low], p, q)
  {
    hide RootOf;
    forall x | 0 <= x < |s|
      ensures RootOf(s, x) == RootOf(u, x)
      ensures RootOf(u[high := low], x) == if RootOf(u, x) == high then low else RootOf(u, x)
    {
      JoinedRoot(u, low, high, x);
    }
  }
}
