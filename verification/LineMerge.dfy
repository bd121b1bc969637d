/** `merge`: chains of lines, each as long as the nodes on its way have two ends and no more. */
module LineMerge {
  import opened Wrappers
  import opened Seqs
  import opened Reals

  datatype Line = Line(id: int, points: seq<Point>)

  /** A line of the input as a chain uses it, along its points or against them. */
  datatype Piece = Piece(index: int, flipped: bool)

  // ----- lines and nodes

  function Reverse<T>(s: seq<T>): (r: seq<T>)
    ensures |r| == |s|
    ensures forall k | 0 <= k < |s| :: r[k] == s[|s| - 1 - k]
  {
    seq(|s|, k requires 0 <= k < |s| => s[|s| - 1 - k])
  }

  /** Where a line ends: a point, or the one node of all lines without points. */
  type Node = Option<Point>

  function First(points: seq<Point>): Node {
    if points == [] then None else Some(points[0])
  }

  function Last(points: seq<Point>): Node {
    if points == [] then None else Some(points[|points| - 1])
  }

  /** The lines that end at a node, in order; a closed line counts twice. */
  function Ends(lines: seq<Line>, node: Node): (e: seq<int>) {
    if lines == [] then [] else
      var n := |lines| - 1;
      var points := lines[n].points;
      Ends(lines[..n], node) + (if First(points) == node then [n] else []) + (if Last(points) == node then [n] else [])
  }

  predicate EndsAt(lines: seq<Line>, i: int, node: Node) {
    0 <= i < |lines| && (First(lines[i].points) == node || Last(lines[i].points) == node)
  }

  lemma {:induction false} EndsMembers(lines: seq<Line>, node: Node)
    ensures forall i :: i in Ends(lines, node) <==> EndsAt(lines, i, node)
  {
    if lines != [] { EndsMembers(lines[..|lines| - 1], node); }
  }

  /** A closed line fills a node of two ends by itself. */
  lemma {:induction false} ClosedLine(lines: seq<Line>, node: Node, i: int)
    requires 0 <= i < |lines| && First(lines[i].points) == node == Last(lines[i].points)
    ensures |Ends(lines, node)| >= 2
    ensures |Ends(lines, node)| == 2 ==> Ends(lines, node) == [i, i]
  {
    var n := |lines| - 1;
    if i < n { ClosedLine(lines[..n], node, i); }
  }

  /** Lines i and j meet at a node where nothing else ends. */
  predicate Partners(lines: seq<Line>, node: Node, i: int, j: int) {
    i != j && (Ends(lines, node) == [i, j] || Ends(lines, node) == [j, i])
  }

  // ----- pieces and walks

  function Oriented(lines: seq<Line>, p: Piece): seq<Point> {
    if !(0 <= p.index < |lines|) then []
    else if p.flipped then Reverse(lines[p.index].points) else lines[p.index].points
  }

  function Start(lines: seq<Line>, p: Piece): Node {
    First(Oriented(lines, p))
  }

  function End(lines: seq<Line>, p: Piece): Node {
    Last(Oriented(lines, p))
  }

  function Flip(p: Piece): Piece {
    Piece(p.index, !p.flipped)
  }

  lemma FlipSwapsEnds(lines: seq<Line>, p: Piece)
    ensures Start(lines, Flip(p)) == End(lines, p) && End(lines, Flip(p)) == Start(lines, p)
    ensures Oriented(lines, Flip(p)) == Reverse(Oriented(lines, p))
  {
    if 0 <= p.index < |lines| { ReverseEnds(lines[p.index].points); }
    hide Reverse;
  }

  lemma ReverseEnds(s: seq<Point>)
    ensures First(Reverse(s)) == Last(s) && Last(Reverse(s)) == First(s) && Reverse(Reverse(s)) == s
    ensures Reverse<Point>([]) == []
  {
  }

  /** Two pieces that follow each other share a node where exactly two lines end. */
  predicate Meet(lines: seq<Line>, p: Piece, q: Piece) {
    End(lines, p) == Start(lines, q) && |Ends(lines, Start(lines, q))| == 2
  }

  predicate Drawn(lines: seq<Line>, pieces: seq<Piece>) {
    forall k | 0 <= k < |pieces| :: Oriented(lines, pieces[k]) != []
  }

  /** Pieces that meet; a line without points can only be alone. */
  predicate Walk(lines: seq<Line>, pieces: seq<Piece>) {
    && (Drawn(lines, pieces) || (|pieces| == 1 && 0 <= pieces[0].index < |lines|))
    && (forall k | 0 <= k < |pieces| - 1 :: Meet(lines, pieces[k], pieces[k + 1]))
  }

  /** The points of a walk, each shared node once. */
  function Joined(lines: seq<Line>, pieces: seq<Piece>): seq<Point> {
    if pieces == [] then [] else
      var n := |pieces| - 1;
      var points := Oriented(lines, pieces[n]);
      if n == 0 || points == [] then points else Joined(lines, pieces[..n]) + points[1..]
  }

  function PointSum(lines: seq<Line>, pieces: seq<Piece>): int {
    if pieces == [] then 0 else
      var n := |pieces| - 1;
      PointSum(lines, pieces[..n]) + |Oriented(lines, pieces[n])|
  }

  /** A chain has the points of its pieces minus one for each join. */
  lemma {:induction false} JoinedCount(lines: seq<Line>, pieces: seq<Piece>)
    requires Walk(lines, pieces) && pieces != []
    ensures |Joined(lines, pieces)| == PointSum(lines, pieces) - (|pieces| - 1)
  {
    var n := |pieces| - 1;
    if n > 0 { JoinedCount(lines, pieces[..n]); } else { assert pieces[..0] == []; }
  }

  lemma JoinedSnoc(lines: seq<Line>, pieces: seq<Piece>, p: Piece)
    requires pieces != [] && Oriented(lines, p) != []
    ensures Joined(lines, pieces + [p]) == Joined(lines, pieces) + Oriented(lines, p)[1..]
  {
    TakeAppended(pieces, p);
  }

  /** A piece put before a walk: its last point is the first of the walk. */
  lemma {:induction false} JoinedCons(lines: seq<Line>, p: Piece, pieces: seq<Piece>)
    requires Walk(lines, [p] + pieces) && pieces != [] && Oriented(lines, p) != []
    ensures Joined(lines, [p] + pieces) == Oriented(lines, p)[..|Oriented(lines, p)| - 1] + Joined(lines, pieces)
  {
    var all, a, n := [p] + pieces, Oriented(lines, p), |pieces| - 1;
    if n == 0 {
      assert pieces == [pieces[0]] && [p] + pieces == [p, pieces[0]];
      JoinedPair(lines, p, pieces[0]);
    } else {
      var front, last := pieces[..n], pieces[n];
      assert pieces == front + [last] && [p] + pieces == ([p] + front) + [last];
      assert Oriented(lines, all[n + 1]) != [] && all[n + 1] == last;
      WalkPrefix(lines, all, n + 1);
      assert all[..n + 1] == [p] + front;
      hide Oriented, Walk, Joined;
      JoinedCons(lines, p, front);
      JoinedConsSnoc(lines, p, front, last, a[..|a| - 1]);
    }
  }

  lemma JoinedConsSnoc(lines: seq<Line>, p: Piece, front: seq<Piece>, last: Piece, a: seq<Point>)
    requires front != [] && Oriented(lines, last) != [] && Joined(lines, [p] + front) == a + Joined(lines, front)
    ensures Joined(lines, ([p] + front) + [last]) == a + Joined(lines, front + [last])
  {
    hide Oriented, Joined;
    JoinedSnoc(lines, front, last);
    JoinedSnoc(lines, [p] + front, last);
  }

  lemma JoinedPair(lines: seq<Line>, p: Piece, q: Piece)
    requires Walk(lines, [p] + [q])
    ensures Oriented(lines, p) != []
    ensures Joined(lines, [p, q]) == Oriented(lines, p)[..|Oriented(lines, p)| - 1] + Joined(lines, [q])
  {
    var both, a, b := [p] + [q], Oriented(lines, p), Oriented(lines, q);
    assert Oriented(lines, both[0]) != [] && Oriented(lines, both[1]) != [] && Meet(lines, both[0], both[1]);
    JoinedSnoc(lines, [p], q);
    JoinAtNode(a, b);
    assert Joined(lines, [p]) == a && Joined(lines, [q]) == b;
  }

  lemma WalkPrefix(lines: seq<Line>, pieces: seq<Piece>, m: nat)
    requires Walk(lines, pieces) && m <= |pieces|
    ensures Walk(lines, pieces[..m])
  {
  }

  lemma JoinAtNode(a: seq<Point>, b: seq<Point>)
    requires a != [] && b != [] && a[|a| - 1] == b[0]
    ensures a + b[1..] == a[..|a| - 1] + b
  {
    assert b == [b[0]] + b[1..];
    assert a == a[..|a| - 1] + [b[0]];
  }

  lemma WalkCons(lines: seq<Line>, p: Piece, pieces: seq<Piece>)
    requires Walk(lines, pieces) && Drawn(lines, pieces) && Oriented(lines, p) != []
    requires pieces == [] || Meet(lines, p, pieces[0])
    ensures Walk(lines, [p] + pieces) && Drawn(lines, [p] + pieces)
  {
    hide Meet, Oriented;
    var all := [p] + pieces;
    forall k | 0 <= k < |all| - 1
      ensures Meet(lines, all[k], all[k + 1])
    {
      assert k > 0 ==> Meet(lines, pieces[k - 1], pieces[k]);
    }
  }

  lemma WalkSnoc(lines: seq<Line>, pieces: seq<Piece>, p: Piece)
    requires Drawn(lines, pieces) && Walk(lines, pieces) && Oriented(lines, p) != []
    requires pieces == [] || Meet(lines, pieces[|pieces| - 1], p)
    ensures Drawn(lines, pieces + [p]) && Walk(lines, pieces + [p])
  {
    hide Meet, Oriented;
    var all := pieces + [p];
    forall k | 0 <= k < |all| - 1
      ensures Meet(lines, all[k], all[k + 1])
    {
      assert k < |pieces| - 1 ==> Meet(lines, pieces[k], pieces[k + 1]);
    }
  }

  // ----- the walk along one side

  /** The unused lines. */
  function Unused(used: seq<bool>): set<int> {
    set i | 0 <= i < |used| && !used[i]
  }

  function Indices(pieces: seq<Piece>): set<int> {
    set p | p in pieces :: p.index
  }

  /** No line of `own` has a partner outside `own`, but for nodes in `open`. */
  ghost predicate ClosedBut(lines: seq<Line>, own: set<int>, open: set<Node>) {
    forall node, i, j | i in own && Partners(lines, node, i, j) && node !in open :: j in own
  }

  /** The side grows by the unused line at an open node. */
  lemma GrowKeepsClosed(lines: seq<Line>, own: set<int>, open: set<Node>, node: Node, x: int, p: Piece)
    requires ClosedBut(lines, own, open + {node})
    requires |Ends(lines, node)| == 2 && x in own && EndsAt(lines, x, node)
    requires p.index !in own && 0 <= p.index < |lines| && Start(lines, p) == node
    ensures ClosedBut(lines, own + {p.index}, open + {End(lines, p)})
  {
    var y, far := p.index, End(lines, p);
    OtherEnd(lines, p);
    PairAt(lines, node, x, y);
    forall m, i, j | i in own + {y} && Partners(lines, m, i, j) && m !in open + {far}
      ensures j in own + {y}
    {
      if m != node {
        if i == y {
          PartnersEnd(lines, m, i, j);
        }
      }
    }
  }

  lemma PartnersEnd(lines: seq<Line>, node: Node, i: int, j: int)
    requires Partners(lines, node, i, j)
    ensures EndsAt(lines, i, node) && EndsAt(lines, j, node)
  {
    EndsMembers(lines, node);
    assert i in Ends(lines, node) && j in Ends(lines, node);
  }

  lemma OtherEnd(lines: seq<Line>, p: Piece)
    requires 0 <= p.index < |lines|
    ensures Start(lines, p) == First(lines[p.index].points) || Start(lines, p) == Last(lines[p.index].points)
    ensures forall node :: EndsAt(lines, p.index, node) <==> node == Start(lines, p) || node == End(lines, p)
  {
  }

  /** Two different lines that end at a node of two ends are its two ends. */
  lemma PairAt(lines: seq<Line>, node: Node, x: int, y: int)
    requires |Ends(lines, node)| == 2 && x != y && EndsAt(lines, x, node) && EndsAt(lines, y, node)
    ensures Ends(lines, node) == [x, y] || Ends(lines, node) == [y, x]
  {
    EndsMembers(lines, node);
    var e := Ends(lines, node);
    assert x in e && y in e;
    assert e == [e[0], e[1]];
  }

  /** At the end of a side, the node is closed too: its other line is in the chain, since the lines of
      earlier chains have their partners among themselves. */
  lemma StopKeepsClosed(lines: seq<Line>, earlier: set<int>, own: set<int>, open: set<Node>, node: Node)
    requires ClosedBut(lines, own, open + {node}) && ClosedBut(lines, earlier, {}) && earlier !! own
    requires |Ends(lines, node)| != 2 || forall i | i in Ends(lines, node) :: i in earlier + own
    ensures ClosedBut(lines, own, open)
  {
    forall m, i, j | i in own && Partners(lines, m, i, j) && m !in open
      ensures j in own
    {
      if m == node {
        assert j in Ends(lines, node);
        assert Partners(lines, m, j, i);
      }
    }
  }

  ghost predicate Unique(pieces: seq<Piece>) {
    forall k, l | 0 <= k < l < |pieces| :: pieces[k].index != pieces[l].index
  }

  /** The used lines are those of the earlier chains and of this one. */
  ghost predicate Marks(used: seq<bool>, n: int, taken: set<int>) {
    |used| == n && (forall i | 0 <= i < n :: used[i] <==> i in taken) && forall i | i in taken :: 0 <= i < n
  }

  /** A side of a chain: it starts at a node of two ends, if it starts at all. */
  ghost predicate Side(lines: seq<Line>, start: Node, pieces: seq<Piece>) {
    && Drawn(lines, pieces) && Walk(lines, pieces)
    && (pieces != [] ==> Start(lines, pieces[0]) == start && |Ends(lines, start)| == 2)
  }

  /** The first line of a list that is not used yet, or -1. */
  function NextUnused(ends: seq<int>, used: seq<bool>): (i: int)
    ensures i >= 0 ==> i in ends && i < |used| && !used[i]
    ensures i < 0 ==> forall k | k in ends && 0 <= k < |used| :: used[k]
  {
    if ends == [] then -1
    else if 0 <= ends[0] < |used| && !used[ends[0]] then ends[0]
    else NextUnused(ends[1..], used)
  }

  /** The piece of a line that starts at a node. */
  function PieceAt(lines: seq<Line>, i: int, node: Node): Piece
    requires 0 <= i < |lines|
  {
    Piece(i, First(lines[i].points) != node)
  }

  lemma PieceStarts(lines: seq<Line>, i: int, node: Node)
    requires EndsAt(lines, i, node) && node.Some?
    ensures Start(lines, PieceAt(lines, i, node)) == node && Oriented(lines, PieceAt(lines, i, node)) != []
  {
  }

  /** Two lines cannot meet at the node of the lines without points: there each line counts twice. */
  lemma NodeIsPoint(lines: seq<Line>, node: Node, x: int, y: int)
    requires |Ends(lines, node)| == 2 && x != y && EndsAt(lines, x, node) && EndsAt(lines, y, node)
    ensures node.Some?
  {
    if node.None? {
      ClosedLine(lines, node, x);
      PairAt(lines, node, x, y);
    }
  }

  /** What a side has done: its pieces are new, and only its last node is open. */
  ghost predicate Extending(lines: seq<Line>, earlier: set<int>, own: set<int>, open: set<Node>, start: Node,
                            pieces: seq<Piece>, node: Node)
  {
    && Side(lines, start, pieces) && Unique(pieces)
    && node == (if pieces == [] then start else End(lines, pieces[|pieces| - 1]))
    && Indices(pieces) !! own && Indices(pieces) !! earlier
    && ClosedBut(lines, own + Indices(pieces), open + {node})
  }

  lemma IndicesSnoc(pieces: seq<Piece>, p: Piece)
    ensures Indices(pieces + [p]) == Indices(pieces) + {p.index}
  {
    assert forall q :: q in pieces + [p] <==> q in pieces || q == p;
  }

  lemma SideSnoc(lines: seq<Line>, start: Node, pieces: seq<Piece>, node: Node, p: Piece)
    requires Side(lines, start, pieces) && node == (if pieces == [] then start else End(lines, pieces[|pieces| - 1]))
    requires |Ends(lines, node)| == 2 && Start(lines, p) == node && Oriented(lines, p) != []
    ensures Side(lines, start, pieces + [p])
  {
    hide Start, End, Oriented, Ends;
    WalkSnoc(lines, pieces, p);
  }

  lemma UniqueSnoc(pieces: seq<Piece>, p: Piece)
    requires Unique(pieces) && p.index !in Indices(pieces)
    ensures Unique(pieces + [p])
  {
    forall k | 0 <= k < |pieces|
      ensures pieces[k].index != p.index
    {
      assert pieces[k] in pieces;
    }
  }

  lemma ExtendStep(lines: seq<Line>, earlier: set<int>, own: set<int>, open: set<Node>, start: Node,
                   pieces: seq<Piece>, node: Node, x: int, other: int)
    requires Extending(lines, earlier, own, open, start, pieces, node)
    requires x in own + Indices(pieces) && EndsAt(lines, x, node)
    requires |Ends(lines, node)| == 2 && EndsAt(lines, other, node) && other !in earlier + own + Indices(pieces)
    ensures var p := PieceAt(lines, other, node);
      && Extending(lines, earlier, own, open, start, pieces + [p], End(lines, p))
      && EndsAt(lines, other, End(lines, p)) && Indices(pieces + [p]) == Indices(pieces) + {other}
  {
    var p := PieceAt(lines, other, node);
    NodeIsPoint(lines, node, x, other);
    NewPiece(lines, other, node);
    hide Start, End, Oriented, Ends, EndsAt, ClosedBut, Side, Unique, Indices, PieceAt;
    IndicesSnoc(pieces, p);
    SideSnoc(lines, start, pieces, node, p);
    UniqueSnoc(pieces, p);
    GrowKeepsClosed(lines, own + Indices(pieces), open, node, x, p);
    assert own + Indices(pieces + [p]) == own + Indices(pieces) + {other};
  }

  lemma NewPiece(lines: seq<Line>, other: int, node: Node)
    requires EndsAt(lines, other, node) && node.Some?
    ensures var p := PieceAt(lines, other, node);
      && p.index == other && Start(lines, p) == node && Oriented(lines, p) != []
      && EndsAt(lines, other, End(lines, p))
  {
    PieceStarts(lines, other, node);
    OtherEnd(lines, PieceAt(lines, other, node));
    hide Start, End, Oriented;
  }

  /** Walks from a node through the unused lines, as long as exactly two lines end at the node. */
  method Extend(lines: seq<Line>, used: array<bool>, start: Node, ghost x0: int, ghost earlier: set<int>,
                ghost own: set<int>, ghost open: set<Node>) returns (pieces: seq<Piece>)
    requires Marks(used[..], |lines|, earlier + own) && earlier !! own
    requires x0 in own && EndsAt(lines, x0, start)
    requires ClosedBut(lines, own, open + {start}) && ClosedBut(lines, earlier, {})
    modifies used
    ensures Side(lines, start, pieces) && Unique(pieces)
    ensures Indices(pieces) !! own && Indices(pieces) !! earlier
    ensures Marks(used[..], |lines|, earlier + own + Indices(pieces))
    ensures ClosedBut(lines, own + Indices(pieces), open)
  {
    pieces := [];
    var node := start;
    ghost var x := x0;
    ExtendStart(lines, earlier, own, open, start);
    hide Extending, ClosedBut, Ends, EndsAt, Side, Unique, End, Indices, PieceAt;
    while true
      invariant Extending(lines, earlier, own, open, start, pieces, node)
      invariant Marks(used[..], |lines|, earlier + own + Indices(pieces))
      invariant x in own + Indices(pieces) && EndsAt(lines, x, node)
      decreases Unused(used[..])
    {
      var ends := Ends(lines, node);
      EndsMembers(lines, node);
      var other := NextUnused(ends, used[..]);
      if |ends| != 2 || other < 0 {
        ExtendStop(lines, earlier, own, open, start, pieces, node, used[..]);
        return;
      }
      ExtendStep(lines, earlier, own, open, start, pieces, node, x, other);
      ghost var before, taken := used[..], earlier + own + Indices(pieces);
      MarkOne(before, |lines|, taken, other);
      used[other] := true;
      assert used[..] == before[other := true];
      var piece := PieceAt(lines, other, node);
      pieces := pieces + [piece];
      node := End(lines, piece);
      x := other;
      assert earlier + own + Indices(pieces) == taken + {other};
    }
  }

  lemma MarkOne(used: seq<bool>, n: int, taken: set<int>, i: int)
    requires Marks(used, n, taken) && 0 <= i < n && !used[i]
    ensures Marks(used[i := true], n, taken + {i}) && Unused(used[i := true]) < Unused(used)
  {
    assert i in Unused(used) && i !in Unused(used[i := true]);
  }

  lemma ExtendStart(lines: seq<Line>, earlier: set<int>, own: set<int>, open: set<Node>, start: Node)
    requires ClosedBut(lines, own, open + {start})
    ensures Extending(lines, earlier, own, open, start, [], start) && Indices([]) == {}
  {
    assert own + Indices([]) == own;
  }

  lemma ExtendStop(lines: seq<Line>, earlier: set<int>, own: set<int>, open: set<Node>, start: Node,
                   pieces: seq<Piece>, node: Node, used: seq<bool>)
    requires Extending(lines, earlier, own, open, start, pieces, node) && earlier !! own
    requires Marks(used, |lines|, earlier + own + Indices(pieces)) && ClosedBut(lines, earlier, {})
    requires |Ends(lines, node)| != 2 || NextUnused(Ends(lines, node), used) < 0
    ensures Side(lines, start, pieces) && Unique(pieces)
    ensures Indices(pieces) !! own && Indices(pieces) !! earlier
    ensures ClosedBut(lines, own + Indices(pieces), open)
  {
    EndsMembers(lines, node);
    hide ClosedBut, Side, Unique, Ends, Indices;
    StopKeepsClosed(lines, earlier, own + Indices(pieces), open, node);
  }

  // ----- the points of a chain

  /** The walk with the first k pieces of the left side put before it, outermost first. */
  function Front(left: seq<Piece>, k: nat, rest: seq<Piece>): seq<Piece>
    requires k <= |left|
  {
    if k == 0 then rest else [Flip(left[k - 1])] + Front(left, k - 1, rest)
  }

  /** The pieces of a chain: the left side backwards, the seed, the right side. */
  function ChainPieces(left: seq<Piece>, seed: Piece, right: seq<Piece>): seq<Piece> {
    Front(left, |left|, [seed] + right)
  }

  lemma FlippedMeets(lines: seq<Line>, p: Piece, q: Piece)
    requires Meet(lines, p, q)
    ensures Meet(lines, Flip(q), Flip(p))
  {
    FlipSwapsEnds(lines, p);
    FlipSwapsEnds(lines, q);
  }

  lemma {:induction false} FrontWalks(lines: seq<Line>, left: seq<Piece>, k: nat, rest: seq<Piece>)
    requires rest != [] && Walk(lines, rest) && Side(lines, Start(lines, rest[0]), left) && k <= |left|
    ensures Walk(lines, Front(left, k, rest)) && Front(left, k, rest) != []
    ensures k > 0 ==> Drawn(lines, Front(left, k, rest))
    ensures Front(left, k, rest)[0] == if k == 0 then rest[0] else Flip(left[k - 1])
  {
    if k > 0 {
      hide Start, End, Oriented, Ends, Walk, Side, Meet, Drawn, Flip;
      FrontWalks(lines, left, k - 1, rest);
      if k == 1 { RestIsDrawn(lines, left, rest); }
      FrontMeets(lines, left, k, rest[0]);
      WalkCons(lines, Flip(left[k - 1]), Front(left, k - 1, rest));
    }
  }

  /** A walk with a side at its start has a point there. */
  lemma RestIsDrawn(lines: seq<Line>, left: seq<Piece>, rest: seq<Piece>)
    requires rest != [] && Walk(lines, rest) && Side(lines, Start(lines, rest[0]), left) && left != []
    ensures Drawn(lines, rest)
  {
    assert Oriented(lines, left[0]) != [];
  }

  /** The next piece of the left side, flipped, meets the one before it. */
  lemma FrontMeets(lines: seq<Line>, left: seq<Piece>, k: nat, first: Piece)
    requires Side(lines, Start(lines, first), left) && 0 < k <= |left|
    ensures Oriented(lines, Flip(left[k - 1])) != []
    ensures Meet(lines, Flip(left[k - 1]), if k == 1 then first else Flip(left[k - 2]))
  {
    FlipSwapsEnds(lines, left[k - 1]);
    assert Oriented(lines, left[k - 1]) != [];
    if k > 1 {
      assert Meet(lines, left[k - 2], left[k - 1]);
      FlippedMeets(lines, left[k - 2], left[k - 1]);
    }
    hide Oriented, Ends;
  }

  /** The points as the source joins them: the left pieces reversed without their last point, the seed, and
      the right pieces without their first point. */
  method Assemble(lines: seq<Line>, left: seq<Piece>, seed: Piece, right: seq<Piece>) returns (points: seq<Point>)
    requires Walk(lines, [seed] + right) && Side(lines, Start(lines, seed), left)
    ensures points == Joined(lines, ChainPieces(left, seed, right))
  {
    hide Oriented, Start, Joined, Walk, Side, Front, Flip;
    var all := [seed] + right;
    points := [];
    var k := |left|;
    while k > 0
      invariant 0 <= k <= |left|
      invariant points + Joined(lines, Front(left, k, all)) == Joined(lines, ChainPieces(left, seed, right))
    {
      k := k - 1;
      AssembleLeft(lines, left, k, all);
      var piece := Oriented(lines, Flip(left[k]));
      points := points + piece[..|piece| - 1];
    }
    FrontNone(left, all);
    var tail := JoinRight(lines, seed, right);
    points := points + tail;
  }

  lemma FrontNone(left: seq<Piece>, rest: seq<Piece>)
    ensures Front(left, 0, rest) == rest
  {
  }

  lemma AssembleLeft(lines: seq<Line>, left: seq<Piece>, k: nat, rest: seq<Piece>)
    requires rest != [] && Walk(lines, rest) && Side(lines, Start(lines, rest[0]), left) && k < |left|
    ensures Oriented(lines, Flip(left[k])) != []
    ensures var piece := Oriented(lines, Flip(left[k]));
      Joined(lines, Front(left, k + 1, rest)) == piece[..|piece| - 1] + Joined(lines, Front(left, k, rest))
  {
    FlipSwapsEnds(lines, left[k]);
    assert Oriented(lines, left[k]) != [];
    FrontWalks(lines, left, k, rest);
    FrontWalks(lines, left, k + 1, rest);
    hide Oriented, Walk, Side;
    JoinedCons(lines, Flip(left[k]), Front(left, k, rest));
  }

  method JoinRight(lines: seq<Line>, seed: Piece, right: seq<Piece>) returns (points: seq<Point>)
    requires Walk(lines, [seed] + right)
    ensures points == Joined(lines, [seed] + right)
  {
    hide Oriented, Joined, Walk;
    points := Oriented(lines, seed);
    JoinedSeed(lines, seed, right);
    for k := 0 to |right|
      invariant points == Joined(lines, [seed] + right[..k])
    {
      var piece := Oriented(lines, right[k]);
      JoinedNext(lines, seed, right, k);
      points := points + piece[1..];
    }
    Whole(right);
  }

  lemma JoinedSeed(lines: seq<Line>, seed: Piece, right: seq<Piece>)
    ensures Joined(lines, [seed] + right[..0]) == Oriented(lines, seed)
  {
    assert [seed] + right[..0] == [seed];
    hide Oriented;
  }

  lemma JoinedNext(lines: seq<Line>, seed: Piece, right: seq<Piece>, k: nat)
    requires Walk(lines, [seed] + right) && k < |right|
    ensures Oriented(lines, right[k]) != []
    ensures Joined(lines, [seed] + right[..k + 1])
         == Joined(lines, [seed] + right[..k]) + Oriented(lines, right[k])[1..]
  {
    assert ([seed] + right)[k + 1] == right[k];
    Snoc(right, k + 1);
    assert [seed] + right[..k + 1] == ([seed] + right[..k]) + [right[k]];
    hide Oriented, Joined;
    JoinedSnoc(lines, [seed] + right[..k], right[k]);
  }

  // ----- all chains

  datatype Chain = Chain(id: int, points: seq<Point>)

  lemma {:induction false} FrontIndices(left: seq<Piece>, k: nat, rest: seq<Piece>)
    requires k <= |left|
    ensures Indices(Front(left, k, rest)) == Indices(left[..k]) + Indices(rest)
  {
    if k == 0 {
      assert left[..0] == [];
      assert Indices(left[..0]) == {};
    } else {
      FrontIndices(left, k - 1, rest);
      Snoc(left, k);
      IndicesSnoc(left[..k - 1], left[k - 1]);
      IndicesCons(Flip(left[k - 1]), Front(left, k - 1, rest));
    }
  }

  lemma IndicesCons(p: Piece, pieces: seq<Piece>)
    ensures Indices([p] + pieces) == {p.index} + Indices(pieces)
  {
    assert forall q :: q in [p] + pieces <==> q == p || q in pieces;
  }

  lemma {:induction false} FrontUnique(left: seq<Piece>, k: nat, rest: seq<Piece>)
    requires k <= |left| && Unique(left) && Unique(rest) && Indices(left) !! Indices(rest)
    ensures Unique(Front(left, k, rest))
  {
    if k > 0 {
      FrontUnique(left, k - 1, rest);
      FrontIndices(left, k - 1, rest);
      forall l | 0 <= l < k - 1
        ensures left[l].index != left[k - 1].index
      {
      }
      assert left[k - 1] in left && left[k - 1].index in Indices(left);
      NotInPrefix(left, k - 1);
      UniqueCons(Flip(left[k - 1]), Front(left, k - 1, rest));
    }
  }

  lemma NotInPrefix(left: seq<Piece>, k: nat)
    requires k < |left| && Unique(left)
    ensures left[k].index !in Indices(left[..k])
  {
    forall p | p in left[..k]
      ensures p.index != left[k].index
    {
      var l :| 0 <= l < k && left[l] == p;
    }
  }

  lemma UniqueCons(p: Piece, pieces: seq<Piece>)
    requires Unique(pieces) && p.index !in Indices(pieces)
    ensures Unique([p] + pieces)
  {
    forall k | 0 <= k < |pieces|
      ensures pieces[k].index != p.index
    {
      assert pieces[k] in pieces;
    }
    var all := [p] + pieces;
    assert forall k | 0 < k < |all| :: all[k] == pieces[k - 1];
  }

  /** A finished chain: a walk of lines that are used once, with the points and the id of its seed, from which
      no line at a node of two ends is left out. */
  ghost predicate Finished(lines: seq<Line>, chain: Chain, pieces: seq<Piece>) {
    && pieces != [] && Walk(lines, pieces) && Unique(pieces)
    && chain.points == Joined(lines, pieces)
    && (exists i | i in Indices(pieces) ::
          && 0 <= i < |lines| && chain.id == lines[i].id && Piece(i, false) in pieces
          && forall j | j in Indices(pieces) :: i <= j)
    && ClosedBut(lines, Indices(pieces), {})
  }

  /** The lines of a list of walks. */
  ghost function Lines(walks: seq<seq<Piece>>): set<int> {
    if walks == [] then {} else Lines(walks[..|walks| - 1]) + Indices(walks[|walks| - 1])
  }

  /** Every line is used at most once over all chains. */
  ghost predicate Disjoint(walks: seq<seq<Piece>>) {
    forall k, l | 0 <= k < l < |walks| :: Indices(walks[k]) !! Indices(walks[l])
  }

  lemma LinesSnoc(walks: seq<seq<Piece>>, w: seq<Piece>)
    ensures Lines(walks + [w]) == Lines(walks) + Indices(w)
  {
    TakeAppended(walks, w);
  }

  lemma {:induction false} LinesMembers(walks: seq<seq<Piece>>, k: nat)
    requires k < |walks|
    ensures Indices(walks[k]) <= Lines(walks)
  {
    if k < |walks| - 1 { LinesMembers(walks[..|walks| - 1], k); }
  }

  lemma DisjointSnoc(walks: seq<seq<Piece>>, w: seq<Piece>)
    requires Disjoint(walks) && Indices(w) !! Lines(walks)
    ensures Disjoint(walks + [w])
  {
    forall k | 0 <= k < |walks|
      ensures Indices(walks[k]) !! Indices(w)
    {
      LinesMembers(walks, k);
    }
  }

  lemma ClosedUnion(lines: seq<Line>, a: set<int>, b: set<int>)
    requires ClosedBut(lines, a, {}) && ClosedBut(lines, b, {})
    ensures ClosedBut(lines, a + b, {})
  {
  }

  lemma SeedIsClosed(lines: seq<Line>, seed: int)
    requires 0 <= seed < |lines|
    ensures ClosedBut(lines, {seed}, {First(lines[seed].points)} + {Last(lines[seed].points)})
  {
    forall node, i, j | i in {seed} && Partners(lines, node, i, j)
      ensures node == First(lines[seed].points) || node == Last(lines[seed].points)
    {
      EndsMembers(lines, node);
      assert i in Ends(lines, node);
    }
  }

  lemma ChainIndices(left: seq<Piece>, seed: Piece, right: seq<Piece>)
    ensures Indices(ChainPieces(left, seed, right)) == {seed.index} + Indices(right) + Indices(left)
  {
    hide Indices;
    FrontIndices(left, |left|, [seed] + right);
    Whole(left);
    IndicesCons(seed, right);
  }

  /** The seed stands in its chain as it was drawn. */
  lemma SeedInChain(left: seq<Piece>, seed: Piece, right: seq<Piece>)
    ensures seed in ChainPieces(left, seed, right)
  {
    FrontKeeps(left, |left|, [seed] + right, seed);
  }

  lemma {:induction false} FrontKeeps(left: seq<Piece>, k: nat, rest: seq<Piece>, p: Piece)
    requires k <= |left| && p in rest
    ensures p in Front(left, k, rest)
  {
    if k > 0 { FrontKeeps(left, k - 1, rest, p); }
  }

  lemma ChainUnique(left: seq<Piece>, seed: Piece, right: seq<Piece>)
    requires Unique(left) && Unique(right)
    requires seed.index !in Indices(right) && Indices(left) !! {seed.index} + Indices(right)
    ensures Unique(ChainPieces(left, seed, right))
  {
    hide Indices, Unique;
    UniqueCons(seed, right);
    IndicesCons(seed, right);
    FrontUnique(left, |left|, [seed] + right);
  }

  lemma SideStartsAtPoint(lines: seq<Line>, start: Node, pieces: seq<Piece>)
    requires Side(lines, start, pieces) && pieces != []
    ensures start.Some?
  {
    assert Oriented(lines, pieces[0]) != [];
  }

  /** A line without points is alone: no side can start at its node. */
  lemma SeedWalks(lines: seq<Line>, first: int, right: seq<Piece>)
    requires 0 <= first < |lines| && Side(lines, Last(lines[first].points), right)
    ensures Walk(lines, [Piece(first, false)] + right)
  {
    var seed := Piece(first, false);
    if lines[first].points == [] {
      if right != [] { SideStartsAtPoint(lines, None, right); }
      assert right == [] && [seed] + right == [seed];
    } else {
      WalkCons(lines, seed, right);
    }
  }

  lemma ChainWalks(lines: seq<Line>, left: seq<Piece>, first: int, right: seq<Piece>)
    requires 0 <= first < |lines|
    requires Side(lines, Last(lines[first].points), right) && Side(lines, First(lines[first].points), left)
    ensures var seed := Piece(first, false);
      && Start(lines, seed) == First(lines[first].points) && Walk(lines, [seed] + right)
      && Walk(lines, ChainPieces(left, seed, right)) && ChainPieces(left, seed, right) != []
  {
    var seed := Piece(first, false);
    SeedWalks(lines, first, right);
    hide Walk, Oriented;
    FrontWalks(lines, left, |left|, [seed] + right);
  }

  /** A chain from a seed that no earlier chain used, when every line before the seed is used. */
  lemma {:induction false} ChainDone(lines: seq<Line>, earlier: set<int>, first: int, left: seq<Piece>,
                                     right: seq<Piece>, points: seq<Point>)
    requires 0 <= first < |lines| && first !in earlier && forall i | 0 <= i < first :: i in earlier
    requires Side(lines, Last(lines[first].points), right) && Side(lines, First(lines[first].points), left)
    requires Unique(left) && Unique(right) && Indices(left) !! earlier && Indices(right) !! earlier
    requires first !in Indices(right) && Indices(left) !! {first} + Indices(right)
    requires forall i | i in Indices(left) + Indices(right) :: 0 <= i < |lines|
    requires ClosedBut(lines, {first} + Indices(right) + Indices(left), {})
    requires points == Joined(lines, ChainPieces(left, Piece(first, false), right))
    ensures Finished(lines, Chain(lines[first].id, points), ChainPieces(left, Piece(first, false), right))
  {
    var seed := Piece(first, false);
    hide Side, Walk, Unique, Joined, ClosedBut, Indices, ChainPieces;
    ChainWalks(lines, left, first, right);
    ChainUnique(left, seed, right);
    ChainIndices(left, seed, right);
    SeedInChain(left, seed, right);
    var own := Indices(ChainPieces(left, seed, right));
    assert first in own;
    forall j | j in own
      ensures first <= j
    {
      if j != first {
        assert j in Indices(left) + Indices(right) && 0 <= j;
        assert j !in earlier;
      }
    }
  }

  /** What the loop over the lines has done. */
  ghost predicate Merging(lines: seq<Line>, first: int, chains: seq<Chain>, walks: seq<seq<Piece>>) {
    && |chains| == |walks| && Disjoint(walks) && ClosedBut(lines, Lines(walks), {})
    && (forall i | 0 <= i < first :: i in Lines(walks))
    && (forall k | 0 <= k < |walks| :: Finished(lines, chains[k], walks[k]))
    && (forall k | 0 <= k < |walks| :: StartsBelow(walks[k], first))
    && InOrder(walks)
  }

  /** A walk has a line below some line. */
  ghost predicate StartsBelow(w: seq<Piece>, first: int) {
    exists i | i in Indices(w) :: i < first
  }

  /** Chains follow their lowest lines: each has a line below all lines of each later one. */
  ghost predicate InOrder(walks: seq<seq<Piece>>) {
    forall k, l | 0 <= k < l < |walks| :: Before(walks[k], walks[l])
  }

  ghost predicate Before(w: seq<Piece>, v: seq<Piece>) {
    exists i | i in Indices(w) :: forall j | j in Indices(v) :: i < j
  }

  lemma MergeStep(lines: seq<Line>, first: int, chains: seq<Chain>, walks: seq<seq<Piece>>, c: Chain, w: seq<Piece>)
    requires Merging(lines, first, chains, walks) && Finished(lines, c, w)
    requires Indices(w) !! Lines(walks) && first in Indices(w)
    ensures Merging(lines, first + 1, chains + [c], walks + [w])
    ensures Lines(walks + [w]) == Lines(walks) + Indices(w)
  {
    hide Finished, ClosedBut, Indices, Disjoint, Lines, InOrder, StartsBelow;
    FinishedIsClosed(lines, c, w);
    FinishedInRange(lines, c, w);
    LinesSnoc(walks, w);
    DisjointSnoc(walks, w);
    ClosedUnion(lines, Lines(walks), Indices(w));
    OrderSnoc(walks, w, first);
  }

  lemma FinishedInRange(lines: seq<Line>, c: Chain, w: seq<Piece>)
    requires Finished(lines, c, w)
    ensures forall j | j in Indices(w) :: 0 <= j < |lines|
  {
    hide Unique, ClosedBut, Joined;
    forall p | p in w
      ensures 0 <= p.index < |lines|
    {
      var k :| 0 <= k < |w| && w[k] == p;
      assert |w| > 1 ==> Oriented(lines, w[k]) != [];
    }
  }

  lemma OrderSnoc(walks: seq<seq<Piece>>, w: seq<Piece>, first: int)
    requires InOrder(walks) && forall k | 0 <= k < |walks| :: StartsBelow(walks[k], first)
    requires (forall i | 0 <= i < first :: i in Lines(walks)) && Indices(w) !! Lines(walks) && first in Indices(w)
    requires forall j | j in Indices(w) :: 0 <= j
    ensures InOrder(walks + [w])
    ensures forall k | 0 <= k < |walks + [w]| :: StartsBelow((walks + [w])[k], first + 1)
  {
    hide Indices, Lines;
    forall k | 0 <= k < |walks|
      ensures Before(walks[k], w) && StartsBelow(walks[k], first + 1)
    {
      var i :| i in Indices(walks[k]) && i < first;
      assert forall j | j in Indices(w) :: i < j;
    }
    hide Before, StartsBelow;
    assert StartsBelow(w, first + 1) by { StartsAt(w, first); }
  }

  lemma StartsAt(w: seq<Piece>, first: int)
    requires first in Indices(w)
    ensures StartsBelow(w, first + 1)
  {
    hide Indices;
  }

  lemma FinishedIsClosed(lines: seq<Line>, c: Chain, w: seq<Piece>)
    requires Finished(lines, c, w)
    ensures ClosedBut(lines, Indices(w), {})
  {
  }

  /** One chain, from an unused line. */
  method GrowChain(lines: seq<Line>, used: array<bool>, first: int, ghost earlier: set<int>)
    returns (chain: Chain, ghost pieces: seq<Piece>)
    requires Marks(used[..], |lines|, earlier) && ClosedBut(lines, earlier, {})
    requires 0 <= first < |lines| && !used[first] && forall i | 0 <= i < first :: i in earlier
    modifies used
    ensures Finished(lines, chain, pieces) && first in Indices(pieces) && Indices(pieces) !! earlier
    ensures Marks(used[..], |lines|, earlier + Indices(pieces))
  {
    var points := lines[first].points;
    var seed := Piece(first, false);
    MarkOne(used[..], |lines|, earlier, first);
    SeedIsClosed(lines, first);
    assert EndsAt(lines, first, First(points)) && EndsAt(lines, first, Last(points)) && first !in earlier;
    hide Ends, EndsAt, ClosedBut, Side, Unique, Indices, Finished;
    ghost var before := used[..];
    used[first] := true;
    assert used[..] == before[first := true];
    var right := Extend(lines, used, Last(points), first, earlier, {first}, {First(points)});
    var left := Extend(lines, used, First(points), first, earlier, {first} + Indices(right), {});
    assert {} + {First(points)} == {First(points)};
    ChainWalks(lines, left, first, right);
    ChainIndices(left, seed, right);
    var joined := Assemble(lines, left, seed, right);
    pieces := ChainPieces(left, seed, right);
    ChainDone(lines, earlier, first, left, right, joined);
    chain := Chain(lines[first].id, joined);
    assert earlier + ({first} + Indices(right)) + Indices(left) == earlier + Indices(pieces);
  }

  /** Each chain is the finished chain of a walk, and every line is in exactly one walk. */
  ghost predicate WalkedBy(lines: seq<Line>, chains: seq<Chain>, walks: seq<seq<Piece>>) {
    && |chains| == |walks| && (forall k | 0 <= k < |walks| :: Finished(lines, chains[k], walks[k]))
    && Disjoint(walks) && (forall i :: i in Lines(walks) <==> 0 <= i < |lines|) && InOrder(walks)
  }

  ghost predicate IsMerge(lines: seq<Line>, chains: seq<Chain>) {
    exists walks :: WalkedBy(lines, chains, walks)
  }

  /** Every line in exactly one chain. */
  method Merge(lines: seq<Line>) returns (chains: seq<Chain>)
    ensures IsMerge(lines, chains)
  {
    hide Finished, ClosedBut, Indices, Disjoint, Lines, Merging, Marks, WalkedBy;
    ghost var walks: seq<seq<Piece>> := [];
    var used := new bool[|lines|](_ => false);
    chains := [];
    MergeStart(lines, used[..]);
    for first := 0 to |lines|
      invariant Merging(lines, first, chains, walks) && Marks(used[..], |lines|, Lines(walks)) && fresh(used)
      invariant used.Length == |lines|
    {
      MergeSkip(lines, first, chains, walks, used[..]);
      if !used[first] {
        var chain, pieces := GrowChain(lines, used, first, Lines(walks));
        MergeStep(lines, first, chains, walks, chain, pieces);
        chains, walks := chains + [chain], walks + [pieces];
      }
    }
    MergeEnd(lines, used[..], chains, walks);
  }

  lemma MergeEnd(lines: seq<Line>, used: seq<bool>, chains: seq<Chain>, walks: seq<seq<Piece>>)
    requires Merging(lines, |lines|, chains, walks) && Marks(used, |lines|, Lines(walks))
    ensures WalkedBy(lines, chains, walks)
  {
    hide Finished, ClosedBut, Disjoint, Lines;
  }

  lemma MergeSkip(lines: seq<Line>, first: int, chains: seq<Chain>, walks: seq<seq<Piece>>, used: seq<bool>)
    requires Merging(lines, first, chains, walks) && Marks(used, |lines|, Lines(walks)) && 0 <= first < |lines|
    ensures |used| == |lines| && (used[first] ==> Merging(lines, first + 1, chains, walks))
    ensures ClosedBut(lines, Lines(walks), {}) && forall i | 0 <= i < first :: i in Lines(walks)
  {
    hide Finished, ClosedBut, Indices, Disjoint, Lines;
  }

  lemma MergeStart(lines: seq<Line>, used: seq<bool>)
    requires |used| == |lines| && forall i | 0 <= i < |used| :: !used[i]
    ensures Merging(lines, 0, [], []) && Marks(used, |lines|, Lines([]))
  {
  }

  /** Two lines that alone end at a node lie in one chain, so no two chains can still be joined. */
  lemma PartnersShareChain(lines: seq<Line>, chains: seq<Chain>, walks: seq<seq<Piece>>, k: int, l: int,
                           node: Node, i: int, j: int)
    requires WalkedBy(lines, chains, walks) && 0 <= k < |walks| && 0 <= l < |walks|
    requires i in Indices(walks[k]) && j in Indices(walks[l]) && Partners(lines, node, i, j)
    ensures k == l
  {
    assert Finished(lines, chains[k], walks[k]);
    FinishedIsClosed(lines, chains[k], walks[k]);
    hide Finished, Indices, Partners, Lines;
  }

  lemma {:induction false} JoinedEnds(lines: seq<Line>, pieces: seq<Piece>)
    requires Walk(lines, pieces) && pieces != []
    ensures First(Joined(lines, pieces)) == Start(lines, pieces[0])
    ensures Last(Joined(lines, pieces)) == End(lines, pieces[|pieces| - 1])
  {
    var n := |pieces| - 1;
    if n > 0 {
      WalkPrefix(lines, pieces, n);
      JoinedEnds(lines, pieces[..n]);
      assert Meet(lines, pieces[n - 1], pieces[n]) && Drawn(lines, pieces);
      var a, b := Joined(lines, pieces[..n]), Oriented(lines, pieces[n]);
      assert pieces[..n][0] == pieces[0] && pieces[..n][n - 1] == pieces[n - 1] && b != [];
      assert Joined(lines, pieces) == a + b[1..];
      hide Walk, Drawn, Oriented, Ends, Joined;
      EndsOfSum(a, b);
    }
  }

  lemma EndsOfSum(a: seq<Point>, b: seq<Point>)
    requires b != [] && Last(a) == First(b)
    ensures First(a + b[1..]) == First(a) && Last(a + b[1..]) == Last(b)
  {
    var ab := a + b[1..];
    assert a != [] && ab[0] == a[0];
    assert |b| > 1 ==> ab[|ab| - 1] == b[|b| - 1];
  }

  predicate ChainEnd(chain: Chain, node: Node) {
    node == First(chain.points) || node == Last(chain.points)
  }

  /** A chain ends where one of its lines ends. */
  lemma ChainEndsAt(lines: seq<Line>, chain: Chain, pieces: seq<Piece>, node: Node) returns (i: int)
    requires Finished(lines, chain, pieces) && ChainEnd(chain, node)
    ensures i in Indices(pieces) && EndsAt(lines, i, node)
  {
    JoinedEnds(lines, pieces);
    var p := if node == First(chain.points) then pieces[0] else pieces[|pieces| - 1];
    assert p in pieces && 0 <= p.index < |lines|;
    OtherEnd(lines, p);
    i := p.index;
  }

  /** Two chains never share an end at a node of exactly two ends: nothing is left to join. */
  lemma NothingLeftToJoin(lines: seq<Line>, chains: seq<Chain>, k: int, l: int, node: Node)
    requires IsMerge(lines, chains) && 0 <= k < |chains| && 0 <= l < |chains| && k != l
    requires ChainEnd(chains[k], node) && ChainEnd(chains[l], node)
    ensures |Ends(lines, node)| != 2
  {
    hide Finished, Indices, Ends, EndsAt, ChainEnd;
    var walks :| WalkedBy(lines, chains, walks);
    var i := ChainEndsAt(lines, chains[k], walks[k], node);
    var j := ChainEndsAt(lines, chains[l], walks[l], node);
    assert i != j;
    if |Ends(lines, node)| == 2 {
      PairAt(lines, node, i, j);
      PartnersShareChain(lines, chains, walks, k, l, node, i, j);
    }
  }
}
