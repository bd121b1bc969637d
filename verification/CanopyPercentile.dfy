/** `percentile_95` of the height histograms, against the heights that were counted. */
module CanopyPercentile {
  import opened CanopyStrips
  import opened CanopySums

  // ----- the loop

  /** The rank of the lower nearest-rank percentile among n heights; -1 when there is none. */
  function Rank(n: int): int {
    95 * (n - 1) / 100
  }

  /** The sum of the first n columns. */
  function Prefix(column: int -> int, n: nat): int {
    if n == 0 then 0 else Prefix(column, n - 1) + column(n - 1)
  }

  /** The first value of which the columns up to it hold more than the rank; 0 if there is none. */
  ghost predicate FirstBeyond(column: int -> int, tallest: nat, rank: int, value: int) {
    || (0 <= value <= tallest && Prefix(column, value + 1) > rank
        && forall n | 0 < n <= value :: Prefix(column, n) <= rank)
    || (value == 0 && forall n | 0 < n <= tallest + 1 :: Prefix(column, n) <= rank)
  }

  method Percentile(crowns: int, column: int -> int, tallest: nat) returns (value: int)
    ensures FirstBeyond(column, tallest, Rank(crowns), value)
  {
    var rank, seen := Rank(crowns), 0;
    for v := 0 to tallest + 1
      invariant seen == Prefix(column, v) && forall n | 0 < n <= v :: Prefix(column, n) <= rank
    {
      seen := seen + column(v);
      if seen > rank { return v; }
    }
    return 0;
  }

  // ----- the histogram splits the heights of the canopy

  function BelowBin(v: int, tallest: int): Test {
    h => h >= CANOPY_M && Bin(h, tallest) < v
  }

  /** A test that splits into two splits every count. */
  lemma {:induction false} RowCountAdds(cells: seq<int>, line: Line, cell: int, f: Test, g: Test, both: Test, n: nat)
    requires forall h :: both(h) <==> f(h) || g(h)
    requires forall h :: !(f(h) && g(h))
    ensures RowCount(cells, line, cell, both, n)
         == RowCount(cells, line, cell, f, n) + RowCount(cells, line, cell, g, n)
  {
    if n > 0 { RowCountAdds(cells, line, cell, f, g, both, n - 1); }
  }

  lemma {:induction false} CountAdds(cells: int -> seq<int>, a: int, lines: seq<Line>, cell: int, f: Test, g: Test,
                                     both: Test)
    requires forall h :: both(h) <==> f(h) || g(h)
    requires forall h :: !(f(h) && g(h))
    ensures Count(cells, a, lines, cell, both) == Count(cells, a, lines, cell, f) + Count(cells, a, lines, cell, g)
  {
    if lines != [] {
      var k := |lines| - 1;
      CountAdds(cells, a, lines[..k], cell, f, g, both);
      RowCountAdds(cells(a + k), lines[k], cell, f, g, both, |lines[k]|);
    }
  }

  /** A test that nothing passes counts nothing. */
  lemma CountNone(cells: int -> seq<int>, a: int, lines: seq<Line>, cell: int, f: Test)
    requires forall h :: !f(h)
    ensures Count(cells, a, lines, cell, f) == 0
  {
    CountAdds(cells, a, lines, cell, f, f, f);
  }

  lemma CountSame(cells: int -> seq<int>, a: int, lines: seq<Line>, cell: int, f: Test, g: Test)
    requires forall h :: f(h) <==> g(h)
    ensures Count(cells, a, lines, cell, f) == Count(cells, a, lines, cell, g)
  {
    var none: Test := _ => false;
    CountAdds(cells, a, lines, cell, g, none, f);
    CountNone(cells, a, lines, cell, none);
  }

  /** The columns of a cell are the counts of its heights. */
  ghost predicate IsHistogram(cells: int -> seq<int>, a: int, lines: seq<Line>, cell: int, tallest: nat,
                              column: int -> int)
  {
    forall v | 0 <= v <= tallest :: column(v) == Count(cells, a, lines, cell, InBin(v, tallest))
  }

  lemma {:induction false} PrefixCounts(cells: int -> seq<int>, a: int, lines: seq<Line>, cell: int, tallest: nat,
                                        column: int -> int, n: nat)
    requires IsHistogram(cells, a, lines, cell, tallest, column) && n <= tallest + 1
    ensures Prefix(column, n) == Count(cells, a, lines, cell, BelowBin(n, tallest))
  {
    if n == 0 {
      NoBinBelow(tallest);
      CountNone(cells, a, lines, cell, BelowBin(0, tallest));
    } else {
      PrefixCounts(cells, a, lines, cell, tallest, column, n - 1);
      CountAdds(cells, a, lines, cell, BelowBin(n - 1, tallest), InBin(n - 1, tallest), BelowBin(n, tallest));
    }
  }

  lemma NoBinBelow(tallest: nat)
    ensures forall h :: !BelowBin(0, tallest)(h)
  {
  }

  /** Every height of the canopy lies in one column. */
  lemma ColumnsHoldCanopy(cells: int -> seq<int>, a: int, lines: seq<Line>, cell: int, tallest: nat, column: int -> int)
    requires IsHistogram(cells, a, lines, cell, tallest, column)
    ensures Prefix(column, tallest + 1) == Count(cells, a, lines, cell, IsCanopy())
  {
    PrefixCounts(cells, a, lines, cell, tallest, column, tallest + 1);
    CountSame(cells, a, lines, cell, BelowBin(tallest + 1, tallest), IsCanopy());
  }

  /** The percentile of a cell is the column of the height with that rank: at most `rank` heights lie in
      lower columns, and more than `rank` lie in it or below. Without a height it is 0. */
  lemma PercentileOfHeights(cells: int -> seq<int>, a: int, lines: seq<Line>, cell: int, tallest: nat,
                            column: int -> int, crowns: int, value: int)
    requires IsHistogram(cells, a, lines, cell, tallest, column)
    requires crowns == Count(cells, a, lines, cell, IsCanopy())
    requires FirstBeyond(column, tallest, Rank(crowns), value)
    ensures 0 <= value <= tallest
    ensures crowns == 0 ==> value == 0
    ensures crowns > 0 ==>
              Count(cells, a, lines, cell, BelowBin(value, tallest)) <= Rank(crowns)
              < Count(cells, a, lines, cell, BelowBin(value + 1, tallest))
    ensures crowns > 0 ==>
              100 * Count(cells, a, lines, cell, BelowBin(value, tallest)) <= 95 * (crowns - 1)
              < 100 * Count(cells, a, lines, cell, BelowBin(value + 1, tallest))
  {
    hide Count, BelowBin, IsHistogram;
    ColumnsHoldCanopy(cells, a, lines, cell, tallest, column);
    assert Prefix(column, 0) == 0;
    PrefixCounts(cells, a, lines, cell, tallest, column, 0);
    PrefixCounts(cells, a, lines, cell, tallest, column, 1);
    if crowns > 0 {
      assert Prefix(column, tallest + 1) > Rank(crowns);
      PrefixCounts(cells, a, lines, cell, tallest, column, value);
      PrefixCounts(cells, a, lines, cell, tallest, column, value + 1);
      hide Prefix;
    }
  }
}
